/** The `chrome.runtime` messages the extension's surfaces exchange, as values. */
module Messaging {
  import opened Common
  import opened Capture

  /** A message, by its `action`; `data` travels with the two that carry it. */
  datatype Message =
    | StartConversion(data: Option<Request>)  // `startConversion`; the popup sends it without `data`
    | Convert(request: Request)                // `convert`, handled by the offscreen document
    | ConversionComplete                       // `conversionComplete`
    | IsConversionInProgress                   // `isConversionInProgress`
    | OpenConverterWindow                      // `openConverterWindow`
    | CloseConverterWindow                     // `closeConverterWindow`
    | OtherAction(action: string)              // any action none of the listeners above name

  /** A value passed to `sendResponse`. */
  datatype Response =
    | Ack                                // `{ success: true }`
    | Done(data: ConversionData)         // `{ success: true, data }`
    | Failure(error: Option<string>)     // `{ success: false, error }`; `error` is missing when the rejection had no message
    | InProgress(flag: bool)             // `{ inProgress }`
    | WindowId(id: int)                  // `{ windowId }`

  /** Whether a listener ever calls `sendResponse` for a message. */
  datatype Answer = Answered(response: Response) | Unanswered
}
