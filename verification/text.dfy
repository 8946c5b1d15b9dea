/**
 * The JavaScript string operations the extension's decisions rest on:
 * `split('.')` followed by `pop()`, `toLowerCase()` as far as it can affect a
 * lookup in an ASCII-keyed table, and the type normalisation the `Blob`
 * constructor applies to the `type` it is given.
 */
module Text {
  import opened Common

  /** The pieces of `s` between occurrences of `sep`, as `s.split(sep)` returns them. */
  function Split(s: string, sep: char): (pieces: seq<string>)
    ensures |pieces| >= 1
    ensures forall i :: 0 <= i < |pieces| ==> sep !in pieces[i]
    decreases |s|
  {
    if |s| == 0 then [""]
    else
      var rest := Split(s[1..], sep);
      if s[0] == sep then [""] + rest
      else [[s[0]] + rest[0]] + rest[1..]
  }

  /** The pieces glued back together with `sep` between them (`pieces.join(sep)`). */
  function Join(pieces: seq<string>, sep: char): string
    decreases |pieces|
  {
    if |pieces| == 0 then ""
    else if |pieces| == 1 then pieces[0]
    else pieces[0] + [sep] + Join(pieces[1..], sep)
  }

  /** Splitting loses nothing: joining the pieces again gives back the input. */
  lemma {:induction false} JoinSplit(s: string, sep: char)
    ensures Join(Split(s, sep), sep) == s
    decreases |s|
  {
    if |s| > 0 {
      var rest := Split(s[1..], sep);
      JoinSplit(s[1..], sep);
      if s[0] == sep {
        assert ([""] + rest)[1..] == rest;
      } else if |rest| > 1 {
        var pieces := [[s[0]] + rest[0]] + rest[1..];
        assert pieces[1..] == rest[1..];
        assert Join(rest, sep) == rest[0] + [sep] + Join(rest[1..], sep);
      }
      assert s == [s[0]] + s[1..];
    }
  }

  /** `s.split('.').pop()`: what follows the last dot of `s`, or all of `s` when it has none. */
  function AfterLastDot(s: string): (r: string)
    ensures forall i :: 0 <= i < |r| ==> r[i] != '.'
  {
    Last(Split(s, '.'))
  }

  /** `r` is the suffix of `s` that follows its last dot (the whole of `s` when it has no dot). */
  ghost predicate IsLastDotSegment(s: string, r: string)
  {
    && |r| <= |s|
    && s[|s| - |r|..] == r
    && '.' !in r
    && (|r| < |s| ==> s[|s| - |r| - 1] == '.')
  }

  /**
   * One step of the split: the text after the last dot of `s` is either all of
   * `s`, or the text after the last dot of its tail, and in the latter case
   * `s` starts with a dot or its tail holds one.
   */
  lemma AfterLastDotStep(s: string)
    requires |s| > 0
    ensures var r := AfterLastDot(s[1..]);
      || AfterLastDot(s) == s
      || (AfterLastDot(s) == r && (s[0] == '.' || '.' in s[1..]))
  {
    var t := s[1..];
    var rest := Split(t, '.');
    if s[0] == '.' {
      assert Split(s, '.') == [""] + rest;
    } else if |rest| == 1 {
      assert t == rest[0] by { JoinSplit(t, '.'); }
      assert Split(s, '.') == [[s[0]] + t];
      assert s == [s[0]] + t;
    } else {
      assert t[|rest[0]|] == '.' by {
        JoinSplit(t, '.');
        assert t == rest[0] + "." + Join(rest[1..], '.');
      }
      assert Split(s, '.') == [[s[0]] + rest[0]] + rest[1..];
    }
  }

  /** The last piece of a split on '.' is exactly the text after the last dot. */
  lemma {:induction false} AfterLastDotIsLastSegment(s: string)
    ensures IsLastDotSegment(s, AfterLastDot(s))
    decreases |s|
  {
    if |s| > 0 {
      var t := s[1..];
      var r := AfterLastDot(t);
      AfterLastDotStep(s);
      if AfterLastDot(s) != s {
        AfterLastDotIsLastSegment(t);
        assert s[|s| - |r|..] == t[|t| - |r|..];
        if |r| == |t| {
          assert t == r;
        }
      }
    }
  }

  /** At most one suffix of `s` follows its last dot. */
  lemma LastDotSegmentUnique(s: string, r1: string, r2: string)
    requires IsLastDotSegment(s, r1) && IsLastDotSegment(s, r2)
    ensures r1 == r2
  {
    assert forall k :: |s| - |r1| <= k < |s| ==> s[k] == r1[k - (|s| - |r1|)];
    assert forall k :: |s| - |r2| <= k < |s| ==> s[k] == r2[k - (|s| - |r2|)];
  }

  /** A name without a dot is its own extension. */
  lemma NoDotIsWholeName(s: string)
    requires '.' !in s
    ensures AfterLastDot(s) == s
  {
    AfterLastDotIsLastSegment(s);
    LastDotSegmentUnique(s, AfterLastDot(s), s);
  }

  /** Appending a dot and a dot-free text makes that text the last segment. */
  lemma AfterLastDotOfAppended(prefix: string, ext: string)
    requires '.' !in ext
    ensures AfterLastDot(prefix + "." + ext) == ext
  {
    var s := prefix + "." + ext;
    assert s[|s| - |ext|..] == ext;
    assert s[|s| - |ext| - 1] == '.';
    AfterLastDotIsLastSegment(s);
    LastDotSegmentUnique(s, AfterLastDot(s), ext);
  }

  /**
   * One character of `toLowerCase()`: ASCII capitals and the KELVIN SIGN
   * (U+212A, whose lower case is the ASCII letter k) are lowered; every other
   * character is kept.
   */
  function LowerChar(c: char): char
  {
    if 'A' <= c <= 'Z' then (c as int + 32) as char
    else if c == '\U{212A}' then 'k'
    else c
  }

  /** `s.toLowerCase()`, character by character. */
  function Lower(s: string): (r: string)
    ensures |r| == |s|
    ensures forall i :: 0 <= i < |s| ==> r[i] == LowerChar(s[i])
  {
    seq(|s|, i requires 0 <= i < |s| => LowerChar(s[i]))
  }

  /** Lower-casing an already lower-cased text changes nothing. */
  lemma LowerIdempotent(s: string)
    ensures Lower(Lower(s)) == Lower(s)
  {
  }

  /** The result of lower-casing holds no ASCII capital and no KELVIN SIGN. */
  lemma LowerHasNoCapitals(s: string)
    ensures forall i :: 0 <= i < |Lower(s)| ==> !('A' <= Lower(s)[i] <= 'Z') && Lower(s)[i] != '\U{212A}'
  {
  }

  /** Only printable ASCII: what the `Blob` constructor accepts as a `type`. */
  predicate PrintableAscii(s: string)
  {
    forall i :: 0 <= i < |s| ==> ' ' <= s[i] <= '~'
  }

  /**
   * The `type` a `Blob` records for a requested type `t`: an ASCII lower-cased
   * copy when every character is printable ASCII, the empty string otherwise.
   */
  function BlobType(t: string): (r: string)
    ensures PrintableAscii(t) ==> r == Lower(t) && |r| == |t|
    ensures !PrintableAscii(t) ==> r == ""
    ensures PrintableAscii(r)
  {
    if PrintableAscii(t) then Lower(t) else ""
  }

  /** Characters a MIME type literal of the extension is written with. */
  predicate MimeChar(c: char)
  {
    ('a' <= c <= 'z') || ('0' <= c <= '9') || c == '/' || c == ';' || c == '=' || c == ',' || c == '-' || c == '.'
  }

  /** A MIME type written in lower case, as the extension's literals are. */
  predicate CanonicalMime(s: string)
  {
    forall i :: 0 <= i < |s| ==> MimeChar(s[i])
  }

  /** A lower-case MIME literal is recorded by a `Blob` exactly as given. */
  lemma CanonicalMimeKept(s: string)
    requires CanonicalMime(s)
    ensures BlobType(s) == s
  {
  }

  /** Building a `Blob` from another `Blob`'s type keeps that type. */
  lemma BlobTypeIdempotent(t: string)
    ensures BlobType(BlobType(t)) == BlobType(t)
  {
  }

  /** The decimal digits of `n`, as `String(n)` writes a non-negative integer. */
  function Decimal(n: nat): (r: string)
    ensures |r| >= 1
    ensures forall i :: 0 <= i < |r| ==> '0' <= r[i] <= '9'
  {
    if n < 10 then ["0123456789"[n]] else Decimal(n / 10) + ["0123456789"[n % 10]]
  }
}
