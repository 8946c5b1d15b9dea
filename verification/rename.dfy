/**
 * The output file name the popups compute for a converted file:
 * `name.replace(/\.[^/.]+$/, '') + '.' + ext`. popup.js shows and downloads
 * under it; popup-alternative.js computes it but never displays it.
 */
module Rename {
  import opened Text

  /**
   * The regular expression `/\.[^/.]+$/` matches `name` from index `i` on:
   * a dot at `i`, then one or more characters, none of them '/' or '.', up to
   * the end of the text.
   */
  ghost predicate ExtensionMatchAt(name: string, i: int)
  {
    && 0 <= i < |name| - 1
    && name[i] == '.'
    && forall j :: i < j < |name| ==> name[j] != '/' && name[j] != '.'
  }

  /** The expression matches at no more than one place, so "the first match" is "the match". */
  lemma ExtensionMatchUnique(name: string, i: int, k: int)
    requires ExtensionMatchAt(name, i) && ExtensionMatchAt(name, k)
    ensures i == k
  {
  }

  /**
   * `name.replace(/\.[^/.]+$/, '')`: the name without its final `.X`, where X
   * is non-empty and holds neither '/' nor '.'; the name unchanged when there
   * is no such ending.
   */
  function StripExtension(name: string): (r: string)
    ensures forall i :: ExtensionMatchAt(name, i) ==> r == name[..i]
    ensures (forall i :: !ExtensionMatchAt(name, i)) ==> r == name
  {
    var ext := AfterLastDot(name);
    AfterLastDotIsLastSegment(name);
    if 0 < |ext| < |name| && '/' !in ext then
      assert ExtensionMatchAt(name, |name| - |ext| - 1);
      name[..|name| - |ext| - 1]
    else
      assert forall i :: ExtensionMatchAt(name, i) ==> IsLastDotSegment(name, name[i + 1..]);
      name
  }

  /** The name of the converted file: the stripped source name, a dot, the target extension. */
  function RenameOutput(name: string, ext: string): (r: string)
    ensures StripExtension(name) <= r
    ensures '.' !in ext ==> AfterLastDot(r) == ext
  {
    assert '.' !in ext ==> AfterLastDot(StripExtension(name) + "." + ext) == ext by {
      if '.' !in ext {
        AfterLastDotOfAppended(StripExtension(name), ext);
      }
    }
    StripExtension(name) + "." + ext
  }

  /** The renamed file's extension is the target extension whenever that has no dot. */
  lemma RenameGivesExtension(name: string, ext: string)
    requires '.' !in ext
    ensures AfterLastDot(RenameOutput(name, ext)) == ext
  {
    AfterLastDotOfAppended(StripExtension(name), ext);
  }

  /** Renaming an already renamed file to the same extension changes nothing. */
  lemma RenameIdempotent(name: string, ext: string)
    requires 0 < |ext| && '.' !in ext && '/' !in ext
    ensures RenameOutput(RenameOutput(name, ext), ext) == RenameOutput(name, ext)
  {
    var once := RenameOutput(name, ext);
    var base := StripExtension(name);
    assert once[..|base|] == base;
    assert ExtensionMatchAt(once, |base|);
  }

  /** The only characters the rename removes are the final `.X` it matched. */
  lemma StripIsPrefix(name: string)
    ensures StripExtension(name) <= name
    ensures StripExtension(name) != name ==> name[|StripExtension(name)|] == '.'
  {
    if exists i :: ExtensionMatchAt(name, i) {
      var i :| ExtensionMatchAt(name, i);
    }
  }

  /** A file with an extension gets the target extension instead: `clip.mp4` becomes `clip.mp3`. */
  lemma RenameReplacesExtension()
    ensures RenameOutput("clip.mp4", "mp3") == "clip.mp3"
  {
    assert ExtensionMatchAt("clip.mp4", 4);
    assert "clip.mp4"[..4] == "clip";
  }

  /** Only the last extension goes: `a.b.c` becomes `a.b.mp3`. */
  lemma RenameKeepsInnerDots()
    ensures RenameOutput("a.b.c", "mp3") == "a.b.mp3"
  {
    assert ExtensionMatchAt("a.b.c", 3);
    assert "a.b.c"[..3] == "a.b";
  }

  /** A name without a dot keeps all of itself: `noext` becomes `noext.mp3`. */
  lemma RenameAppendsWithoutDot()
    ensures RenameOutput("noext", "mp3") == "noext.mp3"
  {
    assert forall i :: !ExtensionMatchAt("noext", i) by {
      forall i | 0 <= i < 5 ensures "noext"[i] != '.' { }
    }
  }

  /** A dot that precedes a '/' is not an extension: `dir.v/f` becomes `dir.v/f.mp3`. */
  lemma RenameIgnoresDotBeforeSlash()
    ensures RenameOutput("dir.v/f", "mp3") == "dir.v/f.mp3"
  {
    var name := "dir.v/f";
    assert name == ['d', 'i', 'r', '.', 'v', '/', 'f'];
    assert forall i :: !ExtensionMatchAt(name, i) by {
      assert !ExtensionMatchAt(name, 3) by { assert name[5] == '/'; }
    }
  }

  /** A trailing dot has nothing after it to match: `end.` becomes `end..mp3`. */
  lemma RenameKeepsTrailingDot()
    ensures RenameOutput("end.", "mp3") == "end..mp3"
  {
    assert forall i :: !ExtensionMatchAt("end.", i) by {
      forall i | 0 <= i < 3 ensures "end."[i] != '.' { }
    }
  }
}
