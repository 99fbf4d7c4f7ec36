/** The little of `pathlib` the generator relies on, kept abstract. */
module Paths {

  /** A path given as text (`Path(s)`), or `parent / name`. */
  datatype Path = Given(text: string) | Child(parent: Path, name: string)

  /**
   * `.name` of a POSIX path whose last component is a file name: the text after
   * the last '/'. It is the longest suffix that holds no '/'.
   */
  function BaseName(s: string): (r: string)
    ensures '/' !in r
    ensures |r| <= |s| && r == s[|s| - |r|..]
    ensures |r| < |s| ==> s[|s| - |r| - 1] == '/'
  {
    if s == [] then []
    else if s[|s| - 1] == '/' then []
    else BaseName(s[..|s| - 1]) + [s[|s| - 1]]
  }

  /** A name without '/' is its own last component. */
  lemma BaseNameOfPlainName(s: string)
    requires '/' !in s
    ensures BaseName(s) == s
  {
  }

  /** One more character other than '/' extends the last component by that character. */
  lemma BaseNameOfSnoc(t: string, c: char)
    requires c != '/'
    ensures BaseName(t + [c]) == BaseName(t) + [c]
  {
    assert (t + [c])[..|t|] == t;
  }

  /** Appending '/'-free text to a name appends it to the last component. */
  lemma {:induction false} BaseNameOfExtended(s: string, ext: string)
    requires '/' !in ext
    ensures BaseName(s + ext) == BaseName(s) + ext
    decreases |ext|
  {
    if ext == [] {
      assert s + ext == s;
    } else {
      var shorter, last := ext[..|ext| - 1], ext[|ext| - 1];
      assert ext == shorter + [last];
      assert s + ext == (s + shorter) + [last];
      BaseNameOfSnoc(s + shorter, last);
      BaseNameOfExtended(s, shorter);
    }
  }
}
