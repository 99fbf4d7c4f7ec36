/**
 * Python's `str.upper`, `str.lower` and `str.capitalize`, restricted to ASCII:
 * the letters a-z and A-Z change case, every other character is left alone.
 */
module AsciiCase {

  predicate IsLowerAscii(c: char) { 'a' <= c <= 'z' }

  predicate IsUpperAscii(c: char) { 'A' <= c <= 'Z' }

  predicate IsAsciiLetter(c: char) { IsLowerAscii(c) || IsUpperAscii(c) }

  predicate IsAsciiDigit(c: char) { '0' <= c <= '9' }

  /** `a` and `b` are the same character once ASCII case is ignored. */
  predicate SameIgnoringCase(a: char, b: char)
  {
    || a == b
    || (IsLowerAscii(a) && b as int == a as int - 32)
    || (IsUpperAscii(a) && b as int == a as int + 32)
  }

  /** The upper-case form of one character: the only non-lower-case character of its case class. */
  function UpperChar(c: char): (u: char)
    ensures !IsLowerAscii(u) && SameIgnoringCase(c, u)
  {
    if IsLowerAscii(c) then (c as int - 32) as char else c
  }

  /** The lower-case form of one character: the only non-upper-case character of its case class. */
  function LowerChar(c: char): (l: char)
    ensures !IsUpperAscii(l) && SameIgnoringCase(c, l)
  {
    if IsUpperAscii(c) then (c as int + 32) as char else c
  }

  /** `s.upper()`: same length, each character replaced by its upper-case form. */
  function Upper(s: string): (r: string)
    ensures |r| == |s|
    ensures forall i :: 0 <= i < |s| ==> r[i] == UpperChar(s[i])
    ensures forall i :: 0 <= i < |r| ==> !IsLowerAscii(r[i])
  {
    if s == [] then [] else [UpperChar(s[0])] + Upper(s[1..])
  }

  /** `s.lower()`: same length, each character replaced by its lower-case form. */
  function Lower(s: string): (r: string)
    ensures |r| == |s|
    ensures forall i :: 0 <= i < |s| ==> r[i] == LowerChar(s[i])
    ensures forall i :: 0 <= i < |r| ==> !IsUpperAscii(r[i])
  {
    if s == [] then [] else [LowerChar(s[0])] + Lower(s[1..])
  }

  /** The shape `str.capitalize` produces: no lower-case first letter, no upper-case letter after it. */
  predicate IsCapitalized(w: string)
  {
    && (w != [] ==> !IsLowerAscii(w[0]))
    && forall i :: 1 <= i < |w| ==> !IsUpperAscii(w[i])
  }

  /**
   * `w.capitalize()`: the first character upper-cased and the rest lower-cased.
   * The result has that shape and is `w` up to case, character by character.
   */
  function Capitalize(w: string): (r: string)
    ensures |r| == |w|
    ensures IsCapitalized(r)
    ensures forall i :: 0 <= i < |w| ==> SameIgnoringCase(w[i], r[i])
  {
    if w == [] then [] else [UpperChar(w[0])] + Lower(w[1..])
  }

  /** Case changes never create or remove a character that is not a letter. */
  lemma CaseMapsKeepNonLetters(c: char)
    ensures !IsAsciiLetter(c) ==> UpperChar(c) == c && LowerChar(c) == c
    ensures c != UpperChar(c) ==> IsLowerAscii(c)
    ensures IsAsciiLetter(UpperChar(c)) <==> IsAsciiLetter(c)
    ensures IsAsciiLetter(LowerChar(c)) <==> IsAsciiLetter(c)
  {
  }

  /** `capitalize` changes a word exactly when the word does not already have the capitalized shape. */
  lemma CapitalizeFixesExactlyCapitalized(w: string)
    ensures Capitalize(w) == w <==> IsCapitalized(w)
  {
    if IsCapitalized(w) {
      forall i | 0 <= i < |w| ensures Capitalize(w)[i] == w[i] {
        if i == 0 {
          assert !IsLowerAscii(w[0]);
        } else {
          assert Capitalize(w)[i] == Lower(w[1..])[i - 1];
          assert !IsUpperAscii(w[i]);
        }
      }
    }
  }

  /** Capitalizing twice is capitalizing once. */
  lemma CapitalizeIdempotent(w: string)
    ensures Capitalize(Capitalize(w)) == Capitalize(w)
  {
    CapitalizeFixesExactlyCapitalized(Capitalize(w));
  }
}
