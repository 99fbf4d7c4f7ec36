/**
 * `to_camel_case(name)`: split the name on '_', capitalize every segment and
 * concatenate the results (`''.join(word.capitalize() for word in name.split('_'))`).
 */
module CamelCase {
  import opened AsciiCase
  import opened Segments

  /** `''.join(w.capitalize() for w in words)`; separator-free words give a separator-free result. */
  function CapitalizeAll(words: seq<string>): (r: string)
    ensures (forall i :: 0 <= i < |words| ==> '_' !in words[i]) ==> '_' !in r
  {
    if words == [] then "" else Capitalize(words[0]) + CapitalizeAll(words[1..])
  }

  /** The class name derived from a file name. It never contains an underscore. */
  function ToCamelCase(name: string): (r: string)
    ensures '_' !in r
  {
    CapitalizeAll(Split(name, '_'))
  }

  /**
   * An independent, character-by-character reading of the same conversion:
   * an underscore is dropped and marks the start of a new word; the first
   * character of a word is upper-cased and every later one lower-cased.
   */
  function Scan(s: string, atWordStart: bool): (r: string)
    ensures |r| == |s| - Count(s, '_')
    ensures '_' !in r
  {
    if s == [] then ""
    else if s[0] == '_' then Scan(s[1..], true)
    else [if atWordStart then UpperChar(s[0]) else LowerChar(s[0])] + Scan(s[1..], false)
  }

  /** Capitalizing the segments of `s` is the same as scanning `s` from the start of a word. */
  lemma {:induction false} CamelCaseIsScan(s: string)
    ensures ToCamelCase(s) == Scan(s, true)
    decreases |s|, 1
  {
    if s != [] {
      var rest := Split(s[1..], '_');
      if s[0] == '_' {
        assert Split(s, '_') == [""] + rest;
        assert (Split(s, '_'))[1..] == rest;
        CamelCaseIsScan(s[1..]);
      } else {
        var parts := Split(s, '_');
        assert parts == [[s[0]] + rest[0]] + rest[1..];
        assert parts[1..] == rest[1..];
        assert Capitalize(parts[0]) == [UpperChar(s[0])] + Lower(rest[0]) by {
          assert parts[0][1..] == rest[0];
        }
        InsideWordIsScan(s[1..]);
      }
    }
  }

  /** Inside a word, the first segment is only lower-cased; the later segments are capitalized. */
  lemma {:induction false} InsideWordIsScan(t: string)
    ensures Lower(Split(t, '_')[0]) + CapitalizeAll(Split(t, '_')[1..]) == Scan(t, false)
    decreases |t|, 0
  {
    if t != [] {
      var rest := Split(t[1..], '_');
      if t[0] == '_' {
        assert Split(t, '_') == [""] + rest;
        assert (Split(t, '_'))[1..] == rest;
        CamelCaseIsScan(t[1..]);
      } else {
        var parts := Split(t, '_');
        assert parts == [[t[0]] + rest[0]] + rest[1..];
        assert parts[1..] == rest[1..];
        assert Lower(parts[0]) == [LowerChar(t[0])] + Lower(rest[0]) by {
          assert parts[0][1..] == rest[0];
        }
        InsideWordIsScan(t[1..]);
      }
    }
  }

  /** A character that is not a letter and is absent from the input is absent from the scan. */
  lemma {:induction false} ScanOmitsAbsentNonLetter(s: string, atWordStart: bool, c: char)
    requires c !in s && !IsAsciiLetter(c)
    ensures c !in Scan(s, atWordStart)
  {
    if s != [] {
      CaseMapsKeepNonLetters(s[0]);
      ScanOmitsAbsentNonLetter(s[1..], true, c);
      ScanOmitsAbsentNonLetter(s[1..], false, c);
    }
  }

  /** The conversion only changes the case of letters: it introduces no other character. */
  lemma CamelCaseOmitsAbsentNonLetter(name: string, c: char)
    requires c !in name && !IsAsciiLetter(c)
    ensures c !in ToCamelCase(name)
  {
    CamelCaseIsScan(name);
    ScanOmitsAbsentNonLetter(name, true, c);
  }

  /** Only the underscores are removed: the class name is as long as the name minus its underscores. */
  lemma CamelCaseLength(name: string)
    ensures |ToCamelCase(name)| == |name| - Count(name, '_')
  {
    CamelCaseIsScan(name);
  }

  /** A name without underscores is a single word, and is simply capitalized. */
  lemma CamelCaseOfOneWord(name: string)
    requires '_' !in name
    ensures ToCamelCase(name) == Capitalize(name)
  {
    SplitWithoutSeparator(name, '_');
    assert Split(name, '_')[1..] == [];
    assert CapitalizeAll(Split(name, '_')) == Capitalize(name) + CapitalizeAll([]);
  }

  /** Joining underscore-free words with '_' and converting capitalizes each word in turn. */
  lemma CamelCaseOfJoinedWords(words: seq<string>)
    requires |words| >= 1
    requires forall i :: 0 <= i < |words| ==> '_' !in words[i]
    ensures ToCamelCase(Join(words, '_')) == CapitalizeAll(words)
  {
    SplitJoin(words, '_');
  }

  /**
   * Character by character: position `i` of the name, if it is not an underscore,
   * becomes the upper-case form when it begins a word and the lower-case form otherwise.
   */
  lemma {:induction false} ScanAt(s: string, atWordStart: bool, i: nat)
    requires i < |s| && s[i] != '_'
    ensures var k := i - Count(s[..i], '_');
            var startsWord := if i == 0 then atWordStart else s[i - 1] == '_';
            k < |Scan(s, atWordStart)| &&
            Scan(s, atWordStart)[k] == if startsWord then UpperChar(s[i]) else LowerChar(s[i])
  {
    if i > 0 {
      ScanAt(s[1..], s[0] == '_', i - 1);
      assert s[1..][..i - 1] == s[..i][1..];
      assert s[..i][0] == s[0];
    }
  }

  /** A worked example: two capitalized words. */
  lemma CapitalizeMyWidget()
    ensures CapitalizeAll(["my", "widget"]) == "MyWidget"
  {
    assert Capitalize("my") == "My";
    assert Capitalize("widget") == "Widget";
  }

  /** A worked example: "my_widget" names the class "MyWidget". */
  lemma CamelCaseOfMyWidget()
    ensures ToCamelCase("my_widget") == "MyWidget"
  {
    CapitalizeMyWidget();
    CamelCaseOfJoinedWords(["my", "widget"]);
    assert Join(["my", "widget"], '_') == "my_widget";
  }

  /** `capitalize` lower-cases the rest of each word, so an inner capital is lost. */
  lemma CamelCaseOfMixedCaseWord()
    ensures ToCamelCase("myWidget") == "Mywidget"
  {
    assert Capitalize("myWidget") == "Mywidget";
    CamelCaseOfOneWord("myWidget");
  }
}
