/**
 * The text side of `create_header_and_source_files`: the names it derives from the
 * base file name and the contents of the header, source and template files, each
 * file's contents being its `write` calls concatenated in program order.
 */
module Generator {
  import opened AsciiCase
  import opened Segments
  import opened CamelCase
  import opened Paths

  function HeaderFileName(filename: string): string { filename + ".hpp" }

  function SourceFileName(filename: string): string { filename + ".cpp" }

  function TemplateFileName(filename: string): string { filename + ".tpp" }

  /**
   * The include-guard macro: the upper-cased file name followed by "_HPP". It holds no
   * lower-case letter and, ignoring case, it is the file name followed by "_hpp".
   */
  function IncludeGuard(filename: string): (g: string)
    ensures |g| == |filename| + 4 && g[|filename|..] == "_HPP"
    ensures forall i :: 0 <= i < |g| ==> !IsLowerAscii(g[i])
    ensures forall i :: 0 <= i < |filename| ==> SameIgnoringCase(filename[i], g[i])
  {
    Upper(filename) + "_HPP"
  }

  /** The class name: the CamelCase form of the file name, which holds no underscore. */
  function ClassName(filename: string): (c: string)
    ensures '_' !in c
    ensures |c| == |filename| - Count(filename, '_')
  {
    CamelCaseLength(filename);
    ToCamelCase(filename)
  }

  // The header file: guard opening, optional class declaration, guard closing.

  function GuardOpening(guard: string): string
  {
    "#ifndef " + guard + "\n#define " + guard + "\n\n"
  }

  function ClassDeclaration(className: string): string
  {
    "class " + className + " {\npublic:\n    " + className + "();\n    ~" + className + "();\n};\n\n"
  }

  function GuardClosing(guard: string): string
  {
    "#endif // " + guard + "\n"
  }

  function HeaderText(filename: string, createClass: bool): string
  {
    var guard := IncludeGuard(filename);
    GuardOpening(guard)
      + (if createClass then ClassDeclaration(ClassName(filename)) else "")
      + GuardClosing(guard)
  }

  // The source file: an include of the header, then optional member definitions.

  /** The header is included by `header_file.name`: the last component of the header's path. */
  function IncludeDirective(filename: string): string
  {
    "#include \"" + BaseName(HeaderFileName(filename)) + "\"\n\n"
  }

  function MemberDefinitions(className: string): string
  {
    className + "::" + className + "() {}\n" + className + "::~" + className + "() {}\n"
  }

  function SourceText(filename: string, createClass: bool): string
  {
    IncludeDirective(filename) + (if createClass then MemberDefinitions(ClassName(filename)) else "")
  }

  // The template file.

  function TemplateText(filename: string): string
  {
    "// Template implementation for " + ClassName(filename) + "\n"
  }

  /**
   * Where the files go, in the order they are written: the header, the source and,
   * only when templates are requested, the template file. Each is
   * `directory / <name>.<ext>`, and the three are distinct, so no write overwrites another.
   */
  function OutputPaths(filename: string, directory: Path, createTemplate: bool): (paths: seq<Path>)
    ensures |paths| == if createTemplate then 3 else 2
    ensures forall i :: 0 <= i < |paths| ==> paths[i].Child? && paths[i].parent == directory
    ensures forall i, j :: 0 <= i < j < |paths| ==> paths[i] != paths[j]
    ensures paths[0].name == HeaderFileName(filename) && paths[1].name == SourceFileName(filename)
    ensures createTemplate <==> Child(directory, TemplateFileName(filename)) in paths
  {
    ExtensionsDiffer(filename);
    [Child(directory, HeaderFileName(filename)), Child(directory, SourceFileName(filename))]
      + if createTemplate then [Child(directory, TemplateFileName(filename))] else []
  }

  /** One file the generator writes: where, and with what contents. */
  datatype GeneratedFile = GeneratedFile(path: Path, content: string)

  /** The contents written: the header's, the source's and, when requested, the template's. */
  function Contents(filename: string, createClass: bool, createTemplate: bool): (texts: seq<string>)
    ensures |texts| == if createTemplate then 3 else 2
    ensures texts[0] == HeaderText(filename, createClass) && texts[1] == SourceText(filename, createClass)
    ensures createTemplate ==> texts[2] == TemplateText(filename)
  {
    [HeaderText(filename, createClass), SourceText(filename, createClass)]
      + if createTemplate then [TemplateText(filename)] else []
  }

  /** Pairs each path with the text written to it. */
  function Pair(paths: seq<Path>, texts: seq<string>): (files: seq<GeneratedFile>)
    requires |paths| == |texts|
    ensures |files| == |paths|
    ensures forall i :: 0 <= i < |files| ==> files[i].path == paths[i] && files[i].content == texts[i]
  {
    if paths == [] then [] else [GeneratedFile(paths[0], texts[0])] + Pair(paths[1..], texts[1..])
  }

  /** Every file written, paired with its contents. */
  function Generate(filename: string, directory: Path, createClass: bool, createTemplate: bool)
    : (files: seq<GeneratedFile>)
    ensures |files| == |OutputPaths(filename, directory, createTemplate)|
    ensures forall i :: 0 <= i < |files| ==> files[i].path == OutputPaths(filename, directory, createTemplate)[i]
    ensures files[0].content == HeaderText(filename, createClass)
    ensures files[1].content == SourceText(filename, createClass)
    ensures createTemplate ==> files[2].content == TemplateText(filename)
  {
    Pair(OutputPaths(filename, directory, createTemplate), Contents(filename, createClass, createTemplate))
  }

  /** The three file names differ in their last three characters. */
  lemma ExtensionsDiffer(filename: string)
    ensures HeaderFileName(filename) != SourceFileName(filename)
    ensures HeaderFileName(filename) != TemplateFileName(filename)
    ensures SourceFileName(filename) != TemplateFileName(filename)
  {
    var n := |filename|;
    assert HeaderFileName(filename)[n + 1] == 'h';
    assert SourceFileName(filename)[n + 1] == 'c';
    assert TemplateFileName(filename)[n + 1] == 't';
  }

  // The files read line by line.


  /** Lines each terminated by a newline, as the `write` calls put them out. */
  function Unlines(lines: seq<string>): string
  {
    if lines == [] then "" else lines[0] + "\n" + Unlines(lines[1..])
  }

  lemma UnlinesCons(line: string, rest: seq<string>)
    ensures Unlines([line] + rest) == line + "\n" + Unlines(rest)
  {
    assert ([line] + rest)[1..] == rest;
  }

  /** Unlines distributes over the concatenation of line lists. */
  lemma {:induction false} UnlinesAppend(a: seq<string>, b: seq<string>)
    ensures Unlines(a + b) == Unlines(a) + Unlines(b)
  {
    if a == [] {
      assert a + b == b;
    } else {
      assert (a + b)[1..] == a[1..] + b;
      UnlinesAppend(a[1..], b);
    }
  }

  /** Splitting newline-terminated lines at '\n' gives the lines back, then the empty rest. */
  lemma {:induction false} SplitUnlines(lines: seq<string>)
    requires forall i :: 0 <= i < |lines| ==> '\n' !in lines[i]
    ensures Split(Unlines(lines), '\n') == lines + [""]
  {
    if lines != [] {
      SplitUnlines(lines[1..]);
      SplitAfterSegment(lines[0], Unlines(lines[1..]), '\n');
      assert lines[0] + "\n" + Unlines(lines[1..]) == lines[0] + ['\n'] + Unlines(lines[1..]);
      assert [lines[0]] + (lines[1..] + [""]) == lines + [""];
    }
  }

  /** Case changes and the CamelCase conversion never introduce a newline. */
  lemma DerivedNamesHaveNoNewline(filename: string)
    requires '\n' !in filename
    ensures '\n' !in IncludeGuard(filename)
    ensures '\n' !in ClassName(filename)
    ensures '\n' !in BaseName(HeaderFileName(filename))
  {
    CamelCaseOmitsAbsentNonLetter(filename, '\n');
    assert '\n' !in HeaderFileName(filename);
  }

  // Each chunk written, as the lines it holds.

  lemma GuardOpeningLines(g: string)
    ensures GuardOpening(g) == Unlines(["#ifndef " + g, "#define " + g, ""])
  {
    UnlinesCons("", []);
    UnlinesCons("#define " + g, [""]);
    UnlinesCons("#ifndef " + g, ["#define " + g, ""]);
  }

  lemma GuardClosingLines(g: string)
    ensures GuardClosing(g) == Unlines(["#endif // " + g])
  {
    UnlinesCons("#endif // " + g, []);
  }

  /** The class declaration's text, cut where its newlines are. */
  lemma ClassDeclarationAtNewlines(c: string)
    ensures ClassDeclaration(c) ==
      "class " + c + " {" + "\n" + "public:" + "\n" + "    " + c + "();" + "\n"
      + "    ~" + c + "();" + "\n" + "};" + "\n" + "" + "\n"
  {
  }

  lemma SixLines(l0: string, l1: string, l2: string, l3: string, l4: string, l5: string)
    ensures Unlines([l0, l1, l2, l3, l4, l5]) ==
      l0 + "\n" + l1 + "\n" + l2 + "\n" + l3 + "\n" + l4 + "\n" + l5 + "\n"
  {
    UnlinesCons(l5, []);
    UnlinesCons(l4, [l5]);
    UnlinesCons(l3, [l4, l5]);
    UnlinesCons(l2, [l3, l4, l5]);
    UnlinesCons(l1, [l2, l3, l4, l5]);
    UnlinesCons(l0, [l1, l2, l3, l4, l5]);
    assert [l0] + [l1, l2, l3, l4, l5] == [l0, l1, l2, l3, l4, l5];
  }

  lemma ClassDeclarationLines(c: string)
    ensures ClassDeclaration(c) ==
      Unlines(["class " + c + " {", "public:", "    " + c + "();", "    ~" + c + "();", "};", ""])
  {
    ClassDeclarationAtNewlines(c);
    SixLines("class " + c + " {", "public:", "    " + c + "();", "    ~" + c + "();", "};", "");
  }

  lemma IncludeLines(b: string)
    ensures "#include \"" + b + "\"\n\n" == Unlines(["#include \"" + b + "\"", ""])
  {
    UnlinesCons("", []);
    UnlinesCons("#include \"" + b + "\"", [""]);
  }

  lemma MemberDefinitionLines(c: string)
    ensures MemberDefinitions(c) == Unlines([c + "::" + c + "() {}", c + "::~" + c + "() {}"])
  {
    UnlinesCons(c + "::~" + c + "() {}", []);
    UnlinesCons(c + "::" + c + "() {}", [c + "::~" + c + "() {}"]);
  }

  // The files, line by line.

  /** The lines of a header with guard `g` and, when `createClass` holds, class `c`. */
  function HeaderLineList(g: string, c: string, createClass: bool): seq<string>
  {
    ["#ifndef " + g, "#define " + g, ""]
    + (if createClass then ["class " + c + " {", "public:", "    " + c + "();", "    ~" + c + "();", "};", ""] else [])
    + ["#endif // " + g]
  }

  lemma HeaderLinesHaveNoNewline(g: string, c: string, createClass: bool)
    requires '\n' !in g && '\n' !in c
    ensures forall i :: 0 <= i < |HeaderLineList(g, c, createClass)| ==> '\n' !in HeaderLineList(g, c, createClass)[i]
  {
  }

  /** The header's write calls put out exactly the header's lines, each newline-terminated. */
  lemma HeaderWritesLines(g: string, c: string, createClass: bool)
    ensures GuardOpening(g) + (if createClass then ClassDeclaration(c) else "") + GuardClosing(g)
            == Unlines(HeaderLineList(g, c, createClass))
  {
    var opening := ["#ifndef " + g, "#define " + g, ""];
    var middle := if createClass then ["class " + c + " {", "public:", "    " + c + "();", "    ~" + c + "();", "};", ""] else [];
    GuardOpeningLines(g);
    GuardClosingLines(g);
    if createClass {
      ClassDeclarationLines(c);
    }
    UnlinesAppend(opening, middle);
    UnlinesAppend(opening + middle, ["#endif // " + g]);
  }

  /**
   * The header, line by line: the guard's `#ifndef` and `#define`, an empty line, then
   * (with a class) the class declaration with its public constructor and destructor and
   * an empty line, then the guard's `#endif`, and nothing after the final newline.
   */
  lemma HeaderLines(filename: string, createClass: bool)
    requires '\n' !in filename
    ensures var g, c := IncludeGuard(filename), ClassName(filename);
            Split(HeaderText(filename, createClass), '\n') == HeaderLineList(g, c, createClass) + [""]
  {
    var g, c := IncludeGuard(filename), ClassName(filename);
    DerivedNamesHaveNoNewline(filename);
    HeaderSplits(g, c, createClass, HeaderText(filename, createClass));
  }

  lemma HeaderSplits(g: string, c: string, createClass: bool, text: string)
    requires '\n' !in g && '\n' !in c
    requires text == GuardOpening(g) + (if createClass then ClassDeclaration(c) else "") + GuardClosing(g)
    ensures Split(text, '\n') == HeaderLineList(g, c, createClass) + [""]
  {
    HeaderWritesLines(g, c, createClass);
    HeaderLinesHaveNoNewline(g, c, createClass);
    SplitUnlines(HeaderLineList(g, c, createClass));
  }

  /** The lines of a source file including header `b` and, when `createClass` holds, defining class `c`. */
  function SourceLineList(b: string, c: string, createClass: bool): seq<string>
  {
    ["#include \"" + b + "\"", ""]
    + if createClass then [c + "::" + c + "() {}", c + "::~" + c + "() {}"] else []
  }

  lemma SourceLinesHaveNoNewline(b: string, c: string, createClass: bool)
    requires '\n' !in b && '\n' !in c
    ensures forall i :: 0 <= i < |SourceLineList(b, c, createClass)| ==> '\n' !in SourceLineList(b, c, createClass)[i]
  {
  }

  lemma SourceWritesLines(b: string, c: string, createClass: bool)
    ensures "#include \"" + b + "\"\n\n" + (if createClass then MemberDefinitions(c) else "")
            == Unlines(SourceLineList(b, c, createClass))
  {
    var members := if createClass then [c + "::" + c + "() {}", c + "::~" + c + "() {}"] else [];
    IncludeLines(b);
    if createClass {
      MemberDefinitionLines(c);
    }
    UnlinesAppend(["#include \"" + b + "\"", ""], members);
  }

  /**
   * The source file, line by line: the include of the header (named by the last
   * component of the header's path) and an empty line, then (with a class) the
   * empty-bodied constructor and destructor definitions, and nothing after the final newline.
   */
  lemma SourceLines(filename: string, createClass: bool)
    requires '\n' !in filename
    ensures var b, c := BaseName(HeaderFileName(filename)), ClassName(filename);
            Split(SourceText(filename, createClass), '\n') ==
              ["#include \"" + b + "\"", ""]
              + (if createClass then [c + "::" + c + "() {}", c + "::~" + c + "() {}"] else [])
              + [""]
  {
    var b, c := BaseName(HeaderFileName(filename)), ClassName(filename);
    DerivedNamesHaveNoNewline(filename);
    SourceWritesLines(b, c, createClass);
    SourceLinesHaveNoNewline(b, c, createClass);
    SplitUnlines(SourceLineList(b, c, createClass));
  }

  /** The template file is one line naming the class. */
  lemma TemplateLines(filename: string)
    requires '\n' !in filename
    ensures Split(TemplateText(filename), '\n') == ["// Template implementation for " + ClassName(filename), ""]
  {
    var c := ClassName(filename);
    CamelCaseOmitsAbsentNonLetter(filename, '\n');
    OneLineSplits("// Template implementation for " + c, TemplateText(filename));
  }

  lemma OneLineSplits(line: string, text: string)
    requires '\n' !in line && text == line + "\n"
    ensures Split(text, '\n') == [line, ""]
  {
    assert text == line + ['\n'] + "";
    SplitAfterSegment(line, "", '\n');
  }

  /**
   * The header always opens with the guard's `#ifndef`/`#define` pair and closes with its
   * `#endif`; without a class there is nothing in between.
   */
  lemma HeaderFrame(filename: string, createClass: bool)
    ensures var g, text := IncludeGuard(filename), HeaderText(filename, createClass);
            var opening, closing := "#ifndef " + g + "\n#define " + g + "\n\n", "#endif // " + g + "\n";
            && |opening| + |closing| <= |text|
            && text[..|opening|] == opening
            && text[|text| - |closing|..] == closing
            && (!createClass ==> text == opening + closing)
  {
    var g := IncludeGuard(filename);
    var middle := if createClass then ClassDeclaration(ClassName(filename)) else "";
    assert HeaderText(filename, createClass) == GuardOpening(g) + middle + GuardClosing(g);
    Framed(GuardOpening(g), middle, GuardClosing(g));
  }

  /** A concatenation begins with its first part and ends with its last. */
  lemma Framed(opening: string, middle: string, closing: string)
    ensures var text := opening + middle + closing;
            && |opening| + |closing| <= |text|
            && text[..|opening|] == opening
            && text[|text| - |closing|..] == closing
            && (middle == "" ==> text == opening + closing)
  {
    var text := opening + middle + closing;
    assert text == opening + (middle + closing);
    if middle == "" {
      assert opening + middle == opening;
    }
  }

  /**
   * The include directive names the header by its last path component: the file name
   * with ".hpp" when the file name holds no '/', and in general the part of the file
   * name after its last '/', with ".hpp".
   */
  lemma IncludedHeaderName(filename: string)
    ensures BaseName(HeaderFileName(filename)) == BaseName(filename) + ".hpp"
    ensures '/' !in filename ==> BaseName(HeaderFileName(filename)) == HeaderFileName(filename)
  {
    BaseNameOfExtended(filename, ".hpp");
  }

  // Where the class appears.

  /** `part` occurs in `text` starting at position `i`. */
  predicate OccursAt(text: string, part: string, i: int)
  {
    0 <= i <= |text| - |part| && text[i..i + |part|] == part
  }

  /** `part` occurs somewhere in `text`. */
  predicate Contains(text: string, part: string)
  {
    exists i :: 0 <= i <= |text| && OccursAt(text, part, i)
  }

  /** Without a class the header holds no letter 'c' at all, so no `class` keyword either. */
  lemma HeaderWithoutClassHasNoC(filename: string)
    ensures 'c' !in HeaderText(filename, false)
  {
    var g := IncludeGuard(filename);
    assert 'c' !in g;
    assert HeaderText(filename, false) == GuardOpening(g) + "" + GuardClosing(g);
  }

  /** A text without the letter 'c' contains nothing that starts with one. */
  lemma NoCNoClass(text: string, part: string)
    requires 'c' !in text && part != [] && part[0] == 'c'
    ensures !Contains(text, part)
  {
  }

  /** With a class, its declaration follows the guard opening. */
  lemma ClassDeclarationFollowsOpening(g: string, c: string)
    ensures OccursAt(GuardOpening(g) + ClassDeclaration(c) + GuardClosing(g), "class " + c + " {", |GuardOpening(g)|)
  {
    var part := "class " + c + " {";
    var text := GuardOpening(g) + ClassDeclaration(c) + GuardClosing(g);
    var k := |GuardOpening(g)|;
    assert ClassDeclaration(c)[..|part|] == part;
    assert text[k..k + |part|] == ClassDeclaration(c)[..|part|];
  }

  /** The header declares a class exactly when one is requested. */
  lemma HeaderDeclaresClassIff(filename: string, createClass: bool)
    ensures Contains(HeaderText(filename, createClass), "class " + ClassName(filename) + " {") <==> createClass
  {
    var part := "class " + ClassName(filename) + " {";
    if createClass {
      ClassDeclarationFollowsOpening(IncludeGuard(filename), ClassName(filename));
    } else {
      HeaderWithoutClassHasNoC(filename);
      NoCNoClass(HeaderText(filename, false), part);
    }
  }

  // A worked example, "my_widget". The name is a parameter so that the verifier
  // does not evaluate the conversions on the literal eagerly.

  lemma MyWidgetGuard(filename: string)
    requires filename == "my_widget"
    ensures IncludeGuard(filename) == "MY_WIDGET_HPP"
  {
    assert Upper(filename) == "MY_WIDGET";
  }

  lemma MyWidgetClassName(filename: string)
    requires filename == "my_widget"
    ensures ClassName(filename) == "MyWidget"
  {
    CamelCaseOfMyWidget();
  }

  lemma MyWidgetIncludedName(filename: string)
    requires filename == "my_widget"
    ensures BaseName(HeaderFileName(filename)) == "my_widget.hpp"
  {
    assert '/' !in filename;
    IncludedHeaderName(filename);
    MyWidgetHeaderFileName(filename, HeaderFileName(filename));
  }

  lemma MyWidgetHeaderFileName(filename: string, header: string)
    requires filename == "my_widget" && header == HeaderFileName(filename)
    ensures header == "my_widget.hpp"
  {
  }
}
