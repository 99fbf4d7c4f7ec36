# C++ file generator, modelled in Dafny

`cpp_file_generator.py` is a small command-line tool. It takes a base file name and
writes a C++ header (`<name>.hpp`), a source file (`<name>.cpp`) and, optionally, a
template file (`<name>.tpp`). Before writing, it lists the directories under a start
directory and lets the user pick one by number or type `new` to make a new folder.
With `--create-class`, the header declares a class with a public constructor and
destructor, and the source file defines both with empty bodies. The class name is the
CamelCase form of the file name. The header is wrapped in an include guard named after
the upper-cased file name.

This project models that logic as pure functions and proves what each one produces.
The modules are:

- `AsciiCase` covers `str.upper`, `str.lower` and `str.capitalize` on ASCII.
- `Segments` covers `str.split` on one character and its inverse, `join`.
- `CamelCase` covers `to_camel_case`. It includes an independent character-by-character
  reference, `Scan`, and a proof that the two agree.
- `Paths` covers a path as a given text or a child of another path, and the last
  component of a name (`Path.name`).
- `Generator` covers the derived names, the three file texts and the list of files
  written.
- `Decimal` covers the subset of `int()` that the directory choice relies on, and its
  inverse `str()`.
- `DirectorySelector` covers `print_directories` as a loop method over a given walk,
  and the decision that `select_directory` makes.
- `Wrappers` holds `Option` and `Result`.

The source line `#include "..."` uses `header_file.name`. That is the last path
component of `<filename>.hpp`, so it is not always `<filename>.hpp` itself. A file
name containing `/` is included by its final component. The model follows the code
here (`Generator.IncludedHeaderName`).

## Model

| member | source | states |
|---|---|---|
| AsciiCase.Upper | cpp_file_generator.py:35 | `upper()` keeps the length, maps every character to its upper-case form and leaves no lower-case ASCII letter |
| AsciiCase.Lower | cpp_file_generator.py:18 | `lower()` keeps the length, maps every character to its lower-case form and leaves no upper-case ASCII letter |
| AsciiCase.Capitalize | cpp_file_generator.py:28 | `capitalize()` keeps the length, makes the first character upper-case and the rest lower-case, and changes each character only in case |
| AsciiCase.CapitalizeFixesExactlyCapitalized | cpp_file_generator.py:28 | a word is left unchanged by `capitalize()` if and only if it is already capitalized |
| AsciiCase.CapitalizeIdempotent | cpp_file_generator.py:28 | capitalizing twice is the same as capitalizing once |
| Segments.Split | cpp_file_generator.py:28 | `split('_')` gives one more part than there are separators, and no part holds the separator |
| Segments.JoinSplit | cpp_file_generator.py:28 | joining the parts of a split with the separator gives back the original text |
| Segments.SplitJoin | cpp_file_generator.py:28 | splitting separator-free parts joined by the separator gives back the parts |
| Segments.SplitAfterSegment | cpp_file_generator.py:28 | a separator-free prefix followed by the separator splits off as the first part |
| CamelCase.ToCamelCase | cpp_file_generator.py:26-28 | the CamelCase name never contains an underscore |
| CamelCase.CapitalizeAll | cpp_file_generator.py:28 | `''.join(w.capitalize() for w in words)`; underscore-free words give an underscore-free result, and `CamelCaseOfJoinedWords` ties it to the conversion |
| CamelCase.CamelCaseIsScan | cpp_file_generator.py:26-28 | split, capitalize each part and join agrees with a single left-to-right scan that drops underscores, upper-cases each word's first character and lower-cases the rest |
| CamelCase.ScanAt | cpp_file_generator.py:26-28 | each non-underscore character lands at its position minus the underscores before it: upper-cased when it begins a word, lower-cased otherwise |
| CamelCase.CamelCaseLength | cpp_file_generator.py:26-28 | the CamelCase name is as long as the input minus its underscores |
| CamelCase.CamelCaseOmitsAbsentNonLetter | cpp_file_generator.py:26-28 | a non-letter absent from the name is absent from its CamelCase form |
| CamelCase.CamelCaseOfOneWord | cpp_file_generator.py:26-28 | a name without underscores is simply capitalized |
| CamelCase.CamelCaseOfJoinedWords | cpp_file_generator.py:26-28 | underscore-free words joined with '_' convert to the concatenation of the capitalized words |
| CamelCase.CamelCaseOfMyWidget | cpp_file_generator.py:26-28 | "my_widget" becomes "MyWidget" |
| CamelCase.CamelCaseOfMixedCaseWord | cpp_file_generator.py:26-28 | "myWidget" becomes "Mywidget", because `capitalize()` lower-cases inner capitals |
| Paths.BaseName | cpp_file_generator.py:47 | the last component holds no '/', is a suffix of the name, and follows a '/' whenever it is shorter than the name |
| Paths.BaseNameOfExtended | cpp_file_generator.py:47 | appending a '/'-free extension to a name appends it to the last component |
| Generator.IncludeGuard | cpp_file_generator.py:35 | the guard is the file name's length plus 4, ends in "_HPP", holds no lower-case letter and equals the file name position by position, ignoring case |
| Generator.ClassName | cpp_file_generator.py:36 | the class name holds no underscore and is as long as the file name minus its underscores |
| Generator.OutputPaths | cpp_file_generator.py:32-34 | two or three files, all children of the chosen directory and pairwise distinct; the first is `<name>.hpp`, the second `<name>.cpp`, and `<name>.tpp` is among them exactly when a template is requested |
| Generator.ExtensionsDiffer | cpp_file_generator.py:32-34 | the header, source and template names are pairwise different |
| Generator.HeaderFileName | cpp_file_generator.py:32 | `<name>.hpp`; it has no contract of its own, and `OutputPaths` and `ExtensionsDiffer` state its place among the files |
| Generator.SourceFileName | cpp_file_generator.py:33 | `<name>.cpp`; it has no contract of its own, and `OutputPaths` and `ExtensionsDiffer` state its place among the files |
| Generator.TemplateFileName | cpp_file_generator.py:34 | `<name>.tpp`; it has no contract of its own, and `OutputPaths` and `ExtensionsDiffer` state when it is written |
| Generator.HeaderText | cpp_file_generator.py:39-43 | the header's writes in order; it has no contract of its own, and `HeaderLines`, `HeaderFrame` and `HeaderDeclaresClassIff` state its contents |
| Generator.IncludeDirective | cpp_file_generator.py:47 | the include line; it has no contract of its own, and `IncludedHeaderName` and `SourceLines` state what it names |
| Generator.SourceText | cpp_file_generator.py:46-50 | the source's writes in order; it has no contract of its own, and `SourceLines` states its contents |
| Generator.TemplateText | cpp_file_generator.py:53-55 | the template's single write; it has no contract of its own, and `TemplateLines` states its contents |
| Generator.Generate | cpp_file_generator.py:39-55 | the files written are the output paths, in order, paired with the header text, the source text and (when requested) the template text |
| Generator.HeaderLines | cpp_file_generator.py:39-43 | the header's lines are `#ifndef G`, `#define G` and an empty line; then, with a class, `class C {`, `public:`, `    C();`, `    ~C();`, `};` and an empty line; then `#endif // G`, with nothing after the last newline |
| Generator.HeaderFrame | cpp_file_generator.py:39-43 | the header always starts with the guard opening and ends with the guard closing; without a class it is exactly these two |
| Generator.HeaderDeclaresClassIff | cpp_file_generator.py:41-42 | the header contains `class C {` if and only if a class is requested |
| Generator.HeaderWithoutClassHasNoC | cpp_file_generator.py:40-43 | without a class the header contains no letter 'c', so no `class` keyword |
| Generator.SourceLines | cpp_file_generator.py:46-50 | the source's lines are `#include "B"` and an empty line; then, with a class, `C::C() {}` and `C::~C() {}`, with nothing after the last newline |
| Generator.TemplateLines | cpp_file_generator.py:53-55 | the template is the single line `// Template implementation for C` |
| Generator.SplitUnlines | cpp_file_generator.py:39-55 | newline-free lines, each written with its newline, split back into those lines followed by an empty remainder |
| Generator.UnlinesAppend | cpp_file_generator.py:39-55 | consecutive writes of line lists give the text of the joined list |
| Generator.IncludedHeaderName | cpp_file_generator.py:47 | the included name is the file name's last component plus ".hpp"; for a name without '/' it is `<name>.hpp` itself |
| Generator.MyWidgetGuard | cpp_file_generator.py:35 | "my_widget" gets the guard "MY_WIDGET_HPP" |
| Generator.MyWidgetClassName | cpp_file_generator.py:36 | "my_widget" gets the class name "MyWidget" |
| Generator.MyWidgetIncludedName | cpp_file_generator.py:47 | the source for "my_widget" includes "my_widget.hpp" |
| Decimal.ParseInt | cpp_file_generator.py:23 | `int(choice)` succeeds if and only if the choice is one or more digits, or a '+' or '-' followed by one or more digits; a digit string reads as its decimal value |
| Decimal.Show | cpp_file_generator.py:11 | the index text is non-empty and starts with '-' exactly for a negative number |
| Decimal.NatToDigitsRoundTrip | cpp_file_generator.py:23 | reading back the decimal digits of a natural number gives that number |
| Decimal.ParseShow | cpp_file_generator.py:23 | `int()` of the decimal text of any integer, negative ones included, is that integer |
| Decimal.LeadingZeroIgnored | cpp_file_generator.py:23 | a leading zero does not change the value that is read |
| Decimal.ParsePlus | cpp_file_generator.py:23 | `int("+" + d)` reads the same value as `int(d)` for every digit string `d` |
| Decimal.ParseMinus | cpp_file_generator.py:23 | `int("-" + d)` reads the negation of `int(d)` for every digit string `d` |
| Decimal.ParseMinusLeadingZero | cpp_file_generator.py:23 | `int("-0" + d)` reads the same value as `int("-" + d)` for every digit string `d` |
| Decimal.ParseLeadingZero | cpp_file_generator.py:23 | `int("0" + d)` reads the same value as `int(d)` for every digit string `d` |
| DirectorySelector.Roots | cpp_file_generator.py:9-10 | the listing has one entry per walk step, holding that step's root |
| DirectorySelector.ListDirectories | cpp_file_generator.py:5-12 | the loop appends every walk root in order, so entry `i` is the `i`-th directory visited, as shown beside `[i]` |
| DirectorySelector.NewChoiceSpellings | cpp_file_generator.py:18 | the choice means "new" if and only if it is three characters spelling n, e, w in any case |
| DirectorySelector.PyIndex | cpp_file_generator.py:23 | a list index is valid if and only if it lies in `-n <= k < n`; a negative index counts from the end |
| DirectorySelector.Resolve | cpp_file_generator.py:17-23 | a new folder under the start directory if and only if the choice is "new"; otherwise the choice must read as an integer `k` with `-len <= k < len`, and the directory chosen is `dirs[k]`, counted from the end when `k` is negative; `NotAnInteger` if and only if the choice is not "new" and does not parse; `IndexOutOfRange` if and only if it parses to an index outside the listing |
| DirectorySelector.SelectDirectory | cpp_file_generator.py:14-24 | listing then resolving gives the decision `Resolve` makes on the walk's roots, and an existing directory chosen is one the walk visited |
| DirectorySelector.ShownNumberIsNotNew | cpp_file_generator.py:18 | no number typed as shown is mistaken for "new" |
| DirectorySelector.ResolveShownIndex | cpp_file_generator.py:11-23 | typing the number shown beside a directory selects that directory |
| DirectorySelector.ResolveFromEnd | cpp_file_generator.py:23 | typing `-j` selects the `j`-th directory from the end |
| DirectorySelector.ResolveOutOfRange | cpp_file_generator.py:23 | every number outside the listing's index range is refused |
| DirectorySelector.SelectListedDirectory | cpp_file_generator.py:9-23 | on a walk, the number shown as `[i]` selects the `i`-th directory visited |
| DirectorySelector.ParsedIsNotNew | cpp_file_generator.py:18-23 | a choice that reads as an integer is never taken for "new" |
| DirectorySelector.ResolveSameNumber | cpp_file_generator.py:18-23 | two choices that read as the same integer give the same selection or the same error |
| DirectorySelector.ResolveSignAndLeadingZero | cpp_file_generator.py:23 | "+d" and "0d" select what "d" does, and "-0d" what "-d" does, for every digit string `d` |
| DirectorySelector.IsNewChoice | cpp_file_generator.py:18 | `choice.lower() == 'new'`; it has no contract of its own, and `NewChoiceSpellings` states which choices satisfy it |

## Left out

- `os.walk` is not modelled. The walk is a parameter: the sequence of (root, sub-directories, files) steps it yields.
- Console input and output are not modelled: `input`, the `print` calls (including the listing lines and the confirmation at line 57), `argparse` and `main`. The choice, the new folder name and the file name are parameters.
- `mkdir` and the file writes are not modelled. The model states what each file would contain, not the effect on disk. Partial failures and existing files are outside the model.
- Upper- and lower-case mapping covers ASCII letters only; other characters are left unchanged. Python maps every Unicode letter, sometimes to several characters.
- ParseInt: accepts an optional sign followed by ASCII digits. It does not model `int()`'s surrounding whitespace, '_' digit separators or non-ASCII digits.
- Paths are modelled as a given text or a child with a name. `pathlib` normalisation, absolute child names replacing the parent, and Windows separators are not modelled. The last path component is taken after the last '/'.
- HeaderLines: requires that the file name holds no newline, as a line returned by `input()` does not. The same holds for SourceLines and TemplateLines.
- An empty file name is not rejected by the source; the model gives the texts it would produce (guard "_HPP", empty class name) and proves nothing special about them.
- Without a class, the source file holds no class keyword only when the file name does not: the include line spells the file name. The model states the absence for the header only (Generator.HeaderWithoutClassHasNoC).
