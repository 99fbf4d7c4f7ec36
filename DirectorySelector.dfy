/**
 * `print_directories` and `select_directory`: list the directories a walk visits, then
 * resolve the user's choice to a new folder under the start directory, to a listed
 * directory by (possibly negative) index, or to an error.
 */
module DirectorySelector {
  import opened Wrappers
  import opened AsciiCase
  import opened Decimal
  import opened Paths

  /** One step of `os.walk`: a directory, the names of its sub-directories and of its files. */
  datatype WalkEntry = WalkEntry(root: string, subdirs: seq<string>, files: seq<string>)

  /** The directories a walk visits, in visiting order. */
  function Roots(walk: seq<WalkEntry>): (dirs: seq<string>)
    ensures |dirs| == |walk|
    ensures forall i :: 0 <= i < |walk| ==> dirs[i] == walk[i].root
  {
    if walk == [] then [] else [walk[0].root] + Roots(walk[1..])
  }

  /**
   * `print_directories`: append the root of every walk step, so that entry `i` of the
   * listing (shown as `[i]`) is the `i`-th directory visited.
   */
  method ListDirectories(walk: seq<WalkEntry>) returns (dirs: seq<string>)
    ensures |dirs| == |walk|
    ensures forall i :: 0 <= i < |walk| ==> dirs[i] == walk[i].root
    ensures dirs == Roots(walk)
  {
    dirs := [];
    for i := 0 to |walk|
      invariant |dirs| == i
      invariant forall j :: 0 <= j < i ==> dirs[j] == walk[j].root
    {
      dirs := dirs + [walk[i].root];
    }
  }

  /** `choice.lower() == 'new'`. */
  predicate IsNewChoice(choice: string)
  {
    Lower(choice) == "new"
  }

  /** The choices that ask for a new folder are the eight spellings of "new" in any case. */
  lemma NewChoiceSpellings(choice: string)
    ensures IsNewChoice(choice) <==>
              |choice| == 3 && choice[0] in "nN" && choice[1] in "eE" && choice[2] in "wW"
  {
    if |choice| == 3 {
      assert Lower(choice) == [LowerChar(choice[0]), LowerChar(choice[1]), LowerChar(choice[2])];
    }
  }

  /**
   * Python's indexing of a list of length `n` by `k`: defined exactly for
   * `-n <= k < n`, a negative `k` counting from the end.
   */
  function PyIndex(n: nat, k: int): (r: Option<nat>)
    ensures r.Some? <==> -(n as int) <= k < n
    ensures r.Some? ==> r.value < n && (if k >= 0 then r.value == k else r.value == n + k)
  {
    if 0 <= k < n then Some(k) else if -(n as int) <= k < 0 then Some(n + k) else None
  }

  /** What the user's choice designates. */
  datatype Selection = NewFolder(path: Path) | Existing(path: Path)

  /** The two ways a choice fails: `int()` raises `ValueError`, or indexing raises `IndexError`. */
  datatype SelectionError = NotAnInteger | IndexOutOfRange

  /**
   * The decision of `select_directory` once the listing `dirs` is known. "new" in any
   * case gives `start_dir / new_folder` whatever the listing; any other choice must
   * parse as an integer and index the listing, else it is an error.
   */
  function Resolve(dirs: seq<string>, choice: string, startDir: Path, newFolder: string)
    : (r: Result<Selection, SelectionError>)
    ensures r.Ok? && r.value.NewFolder? <==> IsNewChoice(choice)
    ensures r.Ok? && r.value.NewFolder? ==> r.value.path == Child(startDir, newFolder)
    ensures r.Ok? && r.value.Existing? ==> r.value.path.Given? && r.value.path.text in dirs
    ensures r.Ok? && r.value.Existing? ==>
              ParseInt(choice).Some? &&
              var k := ParseInt(choice).value;
              -|dirs| <= k < |dirs| && r.value.path == Given(dirs[if k >= 0 then k else |dirs| + k])
    ensures r == Err(NotAnInteger) <==> !IsNewChoice(choice) && ParseInt(choice).None?
    ensures r == Err(IndexOutOfRange) <==>
              !IsNewChoice(choice) && ParseInt(choice).Some? && !(-|dirs| <= ParseInt(choice).value < |dirs|)
  {
    if IsNewChoice(choice) then
      Ok(NewFolder(Child(startDir, newFolder)))
    else
      match ParseInt(choice)
      case None => Err(NotAnInteger)
      case Some(k) =>
        match PyIndex(|dirs|, k)
        case None => Err(IndexOutOfRange)
        case Some(i) => Ok(Existing(Given(dirs[i])))
  }

  /**
   * `select_directory` once the walk is known: list the directories, then resolve the
   * choice against the listing. Creating the new folder on disk is not modelled.
   */
  method SelectDirectory(startDir: Path, walk: seq<WalkEntry>, choice: string, newFolder: string)
    returns (r: Result<Selection, SelectionError>)
    ensures r == Resolve(Roots(walk), choice, startDir, newFolder)
    ensures r.Ok? && r.value.Existing? ==> exists i :: 0 <= i < |walk| && r.value.path == Given(walk[i].root)
  {
    var dirs := ListDirectories(walk);
    r := Resolve(dirs, choice, startDir, newFolder);
  }

  /** A number never spells "new". */
  lemma ShownNumberIsNotNew(n: int)
    ensures !IsNewChoice(Show(n))
  {
    NewChoiceSpellings(Show(n));
    var s := Show(n);
    if |s| == 3 && s[0] != '-' {
      assert s == NatToDigits(n);
      assert IsAsciiDigit(s[0]);
    }
  }

  /** Typing the index shown beside a listed directory selects that directory. */
  lemma ResolveShownIndex(dirs: seq<string>, i: nat, startDir: Path, newFolder: string)
    requires i < |dirs|
    ensures Resolve(dirs, Show(i), startDir, newFolder) == Ok(Existing(Given(dirs[i])))
  {
    ShownNumberIsNotNew(i);
    ParseShow(i);
  }

  /** A negative index counts from the end of the listing: `-1` is the last directory. */
  lemma ResolveFromEnd(dirs: seq<string>, j: int, startDir: Path, newFolder: string)
    requires 1 <= j <= |dirs|
    ensures Resolve(dirs, Show(-j), startDir, newFolder) == Ok(Existing(Given(dirs[|dirs| - j])))
  {
    ShownNumberIsNotNew(-j);
    ParseShow(-j);
  }

  /** Every number outside `-|dirs| .. |dirs| - 1` is refused as out of range. */
  lemma ResolveOutOfRange(dirs: seq<string>, k: int, startDir: Path, newFolder: string)
    requires k < -|dirs| || k >= |dirs|
    ensures Resolve(dirs, Show(k), startDir, newFolder) == Err(IndexOutOfRange)
  {
    ShownNumberIsNotNew(k);
    ParseShow(k);
  }

  /** On a listed walk, the index shown as `[i]` selects the `i`-th directory visited. */
  lemma SelectListedDirectory(walk: seq<WalkEntry>, i: nat, startDir: Path, newFolder: string)
    requires i < |walk|
    ensures Resolve(Roots(walk), Show(i), startDir, newFolder) == Ok(Existing(Given(walk[i].root)))
  {
    ResolveShownIndex(Roots(walk), i, startDir, newFolder);
  }

  /** Text that reads as an integer never spells "new": it starts with a digit or a sign. */
  lemma ParsedIsNotNew(choice: string)
    requires ParseInt(choice).Some?
    ensures !IsNewChoice(choice)
  {
    NewChoiceSpellings(choice);
    assert choice[0] in "+-" || IsAsciiDigit(choice[0]);
  }

  /** Two choices that read as the same integer select the same directory, or fail the same way. */
  lemma ResolveSameNumber(dirs: seq<string>, a: string, b: string, startDir: Path, newFolder: string)
    requires ParseInt(a).Some? && ParseInt(a) == ParseInt(b)
    ensures Resolve(dirs, a, startDir, newFolder) == Resolve(dirs, b, startDir, newFolder)
  {
    ParsedIsNotNew(a);
    ParsedIsNotNew(b);
  }

  /**
   * As `int()` reads them, "+7" and "07" select what "7" does, and "-07" what "-7" does.
   */
  lemma ResolveSignAndLeadingZero(dirs: seq<string>, d: string, startDir: Path, newFolder: string)
    requires d != [] && AllDigits(d)
    ensures Resolve(dirs, "+" + d, startDir, newFolder) == Resolve(dirs, d, startDir, newFolder)
    ensures Resolve(dirs, "0" + d, startDir, newFolder) == Resolve(dirs, d, startDir, newFolder)
    ensures Resolve(dirs, "-0" + d, startDir, newFolder) == Resolve(dirs, "-" + d, startDir, newFolder)
  {
    ParsePlus(d);
    ResolveSameNumber(dirs, "+" + d, d, startDir, newFolder);
    ParseLeadingZero(d);
    ResolveSameNumber(dirs, "0" + d, d, startDir, newFolder);
    ParseMinusLeadingZero(d);
    ResolveSameNumber(dirs, "-0" + d, "-" + d, startDir, newFolder);
  }
}
