/**
 * FortuneManager: the catalog of categories it builds from a directory
 * listing, and the lookup of a fortune by category and number, by
 * category at random, or at random over all categories.
 */
module Fortune {
  import opened Wrappers
  import opened JavaRuntime
  import opened JavaStrings
  import opened FortuneFileRecords

  /** The suffix of an index file; its data file has the same name without it. */
  const DAT_FILE_SUFFIX: string := ".dat"

  // ----- errors -----

  /**
   * How a lookup fails. The first four are the exceptions the manager
   * throws with its own messages; the others stand for exceptions the
   * Java runtime throws on its behalf (a list index out of range, a
   * random bound that is not positive, a null record, a read outside
   * the data buffer).
   */
  datatype Error =
    | CategoryNotSetup(category: string)
    | NoFortunesForCategory(category: string)
    | CookieNotPositive
    | CookieOverflow(category: string, totalRecords: int)
    | IndexOutOfBounds(index: int, size: int)
    | BoundNotPositive(bound: int)
    | MissingRecord(category: string)
    | ContentOutOfRange(start: int, length: int)
  {
    /** The manager's own exceptions, which carry a message of its making. */
    predicate HasMessage()
    {
      CategoryNotSetup? || NoFortunesForCategory? || CookieNotPositive? || CookieOverflow?
    }
  }

  /** The message of each exception the manager throws itself. */
  function Message(e: Error): (m: string)
    requires e.HasMessage()
    ensures e.CategoryNotSetup? || e.CookieOverflow? ==>
      9 + |e.category| <= |m| && m[9..9 + |e.category|] == e.category
    ensures e.NoFortunesForCategory? ==>
      26 + |e.category| <= |m| && m[26..26 + |e.category|] == e.category
  {
    match e
    case CategoryNotSetup(c) => "Category " + c + " is not setup."
    case NoFortunesForCategory(c) => "No fortunes for category [" + c + "] available."
    case CookieNotPositive => "Cookie number should be positive."
    case CookieOverflow(c, n) => "Category " + c + " only contains " + FormatInt(n) + " cookie(s)."
  }

  lemma FormatIntHasNoSpace(n: int, i: int)
    requires 0 <= i < |FormatInt(n)|
    ensures FormatInt(n)[i] != ' '
  {
  }

  lemma SpaceBeforeCount(c: string, d: string)
    ensures var t := c + " only contains " + d; t[|t| - |d| - 1] == ' '
  {
  }

  lemma CountCharFromEnd(c: string, d: string, k: int)
    requires 0 <= k < |d|
    ensures var t := c + " only contains " + d; t[|t| - k - 1] == d[|d| - k - 1]
  {
  }

  /** `c + " only contains " + d` determines `c` and `d` when `d` holds no space. */
  lemma OverflowTextDeterminesParts(c1: string, d1: string, c2: string, d2: string)
    requires forall i :: 0 <= i < |d1| ==> d1[i] != ' '
    requires forall i :: 0 <= i < |d2| ==> d2[i] != ' '
    requires c1 + " only contains " + d1 == c2 + " only contains " + d2
    ensures c1 == c2 && d1 == d2
  {
    if |d1| < |d2| {
      SpaceBeforeCount(c1, d1);
      CountCharFromEnd(c2, d2, |d1|);
      assert false;
    }
    if |d2| < |d1| {
      SpaceBeforeCount(c2, d2);
      CountCharFromEnd(c1, d1, |d2|);
      assert false;
    }
    var t := c1 + " only contains " + d1;
    assert d1 == t[|t| - |d1|..] == d2;
    assert c1 == t[..|c1|] == c2;
  }

  /** The first two and the last but one characters of a message tell its kind. */
  lemma MessageKind(e: Error)
    requires e.HasMessage()
    ensures var m := Message(e);
      && |m| >= 2
      && m[0] == (if e.NoFortunesForCategory? then 'N' else 'C')
      && m[1] == (if e.CookieNotPositive? || e.NoFortunesForCategory? then 'o' else 'a')
      && m[|m| - 2] == (if e.CookieOverflow? then ')' else if e.CategoryNotSetup? then 'p' else 'e')
  {
  }

  /** Strings that agree on their first and last parts agree in between. */
  lemma SameMiddle(a: string, t1: string, t2: string, b: string)
    requires a + t1 + b == a + t2 + b
    ensures t1 == t2
  {
    assert |t1| == |t2|;
    assert t1 == (a + t1 + b)[|a|..|a| + |t1|] == t2;
  }

  lemma OverflowMessageShape(c: string, n: int)
    ensures Message(CookieOverflow(c, n)) == "Category " + (c + " only contains " + FormatInt(n)) + " cookie(s)."
  {
  }

  lemma OverflowMessageDeterminesError(c1: string, n1: int, c2: string, n2: int)
    requires Message(CookieOverflow(c1, n1)) == Message(CookieOverflow(c2, n2))
    ensures c1 == c2 && n1 == n2
  {
    var d1, d2 := FormatInt(n1), FormatInt(n2);
    var t1 := c1 + " only contains " + d1;
    var t2 := c2 + " only contains " + d2;
    OverflowMessageShape(c1, n1);
    OverflowMessageShape(c2, n2);
    SameMiddle("Category ", t1, t2, " cookie(s).");
    forall i | 0 <= i < |d1| ensures d1[i] != ' ' { FormatIntHasNoSpace(n1, i); }
    forall i | 0 <= i < |d2| ensures d2[i] != ' ' { FormatIntHasNoSpace(n2, i); }
    OverflowTextDeterminesParts(c1, d1, c2, d2);
    FormatIntRoundTrip(n1);
    FormatIntRoundTrip(n2);
  }

  /**
   * The message tells the error apart: two of the manager's exceptions
   * with the same message are the same exception, down to the category
   * and the record count they name.
   */
  lemma MessageDeterminesError(e1: Error, e2: Error)
    requires e1.HasMessage() && e2.HasMessage()
    requires Message(e1) == Message(e2)
    ensures e1 == e2
  {
    MessageKind(e1);
    MessageKind(e2);
    var m := Message(e1);
    match e1
    case CategoryNotSetup(c1) =>
      assert c1 == m[9..9 + |c1|] == e2.category;
    case NoFortunesForCategory(c1) =>
      assert c1 == m[26..26 + |c1|] == e2.category;
    case CookieNotPositive =>
    case CookieOverflow(c1, n1) =>
      OverflowMessageDeterminesError(c1, n1, e2.category, e2.totalRecords);
  }

  // ----- extracting one fortune (getCookieNumberFromRecord) -----

  /**
   * Where fortune `cookie` ends, as lines 120-123 compute it: the buffer's
   * capacity, replaced by `records.get(cookie + 1)` when
   * `cookie < records.size()`. Once `records.get(cookie)` has succeeded the
   * guard always holds, so the end is the next offset, and the last slot
   * of the table fails instead of falling back to the buffer's end.
   */
  function ByteOffsetEnd(sf: FortuneFileRecord, cookie: int): (r: Result<int, Error>)
    ensures 0 <= cookie < |sf.records| ==> (r.Success? <==> cookie + 1 < |sf.records|)
    ensures 0 <= cookie < |sf.records| && r.Success? ==> r.value == sf.records[cookie + 1]
    ensures cookie == |sf.records| - 1 ==> r == Failure(IndexOutOfBounds(|sf.records|, |sf.records|))
  {
    if cookie < |sf.records| then
      if 0 <= cookie + 1 < |sf.records| then Success(sf.records[cookie + 1] as int)
      else Failure(IndexOutOfBounds(cookie + 1, |sf.records|))
    else
      Success(|sf.content|)
  }

  /**
   * `getCookieNumberFromRecord(structFile, cookie)`: the bytes of fortune
   * `cookie` (zero-based) without the padding, decoded and split on line
   * feeds. The length is computed in Java `int` arithmetic.
   */
  function GetCookieNumberFromRecord(sf: FortuneFileRecord, cookie: int): (r: Result<seq<string>, Error>)
    ensures !(0 <= cookie < |sf.records|) ==> r == Failure(IndexOutOfBounds(cookie, |sf.records|))
  {
    if !(0 <= cookie < |sf.records|) then Failure(IndexOutOfBounds(cookie, |sf.records|))
    else
      var start := sf.records[cookie];
      match ByteOffsetEnd(sf, cookie)
      case Failure(e) => Failure(e)
      case Success(end) =>
        var totalLength := Wrap32(Wrap32(end - start) - FORTUNE_PADDING);
        match GetFileContent(sf, start, totalLength)
        case None => Failure(ContentOutOfRange(start, totalLength))
        case Some(bytes) => Success(Split(DecodeText(bytes)))
  }

  /** The text of fortune `i` (zero-based): its bytes without the padding, decoded and split on line feeds. */
  function FortuneText(sf: FortuneFileRecord, i: int): seq<string>
    requires OffsetTableSound(sf) && 0 <= i < sf.totalRecords
  {
    RecordFits(sf, i);
    Split(DecodeText(sf.content[sf.records[i]..sf.records[i + 1] - FORTUNE_PADDING]))
  }

  /**
   * In a sound offset table, fortune `i` reads exactly the bytes
   * `[records[i], records[i + 1] - 3)`: no `int` wrap-around, never
   * outside the buffer, and the last fortune stops at the sentinel
   * minus the padding.
   */
  lemma ExtractionReadsRecord(sf: FortuneFileRecord, i: int)
    requires OffsetTableSound(sf) && 0 <= i < sf.totalRecords
    ensures 0 <= sf.records[i] <= sf.records[i + 1] - FORTUNE_PADDING <= |sf.content|
    ensures GetCookieNumberFromRecord(sf, i) == Success(FortuneText(sf, i))
  {
    RecordFits(sf, i);
    var start, end := sf.records[i], sf.records[i + 1];
    assert ByteOffsetEnd(sf, i) == Success(end as int);
    assert Wrap32(Wrap32(end - start) - FORTUNE_PADDING) == end - start - FORTUNE_PADDING;
    var bytes := GetFileContent(sf, start, end - start - FORTUNE_PADDING).value;
    assert bytes == sf.content[start..end - FORTUNE_PADDING];
    assert FortuneText(sf, i) == Split(DecodeText(bytes));
  }

  // ----- building the catalog (init) -----

  /** The files of the fortune directory by name; a name that is absent is a file whose content reads as null. */
  type Directory = map<string, seq<byte>>

  /** `FortuneFileRecord.build(name, indexContent, dataContent)`, whose decoding is not part of this model. */
  type RecordBuilder = (string, seq<byte>, seq<byte>) -> FortuneFileRecord

  /** The two collections the manager keeps: the list of category names and the map from name to record. */
  datatype Catalog = Catalog(fortunes: seq<string>, resources: map<string, FortuneFileRecord>)

  const EmptyCatalog: Catalog := Catalog([], map[])

  /** Every listed category has a record and every record is listed. */
  ghost predicate InStep(c: Catalog)
  {
    forall n :: n in c.fortunes <==> n in c.resources
  }

  predicate Distinct(s: seq<string>)
  {
    forall i, j :: 0 <= i < j < |s| ==> s[i] != s[j]
  }

  /** The category an index file names: the file name without its `.dat` suffix. */
  function CategoryName(line: string): (name: string)
    requires EndsWith(line, DAT_FILE_SUFFIX)
    ensures name + DAT_FILE_SUFFIX == line
  {
    line[..|line| - |DAT_FILE_SUFFIX|]
  }

  /** Line 60 as written: `line.replace(".dat", "")`, which deletes every occurrence of `.dat`, not only the suffix. */
  function CategoryNameAsWritten(line: string): (name: string)
    ensures |name| <= |line|
  {
    RemoveAll(line, DAT_FILE_SUFFIX)
  }

  /** Where `.dat` occurs in a listed name only as its suffix, the two derivations agree. */
  lemma CategoryNameAgrees(line: string)
    requires EndsWith(line, DAT_FILE_SUFFIX)
    requires forall i :: 0 <= i < |line| - |DAT_FILE_SUFFIX| ==> !OccursAt(line, i, DAT_FILE_SUFFIX)
    ensures CategoryNameAsWritten(line) == CategoryName(line)
  {
    RemoveAllOnlySuffix(line, DAT_FILE_SUFFIX);
  }

  /**
   * Lines 61-68 for index file `indexFile` and category `name`: when
   * either file reads as null the catalog is left as it is; otherwise the
   * record is put in the map (replacing any earlier one of that name) and
   * the name is appended to the list.
   */
  function AddCategory(c: Catalog, indexFile: string, name: string, dir: Directory, build: RecordBuilder): (r: Catalog)
    ensures name !in dir || indexFile !in dir ==> r == c
    ensures name in dir && indexFile in dir ==>
      && r.fortunes == c.fortunes + [name]
      && r.resources.Keys == c.resources.Keys + {name}
      && r.resources[name] == build(name, dir[indexFile], dir[name])
      && forall n :: n in c.resources && n != name ==> r.resources[n] == c.resources[n]
  {
    if name !in dir || indexFile !in dir then c
    else Catalog(c.fortunes + [name], c.resources[name := build(name, dir[indexFile], dir[name])])
  }

  /**
   * How the category is derived from the name of its index file: line 60
   * as written deletes every `.dat` (`ReplaceAll`); what it evidently
   * means, and what the rest of the model uses, is to strip the suffix
   * (`StripSuffix`).
   */
  datatype Naming = StripSuffix | ReplaceAll

  function CategoryOf(naming: Naming, line: string): string
    requires EndsWith(line, DAT_FILE_SUFFIX)
  {
    match naming
    case StripSuffix => CategoryName(line)
    case ReplaceAll => CategoryNameAsWritten(line)
  }

  /** A listed name that contributes a category: it ends in `.dat` and both its files are there. */
  predicate Admitted(line: string, dir: Directory, naming: Naming)
  {
    EndsWith(line, DAT_FILE_SUFFIX) && line in dir && CategoryOf(naming, line) in dir
  }

  /**
   * One turn of the loop at lines 57-70: an entry that is not an admitted
   * index file leaves the catalog as it is; otherwise its category is
   * appended to the list and its record put in the map.
   */
  function ScanLine(c: Catalog, line: string, dir: Directory, build: RecordBuilder, naming: Naming): (r: Catalog)
    ensures !Admitted(line, dir, naming) ==> r == c
    ensures Admitted(line, dir, naming) ==>
      var name := CategoryOf(naming, line);
      && r.fortunes == c.fortunes + [name]
      && r.resources == c.resources[name := build(name, dir[line], dir[name])]
  {
    if EndsWith(line, DAT_FILE_SUFFIX) then AddCategory(c, line, CategoryOf(naming, line), dir, build) else c
  }

  /**
   * The catalog after the loop has read every line of `lines`, in order,
   * starting from `c`. The loop only adds: the names listed before stay,
   * in front, followed by at most one name per line, and no record is
   * removed.
   */
  function Scan(c: Catalog, lines: seq<string>, dir: Directory, build: RecordBuilder, naming: Naming): (r: Catalog)
    ensures c.fortunes <= r.fortunes
    ensures |r.fortunes| <= |c.fortunes| + |lines|
    ensures c.resources.Keys <= r.resources.Keys
    decreases |lines|
  {
    if lines == [] then c
    else ScanLine(Scan(c, lines[..|lines| - 1], dir, build, naming), lines[|lines| - 1], dir, build, naming)
  }

  /** `name` is the category of some admitted line of `lines`. */
  ghost predicate NamedBy(name: string, lines: seq<string>, dir: Directory, naming: Naming)
  {
    exists j :: 0 <= j < |lines| && Admitted(lines[j], dir, naming) && CategoryOf(naming, lines[j]) == name
  }

  lemma NamedByLast(name: string, lines: seq<string>, dir: Directory, naming: Naming)
    requires lines != []
    ensures var init, last := lines[..|lines| - 1], lines[|lines| - 1];
      NamedBy(name, lines, dir, naming) <==>
        NamedBy(name, init, dir, naming) || (Admitted(last, dir, naming) && CategoryOf(naming, last) == name)
  {
  }

  /** The scan keeps the list and the map in step, whichever way it derives the category. */
  lemma {:induction false} ScanKeepsInStep(c: Catalog, lines: seq<string>, dir: Directory, build: RecordBuilder, naming: Naming)
    requires InStep(c)
    ensures InStep(Scan(c, lines, dir, build, naming))
    decreases |lines|
  {
    if lines != [] {
      ScanKeepsInStep(c, lines[..|lines| - 1], dir, build, naming);
    }
  }

  /**
   * After the scan, a name is listed, and has a record, exactly when it
   * was before or it is the category of an admitted line.
   */
  lemma {:induction false} ScanNames(c: Catalog, lines: seq<string>, dir: Directory, build: RecordBuilder, naming: Naming)
    ensures var r := Scan(c, lines, dir, build, naming);
      forall n :: (n in r.fortunes <==> n in c.fortunes || NamedBy(n, lines, dir, naming))
    ensures var r := Scan(c, lines, dir, build, naming);
      forall n :: (n in r.resources <==> n in c.resources || NamedBy(n, lines, dir, naming))
    decreases |lines|
  {
    if lines != [] {
      ScanNames(c, lines[..|lines| - 1], dir, build, naming);
      forall n {
        NamedByLast(n, lines, dir, naming);
      }
    }
  }

  /**
   * The record of a category is the one built from the last admitted line
   * naming it: a later `put` of the same name replaces an earlier one.
   */
  lemma {:induction false} ScanRecord(c: Catalog, lines: seq<string>, dir: Directory, build: RecordBuilder, naming: Naming, j: int)
    requires 0 <= j < |lines| && Admitted(lines[j], dir, naming)
    requires forall k :: j < k < |lines| && Admitted(lines[k], dir, naming) ==>
      CategoryOf(naming, lines[k]) != CategoryOf(naming, lines[j])
    ensures var n, r := CategoryOf(naming, lines[j]), Scan(c, lines, dir, build, naming);
      n in r.resources && r.resources[n] == build(n, dir[lines[j]], dir[n])
    decreases |lines|
  {
    var init := lines[..|lines| - 1];
    if j < |lines| - 1 {
      assert init[j] == lines[j];
      forall k | j < k < |init| && Admitted(init[k], dir, naming)
        ensures CategoryOf(naming, init[k]) != CategoryOf(naming, init[j])
      {
        assert init[k] == lines[k];
      }
      ScanRecord(c, init, dir, build, naming, j);
    }
  }

  /** In a listing without repeats, the category of the last line, suffix stripped, is named by no earlier line. */
  lemma LastNameIsNew(lines: seq<string>, dir: Directory)
    requires Distinct(lines) && lines != [] && Admitted(lines[|lines| - 1], dir, StripSuffix)
    ensures !NamedBy(CategoryName(lines[|lines| - 1]), lines[..|lines| - 1], dir, StripSuffix)
  {
    var init, last := lines[..|lines| - 1], lines[|lines| - 1];
    forall j | 0 <= j < |init| && Admitted(init[j], dir, StripSuffix)
      ensures CategoryName(init[j]) != CategoryName(last)
    {
      assert init[j] == lines[j] != last;
    }
  }

  /**
   * A directory lists each name once, and stripping the suffix keeps
   * names apart, so a catalog scanned from an empty one lists each
   * category once.
   */
  lemma {:induction false} ScanListsOnce(lines: seq<string>, dir: Directory, build: RecordBuilder)
    requires Distinct(lines)
    ensures Distinct(Scan(EmptyCatalog, lines, dir, build, StripSuffix).fortunes)
    decreases |lines|
  {
    if lines != [] {
      var init, last := lines[..|lines| - 1], lines[|lines| - 1];
      assert Distinct(init) by {
        forall i, j | 0 <= i < j < |init| ensures init[i] != init[j] {
          assert init[i] == lines[i] && init[j] == lines[j];
        }
      }
      ScanListsOnce(init, dir, build);
      var s := Scan(EmptyCatalog, init, dir, build, StripSuffix);
      if Admitted(last, dir, StripSuffix) {
        var name := CategoryName(last);
        ScanNames(EmptyCatalog, init, dir, build, StripSuffix);
        LastNameIsNew(lines, dir);
        assert name !in s.fortunes;
        var r := s.fortunes + [name];
        forall i, k | 0 <= i < k < |r| ensures r[i] != r[k] {
          if k == |r| - 1 {
            assert r[i] == s.fortunes[i];
          }
        }
      }
    }
  }

  /**
   * A list holds at least as many entries as it has distinct elements,
   * and exactly as many precisely when no entry repeats.
   */
  lemma {:induction false} ElementsCount(s: seq<string>)
    ensures |set x | x in s| <= |s|
    ensures Distinct(s) <==> |set x | x in s| == |s|
    decreases |s|
  {
    if s != [] {
      var init, last := s[..|s| - 1], s[|s| - 1];
      ElementsCount(init);
      assert s == init + [last];
      assert (set x | x in s) == (set x | x in init) + {last};
      if Distinct(s) {
        assert Distinct(init) by {
          forall i, j | 0 <= i < j < |init| ensures init[i] != init[j] {
            assert init[i] == s[i] && init[j] == s[j];
          }
        }
      }
    }
  }

  /**
   * In a catalog whose collections are in step, the map holds one record
   * per distinct listed name: never more entries than the list, and as
   * many exactly when no name is listed twice.
   */
  lemma CatalogSize(c: Catalog)
    requires InStep(c)
    ensures |c.resources| <= |c.fortunes|
    ensures Distinct(c.fortunes) <==> |c.resources| == |c.fortunes|
  {
    assert c.resources.Keys == set x | x in c.fortunes;
    ElementsCount(c.fortunes);
  }

  // ----- the manager -----

  class FortuneManager {
    /** The category names, in the order the listing gave them. */
    var fortunes: seq<string>
    /** The record of each category. */
    var fortuneResources: map<string, FortuneFileRecord>

    function State(): Catalog
      reads this
    {
      Catalog(fortunes, fortuneResources)
    }

    ghost predicate Valid()
      reads this
    {
      InStep(State())
    }

    constructor ()
      ensures State() == EmptyCatalog
      ensures Valid()
    {
      fortunes := [];
      fortuneResources := map[];
    }

    /**
     * `init()`: reads the directory listing line by line and, for every
     * index file whose two files are both there, records the category.
     * With `naming == ReplaceAll` this is the loop as written; the rest of
     * the model reads it with `StripSuffix`.
     */
    method Init(listing: seq<string>, dir: Directory, build: RecordBuilder, naming: Naming)
      modifies this
      ensures State() == Scan(old(State()), listing, dir, build, naming)
      ensures old(Valid()) ==> Valid()
    {
      ghost var start := State();
      var i := 0;
      while i < |listing|
        invariant 0 <= i <= |listing|
        invariant State() == Scan(start, listing[..i], dir, build, naming)
      {
        var line := listing[i];
        if EndsWith(line, DAT_FILE_SUFFIX) {
          var cookieName := CategoryOf(naming, line);
          if line in dir && cookieName in dir {
            var structFile := build(cookieName, dir[line], dir[cookieName]);
            fortuneResources := fortuneResources[cookieName := structFile];
            fortunes := fortunes + [cookieName];
          }
        }
        assert listing[..i + 1][..i] == listing[..i];
        i := i + 1;
      }
      assert listing[..i] == listing;
      if InStep(start) {
        ScanKeepsInStep(start, listing, dir, build, naming);
      }
    }

    /**
     * Lines 91-104 with the positive check written as `cookie < 1`: the
     * category is checked first, then the record is fetched, then the
     * number must be positive, then at most the record count. On success
     * the zero-based index of the fortune.
     */
    function CheckCookie(category: string, cookie: Int32): (r: Result<int, Error>)
      reads this
      ensures r.Success? <==>
        category in fortunes && category in fortuneResources && 1 <= cookie <= fortuneResources[category].totalRecords
      ensures r.Success? ==> r.value == cookie - 1
      ensures category !in fortunes ==> r == Failure(CategoryNotSetup(category))
      ensures category in fortunes && category in fortuneResources && cookie <= 0 ==> r == Failure(CookieNotPositive)
      ensures category in fortunes && category in fortuneResources && 0 < cookie
        && cookie > fortuneResources[category].totalRecords
        ==> r == Failure(CookieOverflow(category, fortuneResources[category].totalRecords))
    {
      if category !in fortunes then Failure(CategoryNotSetup(category))
      else if category !in fortuneResources then Failure(MissingRecord(category))
      else
        var totalRecords := fortuneResources[category].totalRecords;
        if cookie < 1 then Failure(CookieNotPositive)
        else if cookie > totalRecords then Failure(CookieOverflow(category, totalRecords))
        else Success(cookie - 1)
    }

    /**
     * Lines 91-104 as written: the positive check tests `cookie - 1 < 0`
     * in `int` arithmetic, where `Integer.MIN_VALUE - 1` wraps to
     * `Integer.MAX_VALUE`. For every other number it is `CheckCookie`.
     */
    function CheckCookieAsWritten(category: string, cookie: Int32): (r: Result<int, Error>)
      reads this
      ensures cookie != MIN_INT ==> r == CheckCookie(category, cookie)
      ensures cookie == MIN_INT && category in fortunes && category in fortuneResources ==> r == Success(MAX_INT)
    {
      var cookieOffset := Wrap32(cookie - 1);
      if category !in fortunes then Failure(CategoryNotSetup(category))
      else if category !in fortuneResources then Failure(MissingRecord(category))
      else
        var totalRecords := fortuneResources[category].totalRecords;
        if cookieOffset < 0 then Failure(CookieNotPositive)
        else if cookie > totalRecords then Failure(CookieOverflow(category, totalRecords))
        else Success(cookieOffset)
    }

    /** `getFortune(category, cookie)`: fortune number `cookie`, counting from 1. */
    function GetFortuneAt(category: string, cookie: Int32): (r: Result<seq<string>, Error>)
      reads this
      ensures category !in fortunes ==> r == Failure(CategoryNotSetup(category))
      ensures category in fortunes && category in fortuneResources && cookie <= 0 ==> r == Failure(CookieNotPositive)
    {
      match CheckCookie(category, cookie)
      case Failure(e) => Failure(e)
      case Success(i) => GetCookieNumberFromRecord(fortuneResources[category], i)
    }

    /**
     * `getFortune(category, cookie)` as written, with the positive check
     * of line 91: it agrees with `GetFortuneAt` except on
     * `Integer.MIN_VALUE`, which reaches `records.get(Integer.MAX_VALUE)`
     * and fails there, since no list holds that many entries.
     */
    function GetFortuneAtAsWritten(category: string, cookie: Int32): (r: Result<seq<string>, Error>)
      reads this
      ensures cookie != MIN_INT ==> r == GetFortuneAt(category, cookie)
      ensures cookie == MIN_INT && category in fortunes && category in fortuneResources
        ==> r == Failure(IndexOutOfBounds(MAX_INT, |fortuneResources[category].records|))
    {
      match CheckCookieAsWritten(category, cookie)
      case Failure(e) => Failure(e)
      case Success(i) => GetCookieNumberFromRecord(fortuneResources[category], i)
    }

    /** `getRandomCookieFromCategory(category)`: a fortune drawn from `[0, totalRecords)`. */
    function GetRandomCookieFromCategory(category: string, draw: nat): (r: Result<seq<string>, Error>)
      reads this
      ensures category in fortuneResources && fortuneResources[category].totalRecords <= 0
        ==> r == Failure(BoundNotPositive(fortuneResources[category].totalRecords))
    {
      if category !in fortuneResources then Failure(MissingRecord(category))
      else
        var structFile := fortuneResources[category];
        match NextInt(structFile.totalRecords, draw)
        case None => Failure(BoundNotPositive(structFile.totalRecords))
        case Some(luckyCookie) => GetCookieNumberFromRecord(structFile, luckyCookie)
    }

    /** `getFortune(category)`: a random fortune of a listed category. */
    function GetFortune(category: string, draw: nat): (r: Result<seq<string>, Error>)
      reads this
      ensures category !in fortunes ==> r == Failure(NoFortunesForCategory(category))
    {
      if category !in fortunes then Failure(NoFortunesForCategory(category))
      else GetRandomCookieFromCategory(category, draw)
    }

    /**
     * `getRandomFortune()`: the category index is drawn from
     * `[0, fortuneResources.size())` and looked up in the list.
     */
    function GetRandomFortune(categoryDraw: nat, cookieDraw: nat): (r: Result<seq<string>, Error>)
      reads this
      ensures |fortuneResources| == 0 ==> r == Failure(BoundNotPositive(0))
    {
      match NextInt(|fortuneResources|, categoryDraw)
      case None => Failure(BoundNotPositive(|fortuneResources|))
      case Some(k) =>
        if k < |fortunes| then GetRandomCookieFromCategory(fortunes[k], cookieDraw)
        else Failure(IndexOutOfBounds(k, |fortunes|))
    }
  }
}
