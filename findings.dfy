/**
 * Two places where FortuneManager as written departs from what it
 * evidently means, each shown on a concrete input, beside the corrected
 * behaviour the rest of the model uses.
 */
module Findings {
  import opened Wrappers
  import opened JavaRuntime
  import opened FortuneFileRecords
  import opened Fortune

  /**
   * `getFortune(category, Integer.MIN_VALUE)`: `cookie - 1` wraps to
   * `Integer.MAX_VALUE`, so the positive check lets the number through
   * and `records.get` then fails; with the check on `cookie < 1` the
   * caller gets "Cookie number should be positive.".
   */
  lemma MinValuePassesPositiveCheck(m: FortuneManager, category: string)
    requires category in m.fortunes && category in m.fortuneResources
    ensures m.CheckCookieAsWritten(category, MIN_INT) == Success(MAX_INT)
    ensures var sf := m.fortuneResources[category];
      GetCookieNumberFromRecord(sf, MAX_INT) == Failure(IndexOutOfBounds(MAX_INT, |sf.records|))
    ensures m.GetFortuneAtAsWritten(category, MIN_INT)
         == Failure(IndexOutOfBounds(MAX_INT, |m.fortuneResources[category].records|))
    ensures m.GetFortuneAt(category, MIN_INT) == Failure(CookieNotPositive)
  {
  }

  /**
   * `replace(".dat", "")` turns both `a.dat` and `a.dat.dat` into `a`,
   * where stripping the suffix gives `a` and `a.dat`.
   */
  lemma ReplaceMergesNames()
    ensures CategoryNameAsWritten("a.dat") == "a"
    ensures CategoryNameAsWritten("a.dat.dat") == "a"
    ensures CategoryName("a.dat") == "a" && CategoryName("a.dat.dat") == "a.dat"
  {
  }

  /** The directory `a`, `a.dat`, `a.dat.dat`, `b`, `b.dat`: every file is there. */
  predicate HasAllFiles(dir: Directory)
  {
    "a" in dir && "a.dat" in dir && "a.dat.dat" in dir && "b" in dir && "b.dat" in dir
  }

  /**
   * Reading the listing `a.dat`, `a.dat.dat`, `b.dat`, in that order, as
   * written lists `a` twice and keeps only two records.
   */
  lemma AsWrittenListsNameTwice(dir: Directory, build: RecordBuilder)
    requires HasAllFiles(dir)
    ensures var c := Scan(EmptyCatalog, ["a.dat", "a.dat.dat", "b.dat"], dir, build, ReplaceAll);
      c.fortunes == ["a", "a", "b"] && |c.resources| == 2
  {
    var lines := ["a.dat", "a.dat.dat", "b.dat"];
    ReplaceMergesNames();
    assert "b.dat"[1..] == ".dat";
    assert CategoryNameAsWritten("b.dat") == "b";
    assert lines[..2] == ["a.dat", "a.dat.dat"];
    assert lines[..2][..1] == ["a.dat"];
    assert ["a.dat"][..0] == [];
    var c1 := Scan(EmptyCatalog, ["a.dat"], dir, build, ReplaceAll);
    assert c1.fortunes == ["a"] && c1.resources.Keys == {"a"};
    var c2 := Scan(EmptyCatalog, lines[..2], dir, build, ReplaceAll);
    assert c2.fortunes == ["a", "a"] && c2.resources.Keys == {"a"};
    var c := Scan(EmptyCatalog, lines, dir, build, ReplaceAll);
    assert c == ScanLine(c2, "b.dat", dir, build, ReplaceAll);
    assert c.resources.Keys == {"a", "b"};
    assert |c.resources| == |c.resources.Keys| == 2;
  }

  /** The same listing read with the suffix stripped lists three distinct categories. */
  lemma StrippedListsNamesOnce(dir: Directory, build: RecordBuilder)
    requires HasAllFiles(dir)
    ensures Scan(EmptyCatalog, ["a.dat", "a.dat.dat", "b.dat"], dir, build, StripSuffix).fortunes == ["a", "a.dat", "b"]
  {
    var lines := ["a.dat", "a.dat.dat", "b.dat"];
    ReplaceMergesNames();
    assert CategoryName("b.dat") == "b";
    assert lines[..2] == ["a.dat", "a.dat.dat"];
    assert lines[..2][..1] == ["a.dat"];
    assert ["a.dat"][..0] == [];
    var c1 := Scan(EmptyCatalog, ["a.dat"], dir, build, StripSuffix);
    assert c1.fortunes == ["a"];
    var c2 := Scan(EmptyCatalog, lines[..2], dir, build, StripSuffix);
    assert c2.fortunes == ["a", "a.dat"];
  }

  /**
   * With the list `[a, a, b]` that listing gives and two records,
   * `getRandomFortune()` draws its index from `[0, 2)` and so always picks
   * `a`: `b` is never chosen.
   */
  lemma RandomFortuneMissesLastCategory(m: FortuneManager, categoryDraw: nat, cookieDraw: nat)
    requires m.fortunes == ["a", "a", "b"] && m.fortuneResources.Keys == {"a", "b"}
    ensures m.GetRandomFortune(categoryDraw, cookieDraw) == m.GetRandomCookieFromCategory("a", cookieDraw)
  {
    assert |m.fortuneResources| == |{"a", "b"}| == 2;
  }
}
