/**
 * What the lookups of FortuneManager promise, stated over its state:
 * which numbers a category accepts and what they read, how the random
 * lookups relate to the numbered one, and the catalog `init` leaves.
 */
module FortuneLookup {
  import opened Wrappers
  import opened JavaRuntime
  import opened JavaStrings
  import opened FortuneFileRecords
  import opened Fortune

  /**
   * `getFortune(category, cookie)` on a listed category with a sound
   * offset table succeeds exactly for the numbers 1 to `totalRecords`,
   * reads fortune `cookie - 1`, and refuses a larger number with the
   * message that names the category and its count.
   */
  lemma LookupByNumber(m: FortuneManager, category: string, cookie: Int32)
    requires m.Valid() && category in m.fortunes
    requires OffsetTableSound(m.fortuneResources[category])
    ensures var sf := m.fortuneResources[category];
      m.GetFortuneAt(category, cookie).Success? <==> 1 <= cookie <= sf.totalRecords
    ensures var sf := m.fortuneResources[category];
      1 <= cookie <= sf.totalRecords ==> m.GetFortuneAt(category, cookie) == Success(FortuneText(sf, cookie - 1))
    ensures var sf := m.fortuneResources[category];
      cookie > sf.totalRecords ==> m.GetFortuneAt(category, cookie) == Failure(CookieOverflow(category, sf.totalRecords))
  {
    var sf := m.fortuneResources[category];
    if 1 <= cookie <= sf.totalRecords {
      ExtractionReadsRecord(sf, cookie - 1);
    }
  }

  /**
   * A random fortune of a category is the numbered fortune
   * `draw % totalRecords + 1`: always a number from 1 to `totalRecords`.
   */
  lemma RandomCookieIsNumberedCookie(m: FortuneManager, category: string, draw: nat)
    requires m.Valid() && category in m.fortunes
    requires m.fortuneResources[category].totalRecords > 0
    ensures var total := m.fortuneResources[category].totalRecords;
      1 <= draw % total + 1 <= total
      && m.GetRandomCookieFromCategory(category, draw) == m.GetFortuneAt(category, draw % total + 1)
  {
  }

  /** Every fortune of a category, the first and the last included, is drawn by some draw. */
  lemma EveryCookieReachable(m: FortuneManager, category: string, cookie: Int32)
    requires m.Valid() && category in m.fortunes
    requires 1 <= cookie <= m.fortuneResources[category].totalRecords
    ensures m.GetRandomCookieFromCategory(category, cookie - 1) == m.GetFortuneAt(category, cookie)
  {
    var sf := m.fortuneResources[category];
    NextIntReachesEvery(sf.totalRecords, cookie - 1);
    assert m.GetRandomCookieFromCategory(category, cookie - 1) == GetCookieNumberFromRecord(sf, cookie - 1);
    assert m.CheckCookie(category, cookie) == Success(cookie - 1);
  }

  /**
   * `getFortune(category)` on a listed category is a numbered fortune of
   * it, and fails as `nextInt` does when the category has no fortunes.
   */
  lemma GetFortuneByCategory(m: FortuneManager, category: string, draw: nat)
    requires m.Valid() && category in m.fortunes
    ensures var total := m.fortuneResources[category].totalRecords;
      total > 0 ==> (1 <= draw % total + 1 <= total
        && m.GetFortune(category, draw) == m.GetFortuneAt(category, draw % total + 1))
    ensures var total := m.fortuneResources[category].totalRecords;
      total <= 0 ==> m.GetFortune(category, draw) == Failure(BoundNotPositive(total))
  {
  }

  /**
   * `getRandomFortune()` picks the listed category at index
   * `categoryDraw % fortuneResources.size()`, which is always inside the
   * list; the choice depends on the number of categories only, not on
   * how many fortunes each holds.
   */
  lemma RandomFortunePicksListedCategory(m: FortuneManager, categoryDraw: nat, cookieDraw: nat)
    requires m.Valid() && |m.fortuneResources| > 0
    ensures categoryDraw % |m.fortuneResources| < |m.fortunes|
    ensures m.GetRandomFortune(categoryDraw, cookieDraw)
         == m.GetRandomCookieFromCategory(m.fortunes[categoryDraw % |m.fortuneResources|], cookieDraw)
  {
    CatalogSize(m.State());
  }

  /**
   * When no category is listed twice, `getRandomFortune()` reaches every
   * listed category: the draw `j` picks the category at index `j`.
   */
  lemma RandomFortuneReachesEveryCategory(m: FortuneManager, j: nat, cookieDraw: nat)
    requires m.Valid() && Distinct(m.fortunes) && j < |m.fortunes|
    ensures m.GetRandomFortune(j, cookieDraw) == m.GetRandomCookieFromCategory(m.fortunes[j], cookieDraw)
  {
    CatalogSize(m.State());
    NextIntReachesEvery(|m.fortuneResources|, j);
  }

  /**
   * When some entry of the list is repeated, the map has fewer entries
   * than the list, and `getRandomFortune()` never draws the last index of
   * the list: the entry appended last is never picked through it.
   */
  lemma RepeatedCategoryHidesLast(m: FortuneManager, categoryDraw: nat, cookieDraw: nat)
    requires m.Valid() && !Distinct(m.fortunes)
    ensures |m.fortuneResources| < |m.fortunes|
    ensures |m.fortuneResources| > 0 ==>
      var k := categoryDraw % |m.fortuneResources|;
      k < |m.fortunes| - 1
      && m.GetRandomFortune(categoryDraw, cookieDraw) == m.GetRandomCookieFromCategory(m.fortunes[k], cookieDraw)
  {
    CatalogSize(m.State());
  }

  /**
   * `init` on a fresh manager leaves the list and the map in step, and the
   * map has as many entries as the list exactly when no category is
   * listed twice. From a listing without repeats, stripping the suffix
   * lists each category once.
   */
  lemma InitCatalog(listing: seq<string>, dir: Directory, build: RecordBuilder, naming: Naming)
    ensures var c := Scan(EmptyCatalog, listing, dir, build, naming);
      InStep(c) && (Distinct(c.fortunes) <==> |c.resources| == |c.fortunes|)
    ensures Distinct(listing) && naming == StripSuffix ==>
      var c := Scan(EmptyCatalog, listing, dir, build, naming);
      Distinct(c.fortunes) && |c.resources| == |c.fortunes|
  {
    var c := Scan(EmptyCatalog, listing, dir, build, naming);
    ScanKeepsInStep(EmptyCatalog, listing, dir, build, naming);
    if Distinct(listing) && naming == StripSuffix {
      ScanListsOnce(listing, dir, build);
    }
    CatalogSize(c);
  }

  /**
   * A data file holding one fortune followed by `\n%\n`, indexed by the
   * table `[0, end]`, gives back exactly the fortune's text split on line
   * feeds.
   */
  lemma SingleFortuneRoundTrip(body: seq<byte>)
    requires |body| + FORTUNE_PADDING <= MAX_INT
    ensures var content := body + [10, 37, 10];
      GetCookieNumberFromRecord(FortuneFileRecord([0, |content|], 1, content), 0)
        == Success(Split(DecodeText(body)))
  {
  }

  /** An unknown category is refused as not set up, whatever the number. */
  lemma UnknownCategoryNotSetup(m: FortuneManager)
    requires "not_a_valid_category" !in m.fortunes
    ensures m.GetFortuneAt("not_a_valid_category", 1) == Failure(CategoryNotSetup("not_a_valid_category"))
  {
  }

  /** In a category of 465 fortunes, -1 is refused as not positive. */
  lemma ArtNegativeCookieRefused(m: FortuneManager)
    requires m.Valid() && "art" in m.fortunes
    requires m.fortuneResources["art"].totalRecords == 465
    ensures m.GetFortuneAt("art", -1) == Failure(CookieNotPositive)
  {
  }

  /** In a category of 465 fortunes, 466 is one too many, and the message names the count. */
  lemma ArtOverflowCookieRefused(m: FortuneManager)
    requires m.Valid() && "art" in m.fortunes
    requires m.fortuneResources["art"].totalRecords == 465
    ensures m.GetFortuneAt("art", 466) == Failure(CookieOverflow("art", 465))
  {
  }

  /** The message of that refusal reads "Category art only contains 465 cookie(s).". */
  lemma ArtOverflowMessage()
    ensures Message(CookieOverflow("art", 465)) == "Category art only contains 465 cookie(s)."
  {
    FormatCount465();
  }

  lemma FormatCount465()
    ensures FormatInt(465) == "465"
  {
    assert NatToDecimal(46) == NatToDecimal(4) + [DigitChar(6)] == "46";
    assert FormatInt(465) == NatToDecimal(46) + [DigitChar(5)];
  }

  /** In a category of 465 fortunes with a sound table, 465 is accepted and reads the last fortune. */
  lemma ArtLastCookieAccepted(m: FortuneManager)
    requires m.Valid() && "art" in m.fortunes
    requires m.fortuneResources["art"].totalRecords == 465
    requires OffsetTableSound(m.fortuneResources["art"])
    ensures m.GetFortuneAt("art", 465) == Success(FortuneText(m.fortuneResources["art"], 464))
  {
    ExtractionReadsRecord(m.fortuneResources["art"], 464);
  }
}
