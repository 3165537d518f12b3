# Fortune lookup engine

A Dafny model of `FortuneManager`, the lookup engine of a service that
hands out "fortune cookies" stored in the classic Unix fortune format. Each
category has an index file `C.dat` and a data file `C`; a
`FortuneFileRecord` holds the category's table of byte offsets, its
record count and the data bytes. The manager keeps two collections, the
list `fortunes` of category names and the map `fortuneResources` from
name to record, and offers:

- `init`: read a directory listing and, for every `.dat` entry whose
  two files are both there, put the record in the map and append the name
  to the list;
- `getFortune(category, cookie)`: the fortune with 1-based number
  `cookie`, after checking the category, that the number is positive and
  that it is at most the record count, in that order and with the source's
  messages;
- `getFortune(category)` and `getRandomFortune()`: a random fortune of
  one category, or of a random category;
- `getCookieNumberFromRecord`: the bytes `[records[i], records[i+1] - 3)`
  of the data file (every fortune is followed by `\n%\n`), decoded and
  split on line feeds with Java's `String.split` rules.

Files and modules:

- `wrappers.dfy` (`Wrappers`): `Option` and `Result`.
- `java_runtime.dfy` (`JavaRuntime`): Java `int` and its wrap-around,
  sizes bounded by `Integer.MAX_VALUE`, `SecureRandom.nextInt` with an
  injected draw.
- `java_strings.dfy` (`JavaStrings`): `endsWith`, `replace(target, "")`,
  `split("\\n")` (trailing empty strings dropped, a string without a
  line feed returned whole), the decoding of bytes, `%d` formatting.
- `fortune_file_record.dfy` (`FortuneFileRecords`): the record as the
  engine sees it, `getFileContent`, and when an offset table is sound.
- `fortune_manager.dfy` (`Fortune`): the error messages, the extraction
  of one fortune, the specification of `init` as a scan over the listing,
  and the class `FortuneManager` with `Init` (a loop proved against the
  scan) and the lookups as functions of its state.
- `fortune_lookup.dfy` (`FortuneLookup`): the lookups' properties.
- `findings.dfy` (`Findings`): the two departures listed under Findings.

The random source is a parameter: each random lookup takes a natural
number `draw`, and `nextInt(bound)` is `draw % bound`, failing when the
bound is not positive, as Java's does. All lookups are functions of the
manager's state and their arguments, so the same category and number
always give the same lines.

Some behaviour of the code is easy to misread, and the model keeps it:
`FortuneManager` itself never checks an offset table (what
`FortuneFileRecord.build` checks is not part of this model); a category whose file reads
as null is skipped silently; the end of fortune `i` is always
`records[i + 1]`, because the guard on line 121 holds whenever the read on
line 118 has succeeded, so the fall-back to the buffer's length on line 120
never applies and the table must carry a trailing sentinel
(`OffsetTableSound`: `totalRecords < records.size()`). Without one the
last slot of the table fails with an index error (`Fortune.ByteOffsetEnd`).

Two places in the code depart from what they evidently mean (see
Findings). The model keeps both readings and says which one each member
uses:

- the category derived from an index file's name is a parameter,
  `Fortune.Naming`, of `ScanLine`, `Scan` and `FortuneManager.Init`:
  `ReplaceAll` is line 60 as written (`replace(".dat", "")`), and
  `StripSuffix` is the corrected derivation. The loop invariant, the
  list and map staying in step, which names get listed, and which
  record a name keeps hold for both. That each category is listed only
  once holds for `StripSuffix` alone;
- `FortuneManager.GetFortuneAt` and the lemmas about it use the
  corrected positive check (`cookie < 1`), while
  `FortuneManager.GetFortuneAtAsWritten` uses the check of line 91 as
  written. The two agree on every number except `Integer.MIN_VALUE`.

## Model

| member | source | states |
|---|---|---|
| `JavaRuntime.Wrap32` | src/main/java/org/netlykos/fortune/FortuneManager.java:91 | Java `int` arithmetic: the result is congruent to the exact value modulo 2^32, lies in the `int` range, and equals the exact value when that is in range |
| `JavaRuntime.NextInt` | src/main/java/org/netlykos/fortune/FortuneManager.java:111 | `nextInt(bound)` yields a value in `[0, bound)` exactly when the bound is positive, and fails otherwise |
| `JavaRuntime.NextIntReachesEvery` | src/main/java/org/netlykos/fortune/FortuneManager.java:111 | every value of `[0, bound)` is produced by some draw, so neither the first nor the last record is excluded |
| `JavaStrings.RemoveAllOnlySuffix` | src/main/java/org/netlykos/fortune/FortuneManager.java:60 | `replace(".dat", "")` on a name where `.dat` occurs only at the end removes exactly that suffix |
| `JavaStrings.RemoveAll` | src/main/java/org/netlykos/fortune/FortuneManager.java:60 | `replace(target, "")` never lengthens the string, and leaves it unchanged when `target` does not occur in it |
| `JavaStrings.StripTrailingEmpty` | src/main/java/org/netlykos/fortune/FortuneManager.java:129 | `split` drops trailing empty strings: the result is a prefix of the pieces, every piece dropped is empty, and the last kept is not |
| `JavaStrings.Split` | src/main/java/org/netlykos/fortune/FortuneManager.java:129 | `split("\\n")` returns a string without a line feed whole, and returns no string at all exactly when its input is a non-empty run of line feeds |
| `JavaStrings.SplitGivesLines` | src/main/java/org/netlykos/fortune/FortuneManager.java:129 | no element of `split("\\n")` contains a line feed |
| `JavaStrings.SplitThenJoin` | src/main/java/org/netlykos/fortune/FortuneManager.java:129 | joining the split result with line feeds gives the text back up to trailing line feeds only |
| `JavaStrings.JoinThenSplit` | src/main/java/org/netlykos/fortune/FortuneManager.java:129 | lines without line feeds, the last one non-empty, joined and split again come back unchanged |
| `JavaStrings.DecodeText` | src/main/java/org/netlykos/fortune/FortuneManager.java:129 | decoding keeps one character per byte and maps byte 10, and only it, to the line feed split on |
| `JavaStrings.FormatIntRoundTrip` | src/main/java/org/netlykos/fortune/FortuneManager.java:103 | the `%d` text of the record count reads back as that count |
| `FortuneFileRecords.GetFileContent` | src/main/java/org/netlykos/fortune/FortuneManager.java:128 | `getFileContent(start, length)` returns `length` bytes starting at `start` exactly when they lie in the buffer |
| `FortuneFileRecords.RecordFits` | src/main/java/org/netlykos/fortune/FortuneManager.java:117-128 | in a sound offset table every fortune starts at or after 0, is at least 3 bytes long, and ends within the buffer |
| `Fortune.MessageDeterminesError` | src/main/java/org/netlykos/fortune/FortuneManager.java:82-104 | the four messages ("No fortunes for category [%s] available.", "Category %s is not setup.", "Cookie number should be positive.", "Category %s only contains %d cookie(s).") tell their errors apart, down to the category and count they carry |
| `Fortune.Message` | src/main/java/org/netlykos/fortune/FortuneManager.java:84-104 | the texts of the four exceptions; each one that concerns a category carries that category's name verbatim at a fixed place |
| `Fortune.ByteOffsetEnd` | src/main/java/org/netlykos/fortune/FortuneManager.java:119-123 | once `records.get(cookie)` has succeeded the end offset is `records[cookie + 1]`, never the buffer length; the table's last slot fails |
| `Fortune.GetCookieNumberFromRecord` | src/main/java/org/netlykos/fortune/FortuneManager.java:116-118 | an index outside the offset table fails with an index error |
| `Fortune.ExtractionReadsRecord` | src/main/java/org/netlykos/fortune/FortuneManager.java:116-130 | in a sound table fortune `i` reads exactly `records[i+1] - records[i] - 3` bytes from `records[i]`, inside the buffer, with no `int` wrap-around, and returns them decoded and split on line feeds |
| `Fortune.CategoryName` | src/main/java/org/netlykos/fortune/FortuneManager.java:59-60 | the category of an index file is its name with the `.dat` suffix stripped (the corrected derivation) |
| `Fortune.CategoryNameAsWritten` | src/main/java/org/netlykos/fortune/FortuneManager.java:60 | the category as `replace(".dat", "")` derives it: never longer than the file name |
| `Fortune.CategoryNameAgrees` | src/main/java/org/netlykos/fortune/FortuneManager.java:60 | the two derivations agree whenever `.dat` occurs in the file name only as its suffix |
| `Fortune.AddCategory` | src/main/java/org/netlykos/fortune/FortuneManager.java:61-68 | a pair with a null file leaves both collections untouched; otherwise the name is appended to the list and its record put in the map, replacing an earlier one and leaving the other records alone |
| `Fortune.ScanLine` | src/main/java/org/netlykos/fortune/FortuneManager.java:58-69 | one turn of the loop: an entry that is not a `.dat` file with both files present leaves the catalog unchanged; otherwise its category is appended to the list and its record put in the map, replacing any earlier one |
| `Fortune.Scan` | src/main/java/org/netlykos/fortune/FortuneManager.java:57-70 | the loop only adds: the names listed before stay in front, at most one name is appended per line, and no record is removed |
| `Fortune.ScanKeepsInStep` | src/main/java/org/netlykos/fortune/FortuneManager.java:57-70 | the loop keeps the list and the map's key set in step, with either category derivation |
| `Fortune.ScanNames` | src/main/java/org/netlykos/fortune/FortuneManager.java:57-70 | after the loop a name is listed, and has a record, exactly when it was before or it is the category of a `.dat` entry whose two files are there, with either category derivation |
| `Fortune.ScanRecord` | src/main/java/org/netlykos/fortune/FortuneManager.java:66-67 | a category's record is built from the last admitted entry that names it, with either category derivation |
| `Fortune.ScanListsOnce` | src/main/java/org/netlykos/fortune/FortuneManager.java:57-70 | with the corrected derivation (`StripSuffix`), from an empty catalog and a listing without repeats, every category is listed once; line 60 as written does not promise this (see `Findings.AsWrittenListsNameTwice`) |
| `Fortune.CatalogSize` | src/main/java/org/netlykos/fortune/FortuneManager.java:78 | with list and map in step, the map never has more entries than the list, and has as many exactly when no name repeats |
| `Fortune.FortuneManager.constructor` | src/main/java/org/netlykos/fortune/FortuneManager.java:46-47 | a new manager has an empty list and an empty map, which are in step |
| `Fortune.FortuneManager.Init` | src/main/java/org/netlykos/fortune/FortuneManager.java:50-75 | the loop over the listing leaves exactly the catalog `Scan` specifies for the given derivation (`ReplaceAll` as written, `StripSuffix` corrected), and keeps list and map in step |
| `Fortune.FortuneManager.CheckCookie` | src/main/java/org/netlykos/fortune/FortuneManager.java:90-104 | the number passes exactly when the category is listed and `1 <= cookie <= totalRecords`, giving index `cookie - 1`; an unknown category fails first, then a number below 1 with the positive message, then one above the count with the overflow message naming the category and count |
| `Fortune.FortuneManager.CheckCookieAsWritten` | src/main/java/org/netlykos/fortune/FortuneManager.java:91-104 | the check as written agrees with `CheckCookie` on every number except `Integer.MIN_VALUE`, which it lets through as index `Integer.MAX_VALUE` |
| `Fortune.FortuneManager.GetFortuneAt` | src/main/java/org/netlykos/fortune/FortuneManager.java:90-106 | with the corrected positive check: an unknown category fails with "Category %s is not setup." whatever the number; a number of 0 or less fails with "Cookie number should be positive." |
| `Fortune.FortuneManager.GetFortuneAtAsWritten` | src/main/java/org/netlykos/fortune/FortuneManager.java:90-106 | the lookup with the check of line 91 as written agrees with `GetFortuneAt` on every number but `Integer.MIN_VALUE`, which fails in `records.get(Integer.MAX_VALUE)` |
| `Fortune.FortuneManager.GetRandomCookieFromCategory` | src/main/java/org/netlykos/fortune/FortuneManager.java:108-114 | a category without records fails as `nextInt` does |
| `Fortune.FortuneManager.GetFortune` | src/main/java/org/netlykos/fortune/FortuneManager.java:82-88 | an unlisted category fails with "No fortunes for category [%s] available." |
| `Fortune.FortuneManager.GetRandomFortune` | src/main/java/org/netlykos/fortune/FortuneManager.java:77-80 | with no category the draw fails as `nextInt(0)` does |
| `FortuneLookup.LookupByNumber` | src/main/java/org/netlykos/fortune/FortuneManager.java:90-106 | with the corrected positive check, for a listed category with a sound table the lookup succeeds exactly for numbers 1 to `totalRecords`, returns the text of fortune `cookie - 1`, and fails above the count with the overflow message; as written this also holds for every number but `Integer.MIN_VALUE` |
| `FortuneLookup.RandomCookieIsNumberedCookie` | src/main/java/org/netlykos/fortune/FortuneManager.java:108-114 | a random fortune of a category equals the numbered lookup of some number in `[1, totalRecords]` |
| `FortuneLookup.EveryCookieReachable` | src/main/java/org/netlykos/fortune/FortuneManager.java:108-114 | every number from 1 to `totalRecords` is the random pick for some draw |
| `FortuneLookup.GetFortuneByCategory` | src/main/java/org/netlykos/fortune/FortuneManager.java:82-88 | `getFortune(category)` on a listed category is the numbered lookup of a number in range, or fails when the category has no records |
| `FortuneLookup.RandomFortunePicksListedCategory` | src/main/java/org/netlykos/fortune/FortuneManager.java:77-80 | the category index lies in the list and depends on the draw and the number of categories only, not on their record counts |
| `FortuneLookup.RandomFortuneReachesEveryCategory` | src/main/java/org/netlykos/fortune/FortuneManager.java:77-80 | when no name repeats, every listed category is picked by some draw |
| `FortuneLookup.RepeatedCategoryHidesLast` | src/main/java/org/netlykos/fortune/FortuneManager.java:77-80 | when a name is listed twice the map has fewer entries than the list, and `getRandomFortune` never draws the list's last index |
| `FortuneLookup.InitCatalog` | src/main/java/org/netlykos/fortune/FortuneManager.java:50-75 | `init` from a fresh manager leaves list and map in step, with as many records as names exactly when no name repeats, for either derivation; with the corrected derivation and a listing without repeats, each category is listed once |
| `FortuneLookup.SingleFortuneRoundTrip` | src/main/java/org/netlykos/fortune/FortuneManager.java:116-130 | a data file of one fortune plus `\n%\n`, indexed `[0, end]`, gives back exactly that fortune's lines |
| `FortuneLookup.UnknownCategoryNotSetup` | src/test/java/org/netlykos/fortune/FortuneManagerTest.java:50-58 | a category that is not listed is refused with `CategoryNotSetup`, whose message is "Category %s is not setup." |
| `FortuneLookup.ArtNegativeCookieRefused` | src/test/java/org/netlykos/fortune/FortuneManagerTest.java:60-69 | with 465 fortunes in `art`, the number -1 is refused as not positive |
| `FortuneLookup.ArtOverflowCookieRefused` | src/test/java/org/netlykos/fortune/FortuneManagerTest.java:71-80 | with 465 fortunes in `art`, the number 466 is refused with the overflow error naming `art` and 465 |
| `FortuneLookup.ArtOverflowMessage` | src/test/java/org/netlykos/fortune/FortuneManagerTest.java:71-80 | that overflow error's message is exactly "Category art only contains 465 cookie(s)." |
| `FortuneLookup.ArtLastCookieAccepted` | src/test/java/org/netlykos/fortune/FortuneManagerTest.java:82-97 | with 465 fortunes in `art` and a sound table, number 465 is accepted and reads the last fortune |
| `Findings.MinValuePassesPositiveCheck` | src/main/java/org/netlykos/fortune/FortuneManager.java:91-101 | `Integer.MIN_VALUE` passes the check as written, and the lookup as written then fails in `records.get`; the corrected lookup refuses it as not positive |
| `Findings.ReplaceMergesNames` | src/main/java/org/netlykos/fortune/FortuneManager.java:60 | `replace` maps both `a.dat` and `a.dat.dat` to `a`; stripping the suffix keeps them apart |
| `Findings.AsWrittenListsNameTwice` | src/main/java/org/netlykos/fortune/FortuneManager.java:57-68 | the loop as written (`Scan` with `ReplaceAll`) over the listing `a.dat`, `a.dat.dat`, `b.dat`, in that order, lists `a` twice with only two records |
| `Findings.StrippedListsNamesOnce` | src/main/java/org/netlykos/fortune/FortuneManager.java:57-68 | with the suffix stripped, the same listing lists three distinct categories |
| `Findings.RandomFortuneMissesLastCategory` | src/main/java/org/netlykos/fortune/FortuneManager.java:77-80 | with the list `[a, a, b]` that listing gives and two records, `getRandomFortune` always picks `a` and never `b` |

## Left out

- Reading files (`getResourceContent`, both forms, lines 132-157): the directory listing is a sequence of names and the files are a map from name to bytes; a name absent from the map stands for content read as null, which `init` skips. The reads as written would throw rather than return null for a missing file; the model follows the null check.
- The path composition with `File.separator` and the `IOException` turned into `IllegalStateException` (lines 61-62, 72-74): I/O.
- `SecureRandom` and `getSecureRandomInstance` (lines 35, 159-165): replaced by an injected draw.
- RandomFortunePicksListedCategory: states which category a draw picks and that it ignores record counts; that draws are uniform is a property of `SecureRandom`, not modelled.
- UTF-8 decoding: each byte is read as the character with that code, which agrees with UTF-8 on ASCII data only.
- How `FortuneFileRecord` decodes its index file, and `getFileContent`, are not part of this model: the record is its offset table, count and bytes, and `getFileContent` is taken to return the requested slice and fail outside the buffer.
- A `null` element of `records()` or a `null` `totalRecords()`: not modelled.
- Logging, the Spring annotations, `FortuneController` (which joins the lines with the host's line separator) and `MAX_BUFFER_SIZE`: outside the engine.
- GetFortuneAt, LookupByNumber, RandomCookieIsNumberedCookie, EveryCookieReachable, GetFortuneByCategory and the `art` lemmas use the corrected positive check (`cookie < 1`), not line 91's `cookie - 1 < 0`. They hold of the code as written for every number except `Integer.MIN_VALUE`; `GetFortuneAtAsWritten` states that exception.
- ScanListsOnce and the second postcondition of InitCatalog are stated for the corrected category derivation (`StripSuffix`) only: with line 60 as written (`ReplaceAll`) a category can be listed twice (`AsWrittenListsNameTwice`, `RepeatedCategoryHidesLast`).
- The concrete fortunes the tests expect of the `art` data file (test lines 39-48 and 82-97): that file is not part of this model; only the outcomes fixed by its count of 465 are stated.

## Findings

| source | as written | input that shows it | evidently intended | confidence | as-written member | corrected member |
|---|---|---|---|---|---|---|
| src/main/java/org/netlykos/fortune/FortuneManager.java:91-101 | the positive check tests `cookie - 1 < 0` in `int` arithmetic | `getFortune(c, Integer.MIN_VALUE)` on a listed `c`: `cookie - 1` wraps to `Integer.MAX_VALUE`, both checks pass, and `records.get(2147483647)` throws an index error | every number of 0 or less fails with "Cookie number should be positive." | high; not executed | `Fortune.FortuneManager.CheckCookieAsWritten` | `Fortune.FortuneManager.CheckCookie` |
| src/main/java/org/netlykos/fortune/FortuneManager.java:60 | the category is `line.replace(".dat", "")`, which removes every occurrence of `.dat` | a directory with `a`, `a.dat`, `a.dat.dat`, `b`, `b.dat` whose listing gives `a.dat`, `a.dat.dat`, `b.dat` in that order: `fortunes` becomes `[a, a, b]` with two records, so `getRandomFortune` draws from `[0, 2)` and never picks `b`. The listing's order is not fixed, but whenever a name repeats, the entry listed last is never drawn | the category is the name with its `.dat` suffix stripped | medium; not executed | `Fortune.CategoryNameAsWritten` | `Fortune.CategoryName` |
