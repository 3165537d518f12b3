/**
 * The FortuneFileRecord of one category, as the lookup engine sees it.
 * How it decodes its index file is not part of this model: it is taken
 * as a table of byte offsets, a record count and the data file's bytes.
 */
module FortuneFileRecords {
  import opened Wrappers
  import opened JavaRuntime

  /** Every fortune in a data file is followed by the three bytes `\n%\n`. */
  const FORTUNE_PADDING: int := 3

  /**
   * `records()`: where each fortune starts in the data file;
   * `totalRecords()`: how many fortunes the category has;
   * `fileContent()`: the data file's bytes (its capacity is their number).
   */
  datatype FortuneFileRecord = FortuneFileRecord(
    records: JavaSeq<Int32>,
    totalRecords: Int32,
    content: JavaSeq<byte>)

  /**
   * `getFileContent(start, length)`: the `length` bytes from `start` on,
   * and nothing when they do not all lie in the buffer.
   */
  function GetFileContent(sf: FortuneFileRecord, start: int, length: int): (r: Option<seq<byte>>)
    ensures r.Some? <==> 0 <= start && 0 <= length && start + length <= |sf.content|
    ensures r.Some? ==> |r.value| == length
    ensures r.Some? ==> forall k :: 0 <= k < length ==> r.value[k] == sf.content[start + k]
  {
    if 0 <= start && 0 <= length && start + length <= |sf.content| then
      Some(sf.content[start..start + length])
    else
      None
  }

  /**
   * The offset table of a data file in the fortune format: it holds one
   * offset per fortune and then a sentinel (so `totalRecords()` is less
   * than `records().size()`), it starts inside the buffer, each fortune is
   * at least as long as its padding, and the sentinel does not pass the
   * end of the buffer.
   */
  predicate OffsetTableSound(sf: FortuneFileRecord)
  {
    && 0 <= sf.totalRecords < |sf.records|
    && 0 <= sf.records[0]
    && (forall i :: 0 <= i < sf.totalRecords ==> sf.records[i] + FORTUNE_PADDING <= sf.records[i + 1])
    && sf.records[sf.totalRecords] <= |sf.content|
  }

  lemma {:induction false} OffsetsAboveFirst(sf: FortuneFileRecord, i: int)
    requires OffsetTableSound(sf) && 0 <= i <= sf.totalRecords
    ensures sf.records[0] <= sf.records[i]
    decreases i
  {
    if i > 0 {
      OffsetsAboveFirst(sf, i - 1);
    }
  }

  lemma {:induction false} OffsetsBelowSentinel(sf: FortuneFileRecord, i: int)
    requires OffsetTableSound(sf) && 0 <= i <= sf.totalRecords
    ensures sf.records[i] <= sf.records[sf.totalRecords]
    decreases sf.totalRecords - i
  {
    if i < sf.totalRecords {
      OffsetsBelowSentinel(sf, i + 1);
    }
  }

  /**
   * In a sound table every fortune lies inside the buffer with room for
   * its padding: `records[i] + 3 <= records[i + 1]`, both within
   * `[0, |content|]`.
   */
  lemma RecordFits(sf: FortuneFileRecord, i: int)
    requires OffsetTableSound(sf) && 0 <= i < sf.totalRecords
    ensures 0 <= sf.records[i]
    ensures sf.records[i] + FORTUNE_PADDING <= sf.records[i + 1] <= |sf.content|
  {
    OffsetsAboveFirst(sf, i);
    OffsetsBelowSentinel(sf, i + 1);
  }
}
