/**
 * The `java.lang.String` operations the lookup engine uses: `endsWith`,
 * `replace(target, "")`, `split("\\n")` and the `%d` conversion of
 * `String.format`. Strings are sequences of characters.
 */
module JavaStrings {
  import opened JavaRuntime

  /** The regular expression `\n` that records are split on matches exactly this character. */
  const LINE_FEED: char := '\n'

  /** `s.endsWith(suffix)`. */
  predicate EndsWith(s: string, suffix: string)
  {
    |suffix| <= |s| && s[|s| - |suffix|..] == suffix
  }

  /** `target` occurs in `s` starting at index `i`. */
  predicate OccursAt(s: string, i: int, target: string)
  {
    0 <= i && i + |target| <= |s| && s[i..i + |target|] == target
  }

  /**
   * `s.replace(target, "")`: every occurrence of `target`, found from left
   * to right without overlapping, is deleted.
   */
  function RemoveAll(s: string, target: string): (r: string)
    requires target != []
    ensures |r| <= |s|
    ensures (forall i :: !OccursAt(s, i, target)) ==> r == s
    decreases |s|
  {
    if |s| < |target| then s
    else if s[..|target|] == target then
      assert OccursAt(s, 0, target);
      RemoveAll(s[|target|..], target)
    else
      assert forall i :: OccursAt(s[1..], i, target) ==> s[1..][i..i + |target|] == s[i + 1..i + 1 + |target|] && OccursAt(s, i + 1, target);
      [s[0]] + RemoveAll(s[1..], target)
  }

  /** When `target` occurs in `s` only as its suffix, deleting every occurrence strips that suffix. */
  lemma {:induction false} RemoveAllOnlySuffix(s: string, target: string)
    requires target != [] && EndsWith(s, target)
    requires forall i :: 0 <= i < |s| - |target| ==> !OccursAt(s, i, target)
    ensures RemoveAll(s, target) == s[..|s| - |target|]
    decreases |s|
  {
    if |s| == |target| {
      assert s[..|target|] == s[|s| - |target|..] == target;
      assert RemoveAll(s, target) == RemoveAll([], target);
    } else {
      assert !OccursAt(s, 0, target);
      assert s[..|target|] != target;
      var t := s[1..];
      assert t[|t| - |target|..] == s[|s| - |target|..];
      forall i | 0 <= i < |t| - |target|
        ensures !OccursAt(t, i, target)
      {
        assert !OccursAt(s, i + 1, target);
        assert t[i..i + |target|] == s[i + 1..i + 1 + |target|];
      }
      RemoveAllOnlySuffix(t, target);
      assert [s[0]] + t[..|t| - |target|] == s[..|s| - |target|];
    }
  }

  // ----- split("\\n") -----

  /** No line feed in `s`. */
  predicate IsLine(s: string)
  {
    LINE_FEED !in s
  }

  predicate AllLines(lines: seq<string>)
  {
    forall i :: 0 <= i < |lines| ==> IsLine(lines[i])
  }

  /**
   * The pieces of `s` between line feeds, empty pieces included: one more
   * piece than `s` has line feeds.
   */
  function Pieces(s: string): (r: seq<string>)
    ensures |r| >= 1
    decreases |s|
  {
    if s == [] then [[]]
    else
      var rest := Pieces(s[1..]);
      if s[0] == LINE_FEED then [[]] + rest else [[s[0]] + rest[0]] + rest[1..]
  }

  /** The lines joined with a line feed between consecutive ones. */
  function Join(lines: seq<string>): string
    decreases |lines|
  {
    if lines == [] then []
    else if |lines| == 1 then lines[0]
    else lines[0] + [LINE_FEED] + Join(lines[1..])
  }

  /**
   * Java drops the trailing empty strings of a split: the result is a
   * prefix of `lines`, everything dropped is empty, and what is kept does
   * not end with an empty string.
   */
  function StripTrailingEmpty(lines: seq<string>): (r: seq<string>)
    ensures |r| <= |lines| && r == lines[..|r|]
    ensures forall i :: |r| <= i < |lines| ==> lines[i] == []
    ensures r == [] || r[|r| - 1] != []
    decreases |lines|
  {
    if lines != [] && lines[|lines| - 1] == [] then StripTrailingEmpty(lines[..|lines| - 1])
    else lines
  }

  /**
   * `s.split("\\n")`: a string without a line feed is returned whole (so
   * the empty string gives one empty line); otherwise the pieces between
   * line feeds, without the trailing empty ones.
   */
  function Split(s: string): (r: seq<string>)
    ensures LINE_FEED !in s ==> r == [s]
    ensures r == [] <==> s != [] && forall i :: 0 <= i < |s| ==> s[i] == LINE_FEED
  {
    StrippedPiecesEmpty(s);
    if LINE_FEED !in s then
      assert s == [] || s[0] != LINE_FEED;
      [s]
    else StripTrailingEmpty(Pieces(s))
  }

  /** Dropping the trailing empty pieces leaves nothing exactly when the string is all line feeds. */
  lemma StrippedPiecesEmpty(s: string)
    ensures StripTrailingEmpty(Pieces(s)) == [] <==> forall i :: 0 <= i < |s| ==> s[i] == LINE_FEED
  {
    PiecesAllEmpty(s);
    var p := Pieces(s);
    var r := StripTrailingEmpty(p);
    if r != [] {
      assert r[|r| - 1] == p[|r| - 1] != [];
    }
  }

  /** Every piece is empty exactly when every character is a line feed. */
  lemma {:induction false} PiecesAllEmpty(s: string)
    ensures (forall i :: 0 <= i < |Pieces(s)| ==> Pieces(s)[i] == [])
        <==> (forall i :: 0 <= i < |s| ==> s[i] == LINE_FEED)
    decreases |s|
  {
    if s != [] {
      PiecesAllEmpty(s[1..]);
      var rest := Pieces(s[1..]);
      if s[0] == LINE_FEED {
        var p := Pieces(s);
        assert p == [[]] + rest;
        assert (forall i :: 0 <= i < |p| ==> p[i] == []) <==> (forall i :: 0 <= i < |rest| ==> rest[i] == []) by {
          assert forall i :: 0 <= i < |rest| ==> p[i + 1] == rest[i];
        }
        assert (forall i :: 0 <= i < |s| ==> s[i] == LINE_FEED) <==> (forall i :: 0 <= i < |s[1..]| ==> s[1..][i] == LINE_FEED) by {
          assert forall i :: 0 <= i < |s[1..]| ==> s[i + 1] == s[1..][i];
        }
      } else {
        assert Pieces(s)[0] != [];
      }
    }
  }

  lemma {:induction false} PiecesAreLines(s: string)
    ensures AllLines(Pieces(s))
    decreases |s|
  {
    if s != [] {
      PiecesAreLines(s[1..]);
    }
  }

  /** Joining the pieces gives back the string. */
  lemma {:induction false} JoinPieces(s: string)
    ensures Join(Pieces(s)) == s
    decreases |s|
  {
    if s != [] {
      var rest := Pieces(s[1..]);
      JoinPieces(s[1..]);
      if s[0] == LINE_FEED {
        assert ([[]] + rest)[1..] == rest;
      } else {
        var p := [[s[0]] + rest[0]] + rest[1..];
        if |rest| > 1 {
          assert p[1..] == rest[1..];
          assert Join(rest) == rest[0] + [LINE_FEED] + Join(rest[1..]);
        }
      }
    }
  }

  lemma {:induction false} PiecesOfLine(s: string)
    requires IsLine(s)
    ensures Pieces(s) == [s]
    decreases |s|
  {
    if s != [] {
      assert IsLine(s[1..]) by { assert forall i :: 0 <= i < |s| - 1 ==> s[1..][i] == s[i + 1]; }
      PiecesOfLine(s[1..]);
      assert [s[0]] + s[1..] == s;
    }
  }

  lemma {:induction false} PiecesAfterLine(x: string, y: string)
    requires IsLine(x)
    ensures Pieces(x + [LINE_FEED] + y) == [x] + Pieces(y)
    decreases |x|
  {
    var s := x + [LINE_FEED] + y;
    if x == [] {
      assert s[1..] == y;
    } else {
      assert IsLine(x[1..]) by { assert forall i :: 0 <= i < |x| - 1 ==> x[1..][i] == x[i + 1]; }
      assert s[1..] == x[1..] + [LINE_FEED] + y;
      PiecesAfterLine(x[1..], y);
      assert [x[0]] + x[1..] == x;
    }
  }

  /** Splitting joined lines into pieces gives back the lines. */
  lemma {:induction false} PiecesOfJoin(lines: seq<string>)
    requires |lines| >= 1 && AllLines(lines)
    ensures Pieces(Join(lines)) == lines
    decreases |lines|
  {
    if |lines| == 1 {
      PiecesOfLine(lines[0]);
    } else {
      PiecesOfJoin(lines[1..]);
      PiecesAfterLine(lines[0], Join(lines[1..]));
      assert [lines[0]] + lines[1..] == lines;
    }
  }

  lemma {:induction false} JoinSnoc(a: seq<string>, x: string)
    requires a != []
    ensures Join(a + [x]) == Join(a) + [LINE_FEED] + x
    decreases |a|
  {
    if |a| > 1 {
      assert (a + [x])[1..] == a[1..] + [x];
      JoinSnoc(a[1..], x);
    }
  }

  /** Dropping trailing empty strings shortens the joined text only by line feeds at its end. */
  lemma {:induction false} JoinStripTrailingEmpty(lines: seq<string>)
    ensures var j, k := Join(StripTrailingEmpty(lines)), Join(lines);
      |j| <= |k| && k[..|j|] == j && forall i :: |j| <= i < |k| ==> k[i] == LINE_FEED
    decreases |lines|
  {
    if lines != [] && lines[|lines| - 1] == [] {
      var init := lines[..|lines| - 1];
      JoinStripTrailingEmpty(init);
      assert init + [[]] == lines;
      if init != [] {
        JoinSnoc(init, []);
      }
    }
  }

  /** Every element of a split is a line. */
  lemma SplitGivesLines(s: string)
    ensures AllLines(Split(s))
  {
    if LINE_FEED in s {
      PiecesAreLines(s);
    }
  }

  /**
   * A split loses nothing but trailing line feeds: joining its result
   * gives a prefix of `s` after which only line feeds follow.
   */
  lemma SplitThenJoin(s: string)
    ensures var j := Join(Split(s));
      |j| <= |s| && s[..|j|] == j && forall i :: |j| <= i < |s| ==> s[i] == LINE_FEED
  {
    if LINE_FEED in s {
      JoinPieces(s);
      JoinStripTrailingEmpty(Pieces(s));
    }
  }

  /**
   * Lines joined and split again come back unchanged, as long as there is
   * at least one and the last is not empty (or is the only one).
   */
  lemma JoinThenSplit(lines: seq<string>)
    requires |lines| >= 1 && AllLines(lines)
    requires |lines| == 1 || lines[|lines| - 1] != []
    ensures Split(Join(lines)) == lines
  {
    if |lines| > 1 {
      var j := Join(lines);
      assert j[|lines[0]|] == LINE_FEED;
      PiecesOfJoin(lines);
    }
  }

  // ----- new String(bytes, UTF_8) -----

  /**
   * `new String(bytes, UTF_8)`, with each byte read as the character of
   * that code: the same text as UTF-8 for ASCII data, and byte 10 is the
   * line feed in both.
   */
  function DecodeText(bytes: seq<byte>): (r: string)
    ensures |r| == |bytes|
    ensures forall k :: 0 <= k < |bytes| ==> (r[k] == LINE_FEED <==> bytes[k] == 10)
  {
    seq(|bytes|, k requires 0 <= k < |bytes| => bytes[k] as char)
  }

  // ----- String.format("%d", n) -----

  function DigitChar(d: int): (c: char)
    requires 0 <= d < 10
    ensures '0' <= c <= '9' && c as int - '0' as int == d
  {
    ('0' as int + d) as char
  }

  /** The decimal digits of `n`, most significant first, without leading zeros. */
  function NatToDecimal(n: nat): (r: string)
    ensures r != [] && forall i :: 0 <= i < |r| ==> '0' <= r[i] <= '9'
    ensures r[0] == '0' ==> n == 0
    decreases n
  {
    if n < 10 then [DigitChar(n)] else NatToDecimal(n / 10) + [DigitChar(n % 10)]
  }

  /** The value of a string of decimal digits. */
  function DecimalValue(s: string): nat
    requires forall i :: 0 <= i < |s| ==> '0' <= s[i] <= '9'
    decreases |s|
  {
    if s == [] then 0 else DecimalValue(s[..|s| - 1]) * 10 + (s[|s| - 1] as int - '0' as int)
  }

  lemma {:induction false} DecimalRoundTrip(n: nat)
    ensures DecimalValue(NatToDecimal(n)) == n
    decreases n
  {
    if n >= 10 {
      DecimalRoundTrip(n / 10);
      var r := NatToDecimal(n);
      assert r[..|r| - 1] == NatToDecimal(n / 10);
    }
  }

  /** `String.format("%d", n)`: an optional minus sign, then the decimal digits of the magnitude. */
  function FormatInt(n: int): string
  {
    if n < 0 then "-" + NatToDecimal(-n) else NatToDecimal(n)
  }

  /** Reads back what `FormatInt` writes. */
  function ParseInt(s: string): int
    requires forall i :: (if s != [] && s[0] == '-' then 1 else 0) <= i < |s| ==> '0' <= s[i] <= '9'
  {
    if s != [] && s[0] == '-' then 0 - DecimalValue(s[1..]) else DecimalValue(s)
  }

  /** The decimal text of a number determines the number. */
  lemma FormatIntRoundTrip(n: int)
    ensures ParseInt(FormatInt(n)) == n
  {
    if n < 0 {
      DecimalRoundTrip(-n);
      assert FormatInt(n)[1..] == NatToDecimal(-n);
    } else {
      DecimalRoundTrip(n);
    }
  }
}
