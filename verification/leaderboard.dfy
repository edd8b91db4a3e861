/** `formatLeaderboard`: the top rows by total, rendered as a fixed-width table (rank,
    author, additions and optionally deletions and total), optionally titled and fenced
    as a code block, and cut to a character budget. Lengths are counted in characters. */
module Leaderboard {
  import opened Util
  import opened Aggregation

  datatype Style = Text | Code

  /** The caller's options; None is an option left out, which takes its default. */
  datatype LeaderboardOptions = LeaderboardOptions(
    title: Option<string>, top: Option<int>, includeDeletions: Option<bool>, includeTotal: Option<bool>,
    style: Option<Style>, padAuthor: Option<int>, padNum: Option<int>, safeBudget: Option<int>)

  /** `{ ...DEFAULTS, ...opts }` without the title. */
  datatype Settings = Settings(top: int, includeDeletions: bool, includeTotal: bool, style: Style,
                               padAuthor: int, padNum: int, safeBudget: int)

  function Or<T>(o: Option<T>, default: T): T
  {
    match o
    case Some(v) => v
    case None => default
  }

  /** Every option falls back to its default: top 10, no deletions, no total, code style,
      author column 18, number columns 8, budget 1900. */
  function Resolve(opts: LeaderboardOptions): (t: Settings)
    ensures opts.top.None? ==> t.top == 10
    ensures opts.includeDeletions.None? ==> !t.includeDeletions
    ensures opts.includeTotal.None? ==> !t.includeTotal
    ensures opts.style.None? ==> t.style == Code
    ensures opts.padAuthor.None? ==> t.padAuthor == 18
    ensures opts.padNum.None? ==> t.padNum == 8
    ensures opts.safeBudget.None? ==> t.safeBudget == 1900
    ensures opts.top.Some? ==> t.top == opts.top.value
    ensures opts.includeDeletions.Some? ==> t.includeDeletions == opts.includeDeletions.value
    ensures opts.includeTotal.Some? ==> t.includeTotal == opts.includeTotal.value
    ensures opts.style.Some? ==> t.style == opts.style.value
    ensures opts.padAuthor.Some? ==> t.padAuthor == opts.padAuthor.value
    ensures opts.padNum.Some? ==> t.padNum == opts.padNum.value
    ensures opts.safeBudget.Some? ==> t.safeBudget == opts.safeBudget.value
  {
    Settings(Or(opts.top, 10), Or(opts.includeDeletions, false), Or(opts.includeTotal, false),
             Or(opts.style, Code), Or(opts.padAuthor, 18), Or(opts.padNum, 8), Or(opts.safeBudget, 1900))
  }

  /** `opts.title?.trim()`; an absent or blank title is the empty string. */
  function TitleOf(opts: LeaderboardOptions): string
  {
    match opts.title
    case Some(t) => Trim(t)
    case None => ""
  }

  const Fence: string := "```"
  const Ellipsis: string := "\n\U{2026}(truncated)"

  // ---------------------------------------------------------------------
  // Fixed-width helpers

  /** `leftPad`: cut to `width`, or padded with spaces on the right. */
  function LeftPad(s: string, width: int): (r: string)
    ensures width >= 0 ==> |r| == width
    ensures |s| < width ==> r == s + Repeat(' ', width - |s|)
    ensures 0 <= width <= |s| ==> r == s[..width]
  {
    if |s| >= width then SliceTo(s, width) else s + Repeat(' ', width - |s|)
  }

  /** `rightPad`: cut to `width`, or padded with spaces on the left. */
  function RightPad(s: string, width: int): (r: string)
    ensures width >= 0 ==> |r| == width
    ensures |s| < width ==> r == Repeat(' ', width - |s|) + s
    ensures 0 <= width <= |s| ==> r == s[..width]
  {
    if |s| >= width then SliceTo(s, width) else Repeat(' ', width - |s|) + s
  }

  /** `String(n)` for an integer. */
  function NumText(n: int): string
  {
    if n < 0 then "-" + NatToString(-n) else NatToString(n)
  }

  /** `numPad`: the decimal text of `n`, right-aligned in `width`. */
  function NumPad(n: int, width: int): string
  {
    RightPad(NumText(n), width)
  }

  // ---------------------------------------------------------------------
  // Table

  function HeaderCols(t: Settings): seq<string>
  {
    [LeftPad("#", 3), LeftPad("Author", t.padAuthor), RightPad("add", t.padNum)]
    + (if t.includeDeletions then [RightPad("del", t.padNum)] else [])
    + (if t.includeTotal then [RightPad("total", t.padNum)] else [])
  }

  /** The author column's text: an empty key shows as "unknown". */
  function AuthorText(r: AuthorAggregate): string
  {
    if r.authorKey == "" then "unknown" else r.authorKey
  }

  function RowCols(t: Settings, rank: nat, r: AuthorAggregate): seq<string>
  {
    [LeftPad(NatToString(rank), 3), LeftPad(AuthorText(r), t.padAuthor), NumPad(r.additions, t.padNum)]
    + (if t.includeDeletions then [NumPad(r.deletions, t.padNum)] else [])
    + (if t.includeTotal then [NumPad(r.total, t.padNum)] else [])
  }

  function Header(t: Settings): string
  {
    Join(HeaderCols(t), "  ")
  }

  function RowLine(t: Settings, rank: nat, r: AuthorAggregate): string
  {
    Join(RowCols(t, rank, r), "  ")
  }

  /** How many rows are shown: `Math.max(1, top)`. */
  function Take(t: Settings): int
  {
    if t.top < 1 then 1 else t.top
  }

  /** The rows shown: sorted by total, largest first, then the first `Take` of them. */
  function Data(rows: seq<AuthorAggregate>, t: Settings): seq<AuthorAggregate>
  {
    var sorted := SortDesc(rows, ByTotal);
    if Take(t) < |sorted| then sorted[..Take(t)] else sorted
  }

  /** The lines before the data: title, opening fence, header and separator. */
  function Prefix(t: Settings, title: string): seq<string>
  {
    (if title != "" then [title] else []) + (if t.style == Code then [Fence] else [])
    + [Header(t), Repeat('-', |Header(t)|)]
  }

  /** One line per shown row, ranked from 1. */
  function RowLines(t: Settings, data: seq<AuthorAggregate>): seq<string>
  {
    seq(|data|, i requires 0 <= i < |data| => RowLine(t, i + 1, data[i]))
  }

  function Lines(rows: seq<AuthorAggregate>, opts: LeaderboardOptions): seq<string>
  {
    var t := Resolve(opts);
    Prefix(t, TitleOf(opts)) + RowLines(t, Data(rows, t)) + (if t.style == Code then [Fence] else [])
  }

  /** Text over the budget keeps its first `budget - 13` characters and ends in the
      ellipsis line. */
  function Truncate(out: string, budget: int): string
  {
    if |out| > budget then SliceTo(out, budget - |Ellipsis|) + Ellipsis else out
  }

  /** The lines joined by line breaks, cut to the budget; text within the budget is
      left as it is. */
  function LeaderboardText(rows: seq<AuthorAggregate>, opts: LeaderboardOptions): (r: string)
    ensures |Join(Lines(rows, opts), "\n")| <= Resolve(opts).safeBudget ==> r == Join(Lines(rows, opts), "\n")
  {
    Truncate(Join(Lines(rows, opts), "\n"), Resolve(opts).safeBudget)
  }

  method FormatLeaderboard(rows: seq<AuthorAggregate>, opts: LeaderboardOptions) returns (out: string)
    ensures out == LeaderboardText(rows, opts)
  {
    var t := Resolve(opts);
    var title := TitleOf(opts);
    var take := if t.top < 1 then 1 else t.top;
    var sorted := SortDesc(rows, ByTotal);
    var data := if take < |sorted| then sorted[..take] else sorted;
    var lines := TableLines(t, title, data);
    out := Join(lines, "\n");
    if |out| > t.safeBudget {
      out := SliceTo(out, t.safeBudget - |Ellipsis|) + Ellipsis;
    }
  }

  /** The lines of the table, the rank counted up row by row. */
  method TableLines(t: Settings, title: string, data: seq<AuthorAggregate>) returns (lines: seq<string>)
    ensures lines == Prefix(t, title) + RowLines(t, data) + (if t.style == Code then [Fence] else [])
  {
    lines := PrefixLines(t, title);
    assert RowLines(t, data[..0]) == [];

    var rank := 1;
    for i := 0 to |data|
      invariant rank == i + 1
      invariant lines == Prefix(t, title) + RowLines(t, data[..i])
    {
      RowLinesSnoc(t, data, i);
      lines := lines + [RowLine(t, rank, data[i])];
      assert lines == Prefix(t, title) + (RowLines(t, data[..i]) + [RowLine(t, i + 1, data[i])]);
      rank := rank + 1;
    }
    assert data[..|data|] == data;
    if t.style == Code {
      lines := lines + [Fence];
    }
  }

  /** Title, opening fence, header and the dashed line under it. */
  method PrefixLines(t: Settings, title: string) returns (lines: seq<string>)
    ensures lines == Prefix(t, title)
  {
    var header := Header(t);
    lines := [];
    if title != "" {
      lines := lines + [title];
    }
    if t.style == Code {
      lines := lines + [Fence];
    }
    lines := lines + [header, Repeat('-', |header|)];
  }

  lemma RowLinesSnoc(t: Settings, data: seq<AuthorAggregate>, i: int)
    requires 0 <= i < |data|
    ensures RowLines(t, data[..i + 1]) == RowLines(t, data[..i]) + [RowLine(t, i + 1, data[i])]
  {
    assert data[..i + 1][..i] == data[..i];
  }

  // ---------------------------------------------------------------------
  // Properties

  /** The column widths: rank 3, author `padAuthor`, each number `padNum`. */
  function Widths(t: Settings): seq<int>
  {
    [3, t.padAuthor, t.padNum] + (if t.includeDeletions then [t.padNum] else [])
    + (if t.includeTotal then [t.padNum] else [])
  }

  lemma HeaderColsWidths(t: Settings)
    requires t.padAuthor >= 0 && t.padNum >= 0
    ensures |HeaderCols(t)| == |Widths(t)|
    ensures forall i :: 0 <= i < |Widths(t)| ==> |HeaderCols(t)[i]| == Widths(t)[i]
  {
  }

  lemma RowColsWidths(t: Settings, rank: nat, r: AuthorAggregate)
    requires t.padAuthor >= 0 && t.padNum >= 0
    ensures |RowCols(t, rank, r)| == |Widths(t)|
    ensures forall i :: 0 <= i < |Widths(t)| ==> |RowCols(t, rank, r)[i]| == Widths(t)[i]
  {
  }

  /** The table is aligned: with non-negative widths every data line is exactly as wide
      as the header, which is as wide as the dashed separator. */
  lemma RowAlignedWithHeader(t: Settings, rank: nat, r: AuthorAggregate)
    requires t.padAuthor >= 0 && t.padNum >= 0
    ensures |RowLine(t, rank, r)| == |Header(t)|
    ensures |Header(t)| == 3 + t.padAuthor + t.padNum + 4
                           + (if t.includeDeletions then t.padNum + 2 else 0)
                           + (if t.includeTotal then t.padNum + 2 else 0)
  {
    HeaderColsWidths(t);
    RowColsWidths(t, rank, r);
    SameLengthsSameJoinLength(RowCols(t, rank, r), HeaderCols(t), "  ");
    JoinLength(HeaderCols(t), "  ");
    HeaderSumLengths(t);
  }

  lemma HeaderSumLengths(t: Settings)
    requires t.padAuthor >= 0 && t.padNum >= 0
    ensures SumLengths(HeaderCols(t)) == 3 + t.padAuthor + t.padNum
                                         + (if t.includeDeletions then t.padNum else 0)
                                         + (if t.includeTotal then t.padNum else 0)
  {
    var h := HeaderCols(t);
    var base := [LeftPad("#", 3), LeftPad("Author", t.padAuthor), RightPad("add", t.padNum)];
    assert SumLengths(base) == 3 + t.padAuthor + t.padNum by {
      assert base[..2] == [LeftPad("#", 3), LeftPad("Author", t.padAuthor)];
      assert base[..2][..1] == [LeftPad("#", 3)];
      assert [LeftPad("#", 3)][..0] == [];
      assert SumLengths([LeftPad("#", 3)]) == 3;
      assert SumLengths(base[..2]) == 3 + t.padAuthor;
    }
    if t.includeDeletions && t.includeTotal {
      assert h[..4] == base + [RightPad("del", t.padNum)];
      assert h[..4][..3] == base;
    } else if t.includeDeletions || t.includeTotal {
      assert h[..3] == base;
    } else {
      assert h == base;
    }
  }

  /** A line begins with the rank column: up to rank 999 it reads back as the rank. */
  lemma RankColumn(t: Settings, rank: nat, r: AuthorAggregate)
    requires 1 <= rank <= 999
    ensures var line := RowLine(t, rank, r);
            |line| >= 5 && line[..3] == LeftPad(NatToString(rank), 3) && line[3..5] == "  "
            && DigitsValue(TrimEnd(line[..3])) == rank
  {
    var cols := RowCols(t, rank, r);
    JoinFirst(cols, "  ");
    var s := NatToString(rank);
    NatToStringDigits(rank);
    NatToStringValue(rank);
    var p := LeftPad(s, 3);
    assert p == s + Repeat(' ', 3 - |s|) || p == s;
    if |s| < 3 {
      TrimEndSuffix(s, Repeat(' ', 3 - |s|));
    }
    NoTrailingSpace(s);
  }

  lemma NatToStringDigits(n: nat)
    requires n <= 999
    ensures |NatToString(n)| <= 3
  {
    if n >= 10 {
      assert NatToString(n) == NatToString(n / 10) + [DigitChar(n % 10)];
      if n / 10 >= 10 {
        assert NatToString(n / 10) == NatToString(n / 100) + [DigitChar(n / 10 % 10)];
        assert n / 100 < 10;
      }
    }
  }

  lemma NoTrailingSpace(s: string)
    requires s != [] && AllDigits(s)
    ensures TrimEnd(s) == s
  {
  }

  /** The author column follows the rank column: a key that fits is shown as it is, left
      aligned, and an empty key shows as "unknown". */
  lemma AuthorColumn(t: Settings, rank: nat, r: AuthorAggregate)
    requires 0 <= |AuthorText(r)| <= t.padAuthor
    ensures var line := RowLine(t, rank, r);
            |line| >= 5 + t.padAuthor
            && line[5..5 + t.padAuthor] == AuthorText(r) + Repeat(' ', t.padAuthor - |AuthorText(r)|)
    ensures r.authorKey == "" ==> AuthorText(r) == "unknown"
    ensures r.authorKey != "" ==> AuthorText(r) == r.authorKey
  {
    var cols := RowCols(t, rank, r);
    var a := AuthorText(r);
    var c1 := cols[1];
    assert c1 == a + Repeat(' ', t.padAuthor - |a|) by {
      if |a| == t.padAuthor {
        assert a[..t.padAuthor] == a && Repeat(' ', 0) == [];
      }
    }
    var tail := Join(cols[2..], "  ");
    assert RowLine(t, rank, r) == cols[0] + "  " + (c1 + "  " + tail) by {
      JoinFirst(cols, "  ");
      JoinFirst(cols[1..], "  ");
      assert cols[1..][1..] == cols[2..];
    }
    SecondPiece(cols[0], c1, tail);
  }

  /** In `c0 + "  " + (c1 + "  " + tail)` with a three-character `c0`, `c1` starts at 5. */
  lemma SecondPiece(c0: string, c1: string, tail: string)
    requires |c0| == 3
    ensures (c0 + "  " + (c1 + "  " + tail))[5..5 + |c1|] == c1
  {
    var line := c0 + "  " + (c1 + "  " + tail);
    assert forall i :: 0 <= i < |c1| ==> line[5 + i] == c1[i];
  }

  /** A number that fits its column is right-aligned and reads back as itself. */
  lemma NumPadRoundTrip(n: nat, width: int)
    requires |NatToString(n)| <= width
    ensures var p := NumPad(n, width);
            |p| == width && p == Repeat(' ', width - |NatToString(n)|) + NatToString(n)
            && DigitsValue(TrimStart(p)) == n
  {
    var s := NatToString(n);
    var pad := Repeat(' ', width - |s|);
    var p := NumPad(n, width);
    NumPadShape(n, width, s, pad);
    assert TrimStart(p) == s by {
      SpacesAreWhitespace(width - |s|);
      TrimStartPrefix(pad, s);
      DigitsNotTrimmed(s);
    }
    NatToStringValue(n);
  }

  lemma NumPadShape(n: nat, width: int, s: string, pad: string)
    requires s == NatToString(n) && |s| <= width && pad == Repeat(' ', width - |s|)
    ensures NumPad(n, width) == pad + s
  {
    assert NumText(n) == s;
    if |s| == width {
      assert pad == [];
      assert pad + s == s;
    }
  }

  lemma SpacesAreWhitespace(n: nat)
    ensures AllWhitespace(Repeat(' ', n))
  {
  }

  lemma DigitsNotTrimmed(s: string)
    requires s != [] && AllDigits(s)
    ensures TrimStart(s) == s
  {
    assert !IsJsWhitespace(s[0]);
  }

  /** A number wider than its column loses its trailing digits: 123456789 in a column of
      8 shows as 12345678. */
  lemma NumPadCutsWideNumbers()
    ensures NumPad(123456789, 8) == "12345678"
  {
    assert NatToString(123456789) == "123456789" by {
      assert NatToString(1) == "1";
      assert NatToString(12) == "12";
      assert NatToString(123) == "123";
      assert NatToString(1234) == "1234";
      assert NatToString(12345) == "12345";
      assert NatToString(123456) == "123456";
      assert NatToString(1234567) == "1234567";
      assert NatToString(12345678) == "12345678";
    }
  }

  /** The shown rows are the top ones by total: sorted, at least one when there is any
      row, at most `max(1, top)`, each taken from the input, and every row left out has
      a total no larger than any shown row's. */
  lemma DataIsTopByTotal(rows: seq<AuthorAggregate>, t: Settings)
    ensures var d := Data(rows, t);
            SortedDesc(d, ByTotal)
            && |d| == (if Take(t) < |rows| then Take(t) else |rows|)
            && multiset(d) <= multiset(rows)
            && forall x :: x in multiset(rows) - multiset(d) ==>
                 forall i :: 0 <= i < |d| ==> x.total <= d[i].total
  {
    var sorted := SortDesc(rows, ByTotal);
    var d := Data(rows, t);
    if Take(t) < |sorted| {
      PrefixIsTop(sorted, Take(t));
    } else {
      assert d == sorted;
      assert multiset(rows) - multiset(d) == multiset{};
    }
  }

  lemma PrefixIsTop(sorted: seq<AuthorAggregate>, k: int)
    requires SortedDesc(sorted, ByTotal) && 0 <= k <= |sorted|
    ensures SortedDesc(sorted[..k], ByTotal)
    ensures multiset(sorted[..k]) <= multiset(sorted)
    ensures forall x :: x in multiset(sorted) - multiset(sorted[..k]) ==>
              forall i :: 0 <= i < k ==> x.total <= sorted[i].total
  {
    var d := sorted[..k];
    assert sorted == d + sorted[k..];
    assert multiset(sorted) == multiset(d) + multiset(sorted[k..]);
    forall x | x in multiset(sorted) - multiset(d)
      ensures forall i :: 0 <= i < k ==> x.total <= sorted[i].total
    {
      assert x in multiset(sorted[k..]);
      assert x in sorted[k..];
      var j :| 0 <= j < |sorted| - k && sorted[k..][j] == x;
      assert sorted[k + j] == x;
      forall i | 0 <= i < k
        ensures x.total <= sorted[i].total
      {
        assert KeyOf(sorted[i], ByTotal) >= KeyOf(sorted[k + j], ByTotal);
      }
    }
  }

  /** Title first when there is one, then the opening fence in code style; the last line
      is the closing fence in code style; one line per shown row. */
  lemma LinesLayout(rows: seq<AuthorAggregate>, opts: LeaderboardOptions)
    ensures var t := Resolve(opts);
            var l := Lines(rows, opts);
            var title := TitleOf(opts);
            var h := (if title != "" then 1 else 0) + (if t.style == Code then 1 else 0);
            |l| == h + 2 + |Data(rows, t)| + (if t.style == Code then 1 else 0)
            && (title != "" ==> l[0] == title)
            && (t.style == Code ==> l[h - 1] == Fence && l[|l| - 1] == Fence)
            && l[h] == Header(t) && l[h + 1] == Repeat('-', |Header(t)|)
            && forall i :: 0 <= i < |Data(rows, t)| ==> l[h + 2 + i] == RowLine(t, i + 1, Data(rows, t)[i])
  {
    var t := Resolve(opts);
    TableLayout(t, TitleOf(opts), Data(rows, t));
  }

  lemma TableLayout(t: Settings, title: string, data: seq<AuthorAggregate>)
    ensures var l := Prefix(t, title) + RowLines(t, data) + (if t.style == Code then [Fence] else []);
            var h := (if title != "" then 1 else 0) + (if t.style == Code then 1 else 0);
            |l| == h + 2 + |data| + (if t.style == Code then 1 else 0)
            && (title != "" ==> l[0] == title)
            && (t.style == Code ==> l[h - 1] == Fence && l[|l| - 1] == Fence)
            && l[h] == Header(t) && l[h + 1] == Repeat('-', |Header(t)|)
            && forall i :: 0 <= i < |data| ==> l[h + 2 + i] == RowLine(t, i + 1, data[i])
  {
    var p := Prefix(t, title);
    var h := (if title != "" then 1 else 0) + (if t.style == Code then 1 else 0);
    assert |p| == h + 2;
    assert p[h] == Header(t) && p[h + 1] == Repeat('-', |Header(t)|);
    assert title != "" ==> p[0] == title;
    assert t.style == Code ==> p[h - 1] == Fence;
  }

  /** Text within the budget is left as it is; longer text is cut to exactly the budget
      (when it leaves room for the ellipsis) and ends with the ellipsis line. */
  lemma TruncateFitsBudget(out: string, budget: int)
    ensures |out| <= budget ==> Truncate(out, budget) == out
    ensures |out| > budget >= |Ellipsis| ==>
              var r := Truncate(out, budget);
              |r| == budget && r == out[..budget - |Ellipsis|] + Ellipsis
    ensures |Ellipsis| == 13
  {
  }

  /** The rendered leaderboard never exceeds a budget of at least 13 characters. */
  lemma LeaderboardWithinBudget(rows: seq<AuthorAggregate>, opts: LeaderboardOptions)
    requires Resolve(opts).safeBudget >= 13
    ensures |LeaderboardText(rows, opts)| <= Resolve(opts).safeBudget
  {
    TruncateFitsBudget(Join(Lines(rows, opts), "\n"), Resolve(opts).safeBudget);
  }
}
