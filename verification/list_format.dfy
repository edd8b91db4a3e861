/** `formatList`: a numbered list inside a `txt` code block, under an optional title. */
module ListFormat {
  import opened Util

  const OpenFence: string := "```txt"
  const CloseFence: string := "```"

  /** `String(n).padStart(2, " ")`: one-digit numbers get a leading space. */
  function PadStart2(s: string): (r: string)
  {
    if |s| >= 2 then s else Repeat(' ', 2 - |s|) + s
  }

  /** The line of the item at `idx`: its number from 1, a dot and a space, the item. */
  function ItemLine(idx: nat, item: string): string
  {
    PadStart2(NatToString(idx + 1)) + ". " + item
  }

  function ListLines(items: seq<string>, title: Option<string>): seq<string>
  {
    (if title.Some? && title.value != "" then [title.value] else [])
    + [OpenFence]
    + seq(|items|, i requires 0 <= i < |items| => ItemLine(i, items[i]))
    + [CloseFence]
  }

  function FormatList(items: seq<string>, title: Option<string>): (r: string)
    ensures |r| == SumLengths(ListLines(items, title)) + |ListLines(items, title)| - 1
  {
    ListLayout(items, title);
    JoinLength(ListLines(items, title), "\n");
    Join(ListLines(items, title), "\n")
  }

  /** The lines: the title when it is non-empty, the opening fence, one line per item in
      order, the closing fence. */
  lemma ListLayout(items: seq<string>, title: Option<string>)
    ensures var l := ListLines(items, title);
            var h := if title.Some? && title.value != "" then 1 else 0;
            |l| == h + |items| + 2
            && (h == 1 ==> l[0] == title.value)
            && l[h] == OpenFence && l[|l| - 1] == CloseFence
            && forall i :: 0 <= i < |items| ==> l[h + 1 + i] == ItemLine(i, items[i])
  {
  }

  /** Each item line ends with the item itself, and its number reads back as the item's
      position counted from 1; numbers below 10 are padded to two characters. */
  lemma ItemLineShape(idx: nat, item: string)
    ensures var line := ItemLine(idx, item);
            var num := PadStart2(NatToString(idx + 1));
            line == num + ". " + item
            && line[|line| - |item|..] == item
            && DigitsValue(TrimStart(num)) == idx + 1
            && (idx + 1 < 10 ==> |num| == 2 && num[0] == ' ')
  {
    var s := NatToString(idx + 1);
    var num := PadStart2(s);
    NatToStringValue(idx + 1);
    assert !IsJsWhitespace(s[0]);
    if |s| < 2 {
      TrimStartPrefix(Repeat(' ', 2 - |s|), s);
    }
  }

  /** The text starts with the title line when there is a title, and otherwise with the
      opening fence. */
  lemma FormatListStart(items: seq<string>, title: Option<string>)
    ensures var out := FormatList(items, title);
            (title.Some? && title.value != "" ==>
               |out| > |title.value| && out[..|title.value| + 1] == title.value + "\n")
            && (title.None? || title.value == "" ==> |out| >= |OpenFence| && out[..|OpenFence|] == OpenFence)
  {
    var l := ListLines(items, title);
    ListLayout(items, title);
    JoinFirst(l, "\n");
    var out := FormatList(items, title);
    assert out == l[0] + "\n" + Join(l[1..], "\n");
  }

  /** The text has one line per item plus the fences and the title: it contains
      |items| + 1 (+ 1 with a title) line breaks when no item or title contains one. */
  lemma FormatListLineBreaks(items: seq<string>, title: Option<string>)
    requires forall i :: 0 <= i < |items| ==> '\n' !in items[i]
    requires title.Some? ==> '\n' !in title.value
    ensures var h := if title.Some? && title.value != "" then 1 else 0;
            LineBreaks(FormatList(items, title)) == h + |items| + 1
  {
    var l := ListLines(items, title);
    ListLayout(items, title);
    ListLinesNoBreak(items, title);
    JoinLineBreaks(l);
  }

  /** No line of the layout holds a line break of its own. */
  lemma ListLinesNoBreak(items: seq<string>, title: Option<string>)
    requires forall i :: 0 <= i < |items| ==> '\n' !in items[i]
    requires title.Some? ==> '\n' !in title.value
    ensures forall i :: 0 <= i < |ListLines(items, title)| ==> '\n' !in ListLines(items, title)[i]
  {
    var l := ListLines(items, title);
    var h := if title.Some? && title.value != "" then 1 else 0;
    ListLayout(items, title);
    forall i | 0 <= i < |l|
      ensures '\n' !in l[i]
    {
      if h == 1 && i == 0 {
        assert l[i] == title.value;
      } else if i == h {
        assert l[i] == OpenFence;
      } else if i == |l| - 1 {
        assert l[i] == CloseFence;
      } else {
        var j := i - 1 - h;
        assert l[h + 1 + j] == ItemLine(j, items[j]);
        ItemLineNoBreak(j, items[j]);
      }
    }
  }

  /** The number of line breaks in a text. */
  function LineBreaks(s: string): nat
  {
    if s == [] then 0 else LineBreaks(s[..|s| - 1]) + (if s[|s| - 1] == '\n' then 1 else 0)
  }

  lemma {:induction false} LineBreaksAppend(a: string, b: string)
    ensures LineBreaks(a + b) == LineBreaks(a) + LineBreaks(b)
    decreases |b|
  {
    if b == [] {
      assert a + b == a;
    } else {
      assert (a + b)[..|a + b| - 1] == a + b[..|b| - 1];
      LineBreaksAppend(a, b[..|b| - 1]);
    }
  }

  lemma {:induction false} NoBreakNoLineBreaks(s: string)
    requires '\n' !in s
    ensures LineBreaks(s) == 0
  {
    if s != [] {
      NoBreakNoLineBreaks(s[..|s| - 1]);
    }
  }

  lemma ItemLineNoBreak(idx: nat, item: string)
    requires '\n' !in item
    ensures '\n' !in ItemLine(idx, item)
  {
    var s := NatToString(idx + 1);
    assert forall i :: 0 <= i < |s| ==> IsDigit(s[i]);
  }

  /** Joining lines without line breaks of their own gives one break per gap. */
  lemma {:induction false} JoinLineBreaks(l: seq<string>)
    requires |l| >= 1 && forall i :: 0 <= i < |l| ==> '\n' !in l[i]
    ensures LineBreaks(Join(l, "\n")) == |l| - 1
  {
    var n := |l|;
    if n == 1 {
      NoBreakNoLineBreaks(l[0]);
    } else {
      JoinLineBreaks(l[..n - 1]);
      LineBreaksAppend(Join(l[..n - 1], "\n") + "\n", l[n - 1]);
      LineBreaksAppend(Join(l[..n - 1], "\n"), "\n");
      NoBreakNoLineBreaks(l[n - 1]);
      assert LineBreaks("\n") == 1 by {
        assert "\n"[..0] == [];
      }
    }
  }
}
