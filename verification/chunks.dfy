/** `splitIntoDiscordChunks`: text longer than the limit is cut into pieces of at most
    `limit` characters, preferring to cut at the last line break, then at the last
    space, within the first `limit + 1` characters; the break character at a cut is
    dropped. */
module Chunks {
  import opened Util

  /** `s.lastIndexOf(c, from)` for a one-character search: the last position at or
      before `from` holding `c`, or -1. */
  function LastIndexOf(s: string, c: char, from: nat): (idx: int)
    ensures idx == -1 || (0 <= idx < |s| && idx <= from && s[idx] == c)
    ensures forall j :: idx < j < |s| && j <= from ==> s[j] != c
    decreases from
  {
    if |s| == 0 then -1
    else if from >= |s| then LastIndexOf(s, c, |s| - 1)
    else if s[from] == c then from
    else if from == 0 then -1
    else LastIndexOf(s, c, from - 1)
  }

  /** Where the text is cut: the last line break after position 0, else the last space
      after position 0, else the limit itself. */
  function CutAt(s: string, limit: nat): (idx: nat)
    requires 1 <= limit < |s|
    ensures 1 <= idx <= limit
  {
    var nl := LastIndexOf(s, '\n', limit);
    if nl > 0 then nl
    else
      var sp := LastIndexOf(s, ' ', limit);
      if sp > 0 then sp else limit
  }

  /** What follows a cut: one leading line break, then one leading space, are dropped. */
  function AfterCut(s: string, idx: nat): string
    requires idx <= |s|
  {
    var r := s[idx..];
    var r1 := if |r| > 0 && r[0] == '\n' then r[1..] else r;
    if |r1| > 0 && r1[0] == ' ' then r1[1..] else r1
  }

  /** The characters dropped at a cut. */
  function Gap(s: string, idx: nat): string
    requires idx <= |s|
  {
    s[idx..|s| - |AfterCut(s, idx)|]
  }

  /** The chunks: never empty, and text within the limit is its own single chunk. */
  function Chunks(text: string, limit: nat): (parts: seq<string>)
    requires limit >= 1
    ensures |parts| >= 1
    ensures |text| <= limit ==> parts == [text]
    decreases |text|
  {
    if |text| <= limit then [text]
    else
      var idx := CutAt(text, limit);
      [text[..idx]] + Chunks(AfterCut(text, idx), limit)
  }

  /** No chunk is longer than the limit. */
  lemma {:induction false} ChunksWithinLimit(text: string, limit: nat)
    requires limit >= 1
    ensures forall i :: 0 <= i < |Chunks(text, limit)| ==> |Chunks(text, limit)[i]| <= limit
    decreases |text|
  {
    if |text| > limit {
      var idx := CutAt(text, limit);
      var rest := AfterCut(text, idx);
      ChunksWithinLimit(rest, limit);
      var parts := Chunks(text, limit);
      assert parts == [text[..idx]] + Chunks(rest, limit);
      forall i | 0 <= i < |parts|
        ensures |parts[i]| <= limit
      {
        if i > 0 {
          assert parts[i] == Chunks(rest, limit)[i - 1];
        }
      }
    }
  }

  method SplitIntoDiscordChunks(text: string, limit: nat) returns (parts: seq<string>)
    requires limit >= 1
    ensures parts == Chunks(text, limit)
  {
    ghost var all := Chunks(text, limit);
    parts := [];
    var remaining := text;
    assert parts + Chunks(remaining, limit) == all;
    while |remaining| > limit
      invariant parts + Chunks(remaining, limit) == all
      decreases |remaining|
    {
      var idx := LastIndexOf(remaining, '\n', limit);
      if idx <= 0 {
        idx := LastIndexOf(remaining, ' ', limit);
      }
      if idx <= 0 {
        idx := limit;
      }
      var rest := remaining[idx..];
      if |rest| > 0 && rest[0] == '\n' {
        rest := rest[1..];
      }
      if |rest| > 0 && rest[0] == ' ' {
        rest := rest[1..];
      }
      CutStep(parts, remaining, limit, idx, rest, all);
      parts := parts + [remaining[..idx]];
      remaining := rest;
    }
    parts := parts + [remaining];
  }

  /** One pass of the loop moves the first chunk from the remaining text to the parts. */
  lemma CutStep(parts: seq<string>, remaining: string, limit: nat, idx: nat, rest: string, all: seq<string>)
    requires 1 <= limit < |remaining|
    requires idx == CutAt(remaining, limit) && rest == AfterCut(remaining, idx)
    requires parts + Chunks(remaining, limit) == all
    ensures parts + [remaining[..idx]] + Chunks(rest, limit) == all
    ensures |rest| < |remaining|
  {
    ChunksStep(remaining, limit);
    ConcatAssoc(parts, [remaining[..idx]], Chunks(rest, limit));
  }

  lemma ChunksStep(s: string, limit: nat)
    requires 1 <= limit < |s|
    ensures Chunks(s, limit) == [s[..CutAt(s, limit)]] + Chunks(AfterCut(s, CutAt(s, limit)), limit)
  {
  }

  lemma ConcatAssoc<T>(a: seq<T>, b: seq<T>, c: seq<T>)
    ensures a + b + c == a + (b + c)
  {
  }

  lemma SplitAt<T>(s: seq<T>, i: nat)
    requires i <= |s|
    ensures s[..i] + s[i..] == s
  {
  }

  /** `chunks[0] + gaps[0] + chunks[1] + ... + chunks[n - 1]`. */
  function Interleave(chunks: seq<string>, gaps: seq<string>): string
    requires |chunks| == |gaps| + 1
  {
    if |gaps| == 0 then chunks[0]
    else chunks[0] + gaps[0] + Interleave(chunks[1..], gaps[1..])
  }

  predicate IsGap(g: string)
  {
    g == "" || g == "\n" || g == " " || g == "\n "
  }

  lemma AfterCutGap(s: string, idx: nat)
    requires idx <= |s|
    ensures IsGap(Gap(s, idx))
    ensures s[idx..] == Gap(s, idx) + AfterCut(s, idx)
  {
  }

  /** The gaps dropped between consecutive chunks. */
  function Gaps(text: string, limit: nat): (gaps: seq<string>)
    requires limit >= 1
    ensures |gaps| == |Chunks(text, limit)| - 1
    decreases |text|
  {
    if |text| <= limit then []
    else
      var idx := CutAt(text, limit);
      [Gap(text, idx)] + Gaps(AfterCut(text, idx), limit)
  }

  /** Nothing is lost but the break characters at the cuts: the chunks, with at most one
      line break and one space between each pair, rebuild the text. */
  lemma {:induction false} ChunksRebuildText(text: string, limit: nat)
    requires limit >= 1
    ensures var gaps := Gaps(text, limit);
            Interleave(Chunks(text, limit), gaps) == text
            && forall i :: 0 <= i < |gaps| ==> IsGap(gaps[i])
    decreases |text|
  {
    if |text| > limit {
      var idx := CutAt(text, limit);
      var rest := AfterCut(text, idx);
      ChunksRebuildText(rest, limit);
      HeadsOf(text, limit);
      InterleaveStep(Chunks(text, limit), Gaps(text, limit));
      RebuildFirstCut(text, idx, Interleave(Chunks(rest, limit), Gaps(rest, limit)));
    }
  }

  lemma HeadsOf(text: string, limit: nat)
    requires 1 <= limit < |text|
    ensures var idx := CutAt(text, limit);
            var rest := AfterCut(text, idx);
            var chunks := Chunks(text, limit);
            var gaps := Gaps(text, limit);
            |gaps| >= 1
            && chunks[0] == text[..idx] && chunks[1..] == Chunks(rest, limit)
            && gaps[0] == Gap(text, idx) && gaps[1..] == Gaps(rest, limit)
  {
  }

  lemma InterleaveStep(chunks: seq<string>, gaps: seq<string>)
    requires |chunks| == |gaps| + 1 && |gaps| >= 1
    ensures Interleave(chunks, gaps) == chunks[0] + gaps[0] + Interleave(chunks[1..], gaps[1..])
  {
  }

  lemma RebuildFirstCut(text: string, idx: nat, tail: string)
    requires idx <= |text| && tail == AfterCut(text, idx)
    ensures text[..idx] + Gap(text, idx) + tail == text
    ensures IsGap(Gap(text, idx))
  {
    AfterCutGap(text, idx);
    ConcatAssoc(text[..idx], Gap(text, idx), tail);
    SplitAt(text, idx);
  }

  /** The cut prefers line breaks: when the text holds a line break at a position from 1
      to `limit`, the first chunk ends right before the last such line break. */
  lemma CutPrefersLineBreak(text: string, limit: nat, j: nat)
    requires 1 <= limit < |text| && 1 <= j <= limit && text[j] == '\n'
    ensures var c := Chunks(text, limit)[0];
            j <= |c| <= limit && text[|c|] == '\n'
            && forall k :: |c| < k <= limit ==> text[k] != '\n'
  {
  }

  /** Without a line break or space to cut at, the cut is exactly at the limit and no
      character is dropped. */
  lemma HardSplitDropsNothing(text: string, limit: nat)
    requires 1 <= limit < |text|
    requires forall k :: 1 <= k <= limit ==> text[k] != '\n' && text[k] != ' '
    ensures Chunks(text, limit)[0] == text[..limit]
    ensures Gaps(text, limit)[0] == ""
  {
    assert LastIndexOf(text, '\n', limit) <= 0;
    assert LastIndexOf(text, ' ', limit) <= 0;
  }
}
