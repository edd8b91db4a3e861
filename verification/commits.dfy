/** Commits of one branch: removing duplicate SHAs, deriving a per-commit summary
    from the commit's stats, and the claim loop of `listCommits` that fetches each
    deduplicated commit once and keeps or drops it. The remote commit lookup is the
    map `fetched` (a SHA missing from it is a fetch that failed). */
module Commits {
  import opened Util

  datatype CommitDetails = CommitDetails(sha: string, authorLogin: Option<string>,
                                         authorEmail: Option<string>, date: string)

  /** The parts of a fetched commit that the summary reads; absent fields are None. */
  datatype RemoteStats = RemoteStats(additions: Option<nat>, deletions: Option<nat>, total: Option<nat>)
  datatype RemoteCommit = RemoteCommit(stats: Option<RemoteStats>, parentCount: Option<nat>)

  datatype CommitStat = CommitStat(additions: nat, deletions: nat, total: nat)
  datatype CommitSummary = CommitSummary(sha: string, authorKey: string, stats: CommitStat, isMerged: bool)

  // ---------------------------------------------------------------------
  // removeDuplicateCommits

  function Shas(items: seq<CommitDetails>): set<string>
  {
    set i | 0 <= i < |items| :: items[i].sha
  }

  /** The deduplicated list: items with an empty SHA are dropped, and of several items
      with one SHA only the first is kept. */
  function Dedup(items: seq<CommitDetails>): (out: seq<CommitDetails>)
    ensures |out| <= |items|
    ensures forall i :: 0 <= i < |out| ==> out[i].sha != ""
  {
    if items == [] then []
    else
      var init := items[..|items| - 1];
      var item := items[|items| - 1];
      if item.sha == "" || item.sha in Shas(init) then Dedup(init) else Dedup(init) + [item]
  }

  /** `removeDuplicateCommits`: one pass filling a set of seen SHAs. */
  method RemoveDuplicateCommits(items: seq<CommitDetails>) returns (out: seq<CommitDetails>)
    ensures out == Dedup(items)
  {
    var seen: set<string> := {};
    out := [];
    var i := 0;
    while i < |items|
      invariant 0 <= i <= |items|
      invariant out == Dedup(items[..i])
      invariant seen == Shas(items[..i]) - {""}
    {
      var item := items[i];
      assert items[..i + 1][..i] == items[..i];
      assert Shas(items[..i + 1]) == Shas(items[..i]) + {item.sha};
      if item.sha != "" && item.sha !in seen {
        seen := seen + {item.sha};
        out := out + [item];
      }
      i := i + 1;
    }
    assert items[..i] == items;
  }

  lemma ShasOfAppend(s: seq<CommitDetails>, x: CommitDetails)
    ensures Shas(s + [x]) == Shas(s) + {x.sha}
  {
    assert forall i :: 0 <= i < |s| ==> (s + [x])[i] == s[i];
    assert (s + [x])[|s|] == x;
  }

  /** The SHAs kept are exactly the non-empty SHAs of the input. */
  lemma {:induction false} DedupShas(items: seq<CommitDetails>)
    ensures Shas(Dedup(items)) == Shas(items) - {""}
  {
    if items != [] {
      var init := items[..|items| - 1];
      var item := items[|items| - 1];
      assert items == init + [item];
      DedupShas(init);
      ShasOfAppend(init, item);
      if !(item.sha == "" || item.sha in Shas(init)) {
        ShasOfAppend(Dedup(init), item);
      }
    }
  }

  predicate DistinctShas(s: seq<CommitDetails>)
  {
    forall i, j :: 0 <= i < j < |s| ==> s[i].sha != s[j].sha
  }

  /** The output holds pairwise distinct, non-empty SHAs. */
  lemma {:induction false} DedupDistinct(items: seq<CommitDetails>)
    ensures DistinctShas(Dedup(items))
    ensures forall k :: 0 <= k < |Dedup(items)| ==> Dedup(items)[k].sha != ""
  {
    if items != [] {
      var init := items[..|items| - 1];
      var item := items[|items| - 1];
      DedupDistinct(init);
      DedupShas(init);
      if !(item.sha == "" || item.sha in Shas(init)) {
        var d := Dedup(init);
        forall k | 0 <= k < |d|
          ensures d[k].sha != item.sha
        {
          assert d[k].sha in Shas(d);
        }
      }
    }
  }

  /** The item at index `i` is the first one carrying its (non-empty) SHA. */
  predicate FirstOccurrence(items: seq<CommitDetails>, i: int)
    requires 0 <= i < |items|
  {
    items[i].sha != "" && forall j :: 0 <= j < i ==> items[j].sha != items[i].sha
  }

  /** First occurrence wins: an item is kept exactly when it is the first with its SHA. */
  lemma DedupKeepsFirst(items: seq<CommitDetails>, x: CommitDetails)
    ensures x in Dedup(items) <==> exists i :: 0 <= i < |items| && FirstOccurrence(items, i) && items[i] == x
  {
    if x in Dedup(items) {
      KeptIsFirst(items, x);
    }
    if exists i :: 0 <= i < |items| && FirstOccurrence(items, i) && items[i] == x {
      var i :| 0 <= i < |items| && FirstOccurrence(items, i) && items[i] == x;
      FirstIsKept(items, i);
    }
  }

  lemma {:induction false} KeptIsFirst(items: seq<CommitDetails>, x: CommitDetails)
    requires x in Dedup(items)
    ensures exists i :: 0 <= i < |items| && FirstOccurrence(items, i) && items[i] == x
  {
    var n := |items| - 1;
    var init := items[..n];
    var item := items[n];
    if x in Dedup(init) {
      KeptIsFirst(init, x);
      var i :| 0 <= i < |init| && FirstOccurrence(init, i) && init[i] == x;
      FirstOccurrenceOfInit(items, i);
    } else {
      assert Dedup(items) == Dedup(init) + [item] && item.sha != "" && item.sha !in Shas(init);
      assert x == item;
      LastIsFirstOccurrence(items);
    }
  }

  lemma FirstOccurrenceOfInit(items: seq<CommitDetails>, i: int)
    requires 0 <= i < |items| - 1 && FirstOccurrence(items[..|items| - 1], i)
    ensures FirstOccurrence(items, i)
  {
    var init := items[..|items| - 1];
    assert items[i] == init[i];
    forall j | 0 <= j < i
      ensures items[j].sha != items[i].sha
    {
      assert items[j] == init[j];
    }
  }

  lemma LastIsFirstOccurrence(items: seq<CommitDetails>)
    requires items != []
    requires items[|items| - 1].sha != "" && items[|items| - 1].sha !in Shas(items[..|items| - 1])
    ensures FirstOccurrence(items, |items| - 1)
  {
    var n := |items| - 1;
    var init := items[..n];
    forall j | 0 <= j < n
      ensures items[j].sha != items[n].sha
    {
      assert items[j] == init[j];
      assert init[j].sha in Shas(init);
    }
  }

  lemma {:induction false} FirstIsKept(items: seq<CommitDetails>, i: int)
    requires 0 <= i < |items| && FirstOccurrence(items, i)
    ensures items[i] in Dedup(items)
  {
    var n := |items| - 1;
    var init := items[..n];
    if i < n {
      assert FirstOccurrence(init, i);
      FirstIsKept(init, i);
    } else {
      assert items[n].sha !in Shas(init);
    }
  }

  /** The output keeps the input's order. */
  lemma {:induction false} DedupSubsequence(items: seq<CommitDetails>)
    ensures Subsequence(Dedup(items), items)
  {
    if items != [] {
      var init := items[..|items| - 1];
      var item := items[|items| - 1];
      DedupSubsequence(init);
      var d := Dedup(init);
      if item.sha == "" || item.sha in Shas(init) {
        SubsequenceOfInit(d, items);
      } else {
        assert (d + [item])[..|d|] == d;
      }
    }
  }

  /** A list that already has distinct, non-empty SHAs is left as it is. */
  lemma {:induction false} DedupOfDistinct(items: seq<CommitDetails>)
    requires DistinctShas(items) && forall k :: 0 <= k < |items| ==> items[k].sha != ""
    ensures Dedup(items) == items
  {
    if items != [] {
      var n := |items| - 1;
      var init := items[..n];
      assert DistinctShas(init) && forall k :: 0 <= k < |init| ==> init[k].sha != "" by {
        assert forall k :: 0 <= k < |init| ==> init[k] == items[k];
      }
      DedupOfDistinct(init);
      assert items[n].sha !in Shas(init) by {
        forall k | 0 <= k < n
          ensures init[k].sha != items[n].sha
        {
          assert init[k] == items[k];
        }
      }
      assert items == init + [items[n]];
    }
  }

  /** Deduplicating twice is deduplicating once. */
  lemma DedupIdempotent(items: seq<CommitDetails>)
    ensures Dedup(Dedup(items)) == Dedup(items)
  {
    DedupDistinct(items);
    DedupOfDistinct(Dedup(items));
  }

  // ---------------------------------------------------------------------
  // listCommitStat

  function OrZero(o: Option<nat>): nat
  {
    if o.Some? then o.value else 0
  }

  /** The author key: the login, else the email, else "unknown" (`??` keeps an empty login). */
  function AuthorKeyOf(item: CommitDetails): string
  {
    if item.authorLogin.Some? then item.authorLogin.value
    else if item.authorEmail.Some? then item.authorEmail.value
    else "unknown"
  }

  /** The summary `listCommitStat` builds from a fetched commit. */
  function DeriveSummary(item: CommitDetails, remote: RemoteCommit): (r: CommitSummary)
    ensures r.sha == item.sha && r.authorKey == AuthorKeyOf(item)
    ensures remote.stats.None? ==> r.stats == CommitStat(0, 0, 0)
    ensures remote.stats.Some? && remote.stats.value.total.None? ==>
              r.stats.total == r.stats.additions + r.stats.deletions
    ensures r.isMerged <==> remote.parentCount.Some? && remote.parentCount.value >= 2
  {
    var additions := if remote.stats.Some? then OrZero(remote.stats.value.additions) else 0;
    var deletions := if remote.stats.Some? then OrZero(remote.stats.value.deletions) else 0;
    var total := if remote.stats.Some? && remote.stats.value.total.Some?
                 then remote.stats.value.total.value else additions + deletions;
    var parents := if remote.parentCount.Some? then remote.parentCount.value else 0;
    CommitSummary(item.sha, AuthorKeyOf(item), CommitStat(additions, deletions, total), parents > 1)
  }

  // ---------------------------------------------------------------------
  // listCommits

  /** `Math.max(1, concurrency ?? default)`: the number of workers started. */
  function WorkerCount(requested: Option<int>, default: nat): (n: int)
    requires default >= 1
    ensures n >= 1
    ensures requested.None? ==> n == default
    ensures requested.Some? && requested.value >= 1 ==> n == requested.value
  {
    var c := if requested.Some? then requested.value else default;
    if c < 1 then 1 else c
  }

  /** Whether a summary survives the merge filter. */
  predicate Kept(s: CommitSummary, ignoreMerges: bool)
  {
    !ignoreMerges || !s.isMerged
  }

  /** The summaries of the claimed items, in claim order: a failed fetch drops only that
      item, and merged commits are dropped when `ignoreMerges`. */
  function Summaries(items: seq<CommitDetails>, fetched: map<string, RemoteCommit>, ignoreMerges: bool): seq<CommitSummary>
  {
    if items == [] then []
    else
      var init := Summaries(items[..|items| - 1], fetched, ignoreMerges);
      var item := items[|items| - 1];
      if item.sha !in fetched then init
      else
        var s := DeriveSummary(item, fetched[item.sha]);
        if Kept(s, ignoreMerges) then init + [s] else init
  }

  /** `listCommits` after the listing: deduplicate, then let workers claim indices from a
      shared counter until it passes the end. With the workers run one after another the
      claims are 0, 1, 2, ... in order. */
  method ListCommits(details: seq<CommitDetails>, fetched: map<string, RemoteCommit>,
                     concurrency: Option<int>, ignoreMerges: bool)
    returns (summaries: seq<CommitSummary>)
    ensures summaries == Summaries(Dedup(details), fetched, ignoreMerges)
  {
    if |details| == 0 {
      return [];
    }
    var items := RemoveDuplicateCommits(details);
    var workers := WorkerCount(concurrency, 8);
    summaries := [];
    var index := 0;
    var w := 0;
    while w < workers
      invariant 0 <= index && (w > 0 ==> index > |items|)
      invariant summaries == Summaries(items[..Claimed(index, |items|)], fetched, ignoreMerges)
    {
      while true
        invariant 0 <= index
        invariant summaries == Summaries(items[..Claimed(index, |items|)], fetched, ignoreMerges)
        decreases |items| + 1 - index
      {
        var i := index;
        index := index + 1;
        if i >= |items| {
          break;
        }
        var item := items[i];
        assert Claimed(i, |items|) == i && Claimed(index, |items|) == i + 1;
        SummariesStep(items, i, fetched, ignoreMerges);
        if item.sha in fetched {
          var s := DeriveSummary(item, fetched[item.sha]);
          if Kept(s, ignoreMerges) {
            summaries := summaries + [s];
          }
        }
      }
      w := w + 1;
    }
    assert items[..Claimed(index, |items|)] == items;
  }

  lemma SummariesStep(items: seq<CommitDetails>, i: int, fetched: map<string, RemoteCommit>, ignoreMerges: bool)
    requires 0 <= i < |items|
    ensures var init := Summaries(items[..i], fetched, ignoreMerges);
            Summaries(items[..i + 1], fetched, ignoreMerges)
            == if items[i].sha !in fetched then init
               else if Kept(DeriveSummary(items[i], fetched[items[i].sha]), ignoreMerges)
               then init + [DeriveSummary(items[i], fetched[items[i].sha])]
               else init
  {
    assert items[..i + 1][..i] == items[..i];
  }

  /** How many items the claims so far have covered: the shared counter runs past the
      end once per worker that finds nothing left. */
  function Claimed(index: nat, n: nat): nat
  {
    if index < n then index else n
  }

  /** Each summary comes from a fetched item of the list, keeps its SHA, and passes the
      merge filter; a list of distinct SHAs gives distinct summaries. */
  lemma {:induction false} SummariesSound(items: seq<CommitDetails>, fetched: map<string, RemoteCommit>, ignoreMerges: bool)
    ensures forall s :: s in Summaries(items, fetched, ignoreMerges) ==>
              Kept(s, ignoreMerges) && s.sha in fetched && s.sha in Shas(items)
    ensures |Summaries(items, fetched, ignoreMerges)| <= |items|
  {
    if items != [] {
      var init := items[..|items| - 1];
      SummariesSound(init, fetched, ignoreMerges);
      ShasOfAppend(init, items[|items| - 1]);
      assert items == init + [items[|items| - 1]];
    }
  }

  lemma {:induction false} SummariesDistinct(items: seq<CommitDetails>, fetched: map<string, RemoteCommit>, ignoreMerges: bool)
    requires DistinctShas(items)
    ensures var r := Summaries(items, fetched, ignoreMerges);
            forall i, j :: 0 <= i < j < |r| ==> r[i].sha != r[j].sha
  {
    if items != [] {
      var n := |items| - 1;
      var init := items[..n];
      SummariesDistinct(init, fetched, ignoreMerges);
      SummariesSound(init, fetched, ignoreMerges);
      var prev := Summaries(init, fetched, ignoreMerges);
      forall k | 0 <= k < |prev|
        ensures prev[k].sha != items[n].sha
      {
        assert prev[k] in prev;
      }
    }
  }

  /** What `listCommits` promises: at most one summary per SHA, each for a commit that was
      listed and fetched, and no merged commit when merges are ignored. */
  lemma ListCommitsProperties(details: seq<CommitDetails>, fetched: map<string, RemoteCommit>, ignoreMerges: bool)
    ensures var r := Summaries(Dedup(details), fetched, ignoreMerges);
            (forall i, j :: 0 <= i < j < |r| ==> r[i].sha != r[j].sha)
            && (forall s :: s in r ==> s.sha in Shas(details) && s.sha != "" && s.sha in fetched)
            && (ignoreMerges ==> forall s :: s in r ==> !s.isMerged)
            && |r| <= |details|
  {
    DedupDistinct(details);
    DedupShas(details);
    SummariesDistinct(Dedup(details), fetched, ignoreMerges);
    SummariesSound(Dedup(details), fetched, ignoreMerges);
    DedupLength(details);
  }

  lemma {:induction false} DedupLength(items: seq<CommitDetails>)
    ensures |Dedup(items)| <= |items|
  {
    if items != [] {
      DedupLength(items[..|items| - 1]);
    }
  }

  /** A commit whose fetch fails is the only one missing: every other listed first
      occurrence still yields a summary (when it passes the merge filter). */
  lemma {:induction false} FailedFetchDropsOnlyThatCommit(items: seq<CommitDetails>, fetched: map<string, RemoteCommit>, ignoreMerges: bool, x: CommitDetails)
    requires x in items && x.sha in fetched && Kept(DeriveSummary(x, fetched[x.sha]), ignoreMerges)
    ensures DeriveSummary(x, fetched[x.sha]) in Summaries(items, fetched, ignoreMerges)
  {
    var n := |items| - 1;
    var init := items[..n];
    if items[n] != x {
      assert x in init by {
        var i :| 0 <= i < |items| && items[i] == x;
        assert i < n && init[i] == x;
      }
      FailedFetchDropsOnlyThatCommit(init, fetched, ignoreMerges, x);
    }
  }
}
