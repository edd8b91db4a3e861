/** `collectRepoReport`: the summaries of every branch of one repository are collected
    (a branch whose listing throws is skipped), folded per author and sorted by additions.
    `listings[b]` is the outcome of `listCommits` for the b-th branch: None when it threw. */
module RepoReport {
  import opened Util
  import opened Commits
  import opened Aggregation

  /** A commit's contribution to its author's row. */
  function Contribution(c: CommitSummary): AuthorAggregate
  {
    AuthorAggregate(c.authorKey, c.stats.additions, c.stats.deletions, c.stats.total)
  }

  function Contributions(cs: seq<CommitSummary>): (rows: seq<AuthorAggregate>)
    ensures |rows| == |cs| && forall i :: 0 <= i < |cs| ==> rows[i] == Contribution(cs[i])
  {
    seq(|cs|, i requires 0 <= i < |cs| => Contribution(cs[i]))
  }

  /** Every summary of every branch whose listing succeeded, branch by branch. */
  function Collected(listings: seq<Option<seq<CommitSummary>>>): seq<CommitSummary>
  {
    if listings == [] then []
    else
      var init := Collected(listings[..|listings| - 1]);
      match listings[|listings| - 1]
      case None => init
      case Some(s) => init + s
  }

  /** The report of one repository: one row per author of the collected commits, sorted
      by additions, largest first. */
  function RepoReportOf(listings: seq<Option<seq<CommitSummary>>>): (r: seq<AuthorAggregate>)
    ensures SortedDesc(r, ByAdditions)
  {
    var all := Collected(listings);
    if |all| == 0 then [] else SortDesc(GroupSum(Contributions(all)), ByAdditions)
  }

  method CollectRepoReport(listings: seq<Option<seq<CommitSummary>>>) returns (out: seq<AuthorAggregate>)
    ensures out == RepoReportOf(listings)
  {
    var all: seq<CommitSummary> := [];
    for b := 0 to |listings|
      invariant all == Collected(listings[..b])
    {
      assert listings[..b + 1][..b] == listings[..b];
      match listings[b]
      case None =>
      case Some(summaries) =>
        if |summaries| > 0 {
          all := all + summaries;
        }
    }
    assert listings[..|listings|] == listings;
    if |all| == 0 {
      return [];
    }
    var rows := GroupByAuthor(Contributions(all));
    out := SortDesc(rows, ByAdditions);
  }

  lemma {:induction false} CollectedAppend(a: seq<Option<seq<CommitSummary>>>, b: seq<Option<seq<CommitSummary>>>)
    ensures Collected(a + b) == Collected(a) + Collected(b)
  {
    if b == [] {
      assert a + b == a;
    } else {
      var b' := b[..|b| - 1];
      assert (a + b)[..|a + b| - 1] == a + b';
      CollectedAppend(a, b');
    }
  }

  lemma ContributionsAppend(a: seq<CommitSummary>, b: seq<CommitSummary>)
    ensures Contributions(a + b) == Contributions(a) + Contributions(b)
  {
  }

  /** One row per distinct author of the collected commits, each holding that author's
      sums, sorted by additions (largest first). */
  lemma RepoReportRows(listings: seq<Option<seq<CommitSummary>>>)
    ensures var r := RepoReportOf(listings);
            var rows := Contributions(Collected(listings));
            SortedDesc(r, ByAdditions)
            && (forall i, j :: 0 <= i < j < |r| ==> r[i].authorKey != r[j].authorKey)
            && (forall k :: HasKey(r, k) <==> HasKey(rows, k))
            && (forall i :: 0 <= i < |r| ==> r[i] == Totals(rows, r[i].authorKey))
  {
    if |Collected(listings)| > 0 {
      SortedGroupSum(Contributions(Collected(listings)), ByAdditions);
    }
  }

  /** Conservation: the report's additions, deletions and total add up to those of all
      collected commits. */
  lemma RepoReportConserves(listings: seq<Option<seq<CommitSummary>>>, f: Field)
    ensures SumField(RepoReportOf(listings), f) == SumField(Contributions(Collected(listings)), f)
  {
    var rows := Contributions(Collected(listings));
    if |Collected(listings)| > 0 {
      GroupSumConserves(rows, f);
      SumFieldPermutation(SortDesc(GroupSum(rows), ByAdditions), GroupSum(rows), f);
    }
  }

  /** A branch whose listing throws contributes nothing, and the other branches are still
      counted. */
  lemma FailedBranchSkipped(a: seq<Option<seq<CommitSummary>>>, b: seq<Option<seq<CommitSummary>>>)
    ensures RepoReportOf(a + [None] + b) == RepoReportOf(a + b)
  {
    CollectedAppend(a + [None], b);
    CollectedAppend(a, [None]);
    CollectedAppend(a, b);
    var none: seq<Option<seq<CommitSummary>>> := [None];
    assert none[..0] == [];
  }

  /** Without collected commits the report is empty. */
  lemma NoCommitsNoRows(listings: seq<Option<seq<CommitSummary>>>)
    requires forall b :: 0 <= b < |listings| ==> listings[b].None? || listings[b] == Some([])
    ensures RepoReportOf(listings) == []
  {
    CollectedEmpty(listings);
  }

  lemma {:induction false} CollectedEmpty(listings: seq<Option<seq<CommitSummary>>>)
    requires forall b :: 0 <= b < |listings| ==> listings[b].None? || listings[b] == Some([])
    ensures Collected(listings) == []
  {
    if listings != [] {
      CollectedEmpty(listings[..|listings| - 1]);
    }
  }

  /** No deduplication across branches: a commit listed by two branches is counted twice. */
  lemma CrossBranchCountedTwice(s: seq<CommitSummary>, k: string, f: Field)
    ensures var rows := Contributions(s);
            var r := RepoReportOf([Some(s), Some(s)]);
            HasKey(rows, k) ==>
              exists i :: 0 <= i < |r| && r[i].authorKey == k && FieldOf(r[i], f) == 2 * SumKey(rows, k, f)
  {
    var rows := Contributions(s);
    var listings := [Some(s), Some(s)];
    var all := rows + rows;
    assert Contributions(Collected(listings)) == all by {
      ListedTwice(s);
    }
    if HasKey(rows, k) {
      assert HasKey(all, k) by {
        var i :| 0 <= i < |rows| && rows[i].authorKey == k;
        assert all[i].authorKey == k;
      }
      var i := ReportRowFor(listings, k);
      TotalsField(all, k, f);
      SumKeyAppend(rows, rows, k, f);
    }
  }

  /** A list reported by two branches is collected as itself twice over. */
  lemma ListedTwice(s: seq<CommitSummary>)
    ensures Contributions(Collected([Some(s), Some(s)])) == Contributions(s) + Contributions(s)
  {
    CollectedAppend([Some(s)], [Some(s)]);
    assert [Some(s)][..0] == [];
    assert [Some(s), Some(s)] == [Some(s)] + [Some(s)];
    ContributionsAppend(s, s);
  }

  /** An author of the collected commits has a row in the report, holding its totals. */
  lemma ReportRowFor(listings: seq<Option<seq<CommitSummary>>>, k: string) returns (i: int)
    requires HasKey(Contributions(Collected(listings)), k)
    ensures var r := RepoReportOf(listings);
            0 <= i < |r| && r[i].authorKey == k && r[i] == Totals(Contributions(Collected(listings)), k)
  {
    RepoReportRows(listings);
    var r := RepoReportOf(listings);
    i :| 0 <= i < |r| && r[i].authorKey == k;
  }

  // ---------------------------------------------------------------------
  // Deduplication across branches, as the documentation of `listCommits` describes it

  function SummaryShas(s: seq<CommitSummary>): set<string>
  {
    set i | 0 <= i < |s| :: s[i].sha
  }

  /** Across the summaries of every branch, of several with one SHA only the first is
      kept; an empty SHA is dropped, as `removeDuplicateCommits` does within a branch. */
  function DedupSummaries(s: seq<CommitSummary>): (out: seq<CommitSummary>)
    ensures SummaryShas(out) == SummaryShas(s) - {""}
    ensures forall i, j :: 0 <= i < j < |out| ==> out[i].sha != out[j].sha
  {
    if s == [] then []
    else
      var init := s[..|s| - 1];
      var x := s[|s| - 1];
      var d := DedupSummaries(init);
      assert SummaryShas(s) == SummaryShas(init) + {x.sha} by {
        assert s == init + [x];
        SummaryShasSnoc(init, x);
      }
      if x.sha == "" || x.sha in SummaryShas(init) then d
      else
        assert SummaryShas(d + [x]) == SummaryShas(d) + {x.sha} by {
          SummaryShasSnoc(d, x);
        }
        assert forall i :: 0 <= i < |d| ==> d[i].sha in SummaryShas(d);
        d + [x]
  }

  lemma SummaryShasSnoc(s: seq<CommitSummary>, x: CommitSummary)
    ensures SummaryShas(s + [x]) == SummaryShas(s) + {x.sha}
  {
    assert forall i :: 0 <= i < |s| ==> (s + [x])[i] == s[i];
    assert (s + [x])[|s|] == x;
  }

  /** The report with the deduplication across branches: a commit listed by several
      branches contributes once. */
  function DedupedRepoReportOf(listings: seq<Option<seq<CommitSummary>>>): seq<AuthorAggregate>
  {
    var all := DedupSummaries(Collected(listings));
    if |all| == 0 then [] else SortDesc(GroupSum(Contributions(all)), ByAdditions)
  }

  /** Summaries whose SHAs were all seen already add nothing to the deduplicated list. */
  lemma {:induction false} DedupAbsorbsSeen(s: seq<CommitSummary>, t: seq<CommitSummary>)
    requires forall i :: 0 <= i < |t| ==> t[i].sha == "" || t[i].sha in SummaryShas(s)
    ensures DedupSummaries(s + t) == DedupSummaries(s)
    decreases |t|
  {
    if t == [] {
      assert s + t == s;
    } else {
      var t' := t[..|t| - 1];
      var x := t[|t| - 1];
      assert (s + t)[..|s + t| - 1] == s + t';
      assert (s + t)[|s + t| - 1] == x;
      DedupAbsorbsSeen(s, t');
      assert x.sha == "" || x.sha in SummaryShas(s + t') by {
        if x.sha != "" {
          var i :| 0 <= i < |s| && s[i].sha == x.sha;
          assert (s + t')[i] == s[i];
        }
      }
    }
  }

  /** With the deduplication across branches, a commit list reported by two branches
      gives the same report as when one branch reports it. */
  lemma CrossBranchCountedOnce(s: seq<CommitSummary>)
    ensures DedupedRepoReportOf([Some(s), Some(s)]) == DedupedRepoReportOf([Some(s)])
  {
    CollectedAppend([Some(s)], [Some(s)]);
    assert [Some(s)][..0] == [];
    assert [Some(s), Some(s)] == [Some(s)] + [Some(s)];
    assert Collected([Some(s)]) == s;
    forall i | 0 <= i < |s|
      ensures s[i].sha == "" || s[i].sha in SummaryShas(s)
    {
    }
    DedupAbsorbsSeen(s, s);
  }
}
