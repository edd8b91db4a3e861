/** `collectOrgReport`: every repository of the organisation is reported on by a pool of
    workers sharing one index; the per-repository rows are kept in `byRepo` and merged
    into one summary sorted by additions. `names[i]` is the i-th repository's name and
    `outcomes[i]` the result of `collectRepoReport` for it: None when it threw. */
module OrgReport {
  import opened Util
  import opened Aggregation
  import Commits

  /** `{byRepo, summary}`, with the insertion order of `byRepo`'s keys made explicit,
      since the merge walks `Object.keys(byRepo)`. */
  datatype OrgReport = OrgReport(byRepo: map<string, seq<AuthorAggregate>>, repoOrder: seq<string>,
                                 summary: seq<AuthorAggregate>)

  /** The rows recorded for one repository: a throwing aggregation records []. */
  function OutcomeRows(o: Option<seq<AuthorAggregate>>): seq<AuthorAggregate>
  {
    match o
    case Some(rows) => rows
    case None => []
  }

  /** `byRepo` once the first |names| indices have been claimed; an empty name is skipped. */
  function ByRepo(names: seq<string>, outcomes: seq<Option<seq<AuthorAggregate>>>): map<string, seq<AuthorAggregate>>
    requires |outcomes| == |names|
  {
    if names == [] then map[]
    else
      var n := |names| - 1;
      var init := ByRepo(names[..n], outcomes[..n]);
      if names[n] == "" then init else init[names[n] := OutcomeRows(outcomes[n])]
  }

  /** The keys of `byRepo` in the order they were first assigned. */
  function RepoOrder(names: seq<string>): seq<string>
  {
    if names == [] then []
    else
      var n := |names| - 1;
      var init := RepoOrder(names[..n]);
      if names[n] == "" || names[n] in init then init else init + [names[n]]
  }

  /** The rows of the repositories in `order`, one repository after the other; a missing
      entry is skipped. */
  function Flatten(order: seq<string>, byRepo: map<string, seq<AuthorAggregate>>): seq<AuthorAggregate>
  {
    if order == [] then []
    else
      var n := |order| - 1;
      Flatten(order[..n], byRepo) + (if order[n] in byRepo then byRepo[order[n]] else [])
  }

  function OrgReportOf(names: seq<string>, outcomes: seq<Option<seq<AuthorAggregate>>>): (r: OrgReport)
    requires |outcomes| == |names|
    ensures SortedDesc(r.summary, ByAdditions)
    ensures forall k :: k in r.byRepo <==> k != "" && k in names
  {
    RepoOrderKeys(names, outcomes);
    if |names| == 0 then OrgReport(map[], [], [])
    else
      var byRepo := ByRepo(names, outcomes);
      var order := RepoOrder(names);
      OrgReport(byRepo, order, SortDesc(GroupSum(Flatten(order, byRepo)), ByAdditions))
  }

  method CollectOrgReport(names: seq<string>, outcomes: seq<Option<seq<AuthorAggregate>>>,
                          repoConcurrency: Option<int>)
    returns (report: OrgReport)
    requires |outcomes| == |names|
    ensures report == OrgReportOf(names, outcomes)
  {
    var workers := Commits.WorkerCount(repoConcurrency, 3);
    if |names| == 0 {
      return OrgReport(map[], [], []);
    }
    var byRepo, order := ClaimRepos(names, outcomes, workers);
    var rows := MergeRows(order, byRepo);
    var grouped := GroupByAuthor(rows);
    var summary := SortDesc(grouped, ByAdditions);
    report := OrgReport(byRepo, order, summary);
  }

  /** The worker pool: each worker claims the next index until the list is used up,
      skips an empty name, and records the repository's rows under its name. */
  method ClaimRepos(names: seq<string>, outcomes: seq<Option<seq<AuthorAggregate>>>, workers: int)
    returns (byRepo: map<string, seq<AuthorAggregate>>, order: seq<string>)
    requires |outcomes| == |names| && workers >= 1
    ensures byRepo == ByRepo(names, outcomes) && order == RepoOrder(names)
  {
    byRepo, order := map[], [];
    var index := 0;
    var w := 0;
    ghost var claimed := 0;
    while w < workers
      invariant 0 <= index && (w > 0 ==> index > |names|)
      invariant claimed == Commits.Claimed(index, |names|)
      invariant byRepo == ByRepo(names[..claimed], outcomes[..claimed])
      invariant order == RepoOrder(names[..claimed])
    {
      while true
        invariant 0 <= index
        invariant claimed == Commits.Claimed(index, |names|)
        invariant byRepo == ByRepo(names[..claimed], outcomes[..claimed])
        invariant order == RepoOrder(names[..claimed])
        decreases |names| + 1 - index
      {
        var i := index;
        index := index + 1;
        if i >= |names| {
          break;
        }
        claimed := i + 1;
        RepoStep(names, outcomes, i);
        var name := names[i];
        if name == "" {
          continue;
        }
        if name !in byRepo {
          order := order + [name];
        }
        byRepo := byRepo[name := OutcomeRows(outcomes[i])];
      }
      w := w + 1;
    }
    assert claimed == |names|;
    assert names[..claimed] == names && outcomes[..claimed] == outcomes;
  }

  /** One more claimed index: a named repository is recorded, and joins the key order
      the first time its name is seen. */
  lemma RepoStep(names: seq<string>, outcomes: seq<Option<seq<AuthorAggregate>>>, i: int)
    requires |outcomes| == |names| && 0 <= i < |names|
    ensures var byRepo := ByRepo(names[..i], outcomes[..i]);
            var order := RepoOrder(names[..i]);
            && ByRepo(names[..i + 1], outcomes[..i + 1])
               == (if names[i] == "" then byRepo else byRepo[names[i] := OutcomeRows(outcomes[i])])
            && RepoOrder(names[..i + 1])
               == (if names[i] == "" || names[i] in byRepo then order else order + [names[i]])
  {
    assert names[..i + 1][..i] == names[..i];
    assert outcomes[..i + 1][..i] == outcomes[..i];
    RepoOrderKeys(names[..i], outcomes[..i]);
  }

  /** The merge walks the repositories in key order and takes each one's rows. */
  method MergeRows(order: seq<string>, byRepo: map<string, seq<AuthorAggregate>>)
    returns (rows: seq<AuthorAggregate>)
    ensures rows == Flatten(order, byRepo)
  {
    rows := [];
    for j := 0 to |order|
      invariant rows == Flatten(order[..j], byRepo)
    {
      assert order[..j + 1][..j] == order[..j];
      var repo := order[j];
      if repo in byRepo {
        rows := rows + byRepo[repo];
      }
    }
    assert order[..|order|] == order;
  }

  /** The key order lists exactly the keys of `byRepo`, each once. */
  lemma {:induction false} RepoOrderKeys(names: seq<string>, outcomes: seq<Option<seq<AuthorAggregate>>>)
    requires |outcomes| == |names|
    ensures forall r :: r in RepoOrder(names) <==> r in ByRepo(names, outcomes)
    ensures forall r :: r in ByRepo(names, outcomes) <==> r != "" && r in names
    ensures Distinct(RepoOrder(names))
  {
    if names != [] {
      var n := |names| - 1;
      RepoOrderKeys(names[..n], outcomes[..n]);
      assert names == names[..n] + [names[n]];
    }
  }

  /** Every listed repository with a non-empty name has an entry, holding the outcome of
      its last occurrence in the listing: [] when its aggregation threw. */
  lemma {:induction false} ByRepoEntry(names: seq<string>, outcomes: seq<Option<seq<AuthorAggregate>>>, i: int)
    requires |outcomes| == |names|
    requires 0 <= i < |names| && names[i] != ""
    requires forall j :: i < j < |names| ==> names[j] != names[i]
    ensures names[i] in ByRepo(names, outcomes)
    ensures ByRepo(names, outcomes)[names[i]] == OutcomeRows(outcomes[i])
    ensures outcomes[i].None? ==> ByRepo(names, outcomes)[names[i]] == []
  {
    var n := |names| - 1;
    if i < n {
      ByRepoEntry(names[..n], outcomes[..n], i);
    }
  }

  lemma {:induction false} FlattenAppend(a: seq<string>, b: seq<string>, m: map<string, seq<AuthorAggregate>>)
    ensures Flatten(a + b, m) == Flatten(a, m) + Flatten(b, m)
  {
    if b == [] {
      assert a + b == a;
    } else {
      var b' := b[..|b| - 1];
      assert (a + b)[..|a + b| - 1] == a + b';
      FlattenAppend(a, b', m);
    }
  }

  /** Listing the repositories in another order permutes the merged rows. */
  lemma {:induction false} FlattenPermutation(a: seq<string>, b: seq<string>, m: map<string, seq<AuthorAggregate>>)
    requires multiset(a) == multiset(b)
    ensures multiset(Flatten(a, m)) == multiset(Flatten(b, m))
    decreases |a|
  {
    if a == [] {
      assert |b| == |multiset(b)| == 0;
    } else {
      var n := |a| - 1;
      var x := a[n];
      assert x in multiset(b);
      var j :| 0 <= j < |b| && b[j] == x;
      var rest := b[..j] + b[j + 1..];
      assert a[..n] + a[n + 1..] == a[..n];
      assert multiset(a[..n]) == multiset(rest) by {
        SpliceMultiset(a, n);
        SpliceMultiset(b, j);
      }
      FlattenPermutation(a[..n], rest, m);
      FlattenSplice(a, n, m);
      FlattenSplice(b, j, m);
    }
  }

  /** The rows of one repository leave the flattened rows when it leaves the order. */
  lemma FlattenSplice(s: seq<string>, i: int, m: map<string, seq<AuthorAggregate>>)
    requires 0 <= i < |s|
    ensures multiset(Flatten(s, m)) == multiset(Flatten(s[..i] + s[i + 1..], m)) + multiset(Flatten([s[i]], m))
  {
    assert s == s[..i] + [s[i]] + s[i + 1..];
    FlattenAppend(s[..i] + [s[i]], s[i + 1..], m);
    FlattenAppend(s[..i], [s[i]], m);
    FlattenAppend(s[..i], s[i + 1..], m);
  }

  /** The merge is a sum: whatever order the repositories finish in (any permutation of
      the key order), each author's totals are the same. */
  lemma MergeOrderIndependent(names: seq<string>, outcomes: seq<Option<seq<AuthorAggregate>>>,
                              finished: seq<string>, k: string, f: Field)
    requires |outcomes| == |names|
    requires multiset(finished) == multiset(RepoOrder(names))
    ensures var byRepo := ByRepo(names, outcomes);
            SumKey(Flatten(finished, byRepo), k, f) == SumKey(Flatten(RepoOrder(names), byRepo), k, f)
  {
    var byRepo := ByRepo(names, outcomes);
    FlattenPermutation(finished, RepoOrder(names), byRepo);
    SumKeyPermutation(Flatten(finished, byRepo), Flatten(RepoOrder(names), byRepo), k, f);
  }

  /** The summary: sorted by additions, one row per distinct author across all `byRepo`
      lists, each row summing that author's rows over every repository. */
  lemma SummaryRows(names: seq<string>, outcomes: seq<Option<seq<AuthorAggregate>>>)
    requires |outcomes| == |names|
    ensures var report := OrgReportOf(names, outcomes);
            var r := report.summary;
            var rows := Flatten(report.repoOrder, report.byRepo);
            SortedDesc(r, ByAdditions)
            && (forall i, j :: 0 <= i < j < |r| ==> r[i].authorKey != r[j].authorKey)
            && (forall k :: HasKey(r, k) <==> HasKey(rows, k))
            && (forall i :: 0 <= i < |r| ==> r[i] == Totals(rows, r[i].authorKey))
  {
    if |names| > 0 {
      SortedGroupSum(Flatten(RepoOrder(names), ByRepo(names, outcomes)), ByAdditions);
    }
  }

  /** An author's merged total is the sum of that author's rows repository by repository. */
  function RepoSum(order: seq<string>, byRepo: map<string, seq<AuthorAggregate>>, k: string, f: Field): int
  {
    if order == [] then 0
    else
      var n := |order| - 1;
      RepoSum(order[..n], byRepo, k, f) + (if order[n] in byRepo then SumKey(byRepo[order[n]], k, f) else 0)
  }

  lemma {:induction false} FlattenSumKey(order: seq<string>, byRepo: map<string, seq<AuthorAggregate>>, k: string, f: Field)
    ensures SumKey(Flatten(order, byRepo), k, f) == RepoSum(order, byRepo, k, f)
  {
    if order != [] {
      var n := |order| - 1;
      FlattenSumKey(order[..n], byRepo, k, f);
      SumKeyAppend(Flatten(order[..n], byRepo), if order[n] in byRepo then byRepo[order[n]] else [], k, f);
    }
  }

  /** Each summary row holds, per field, the sum over the repositories of that author's
      row in each repository's report. */
  lemma SummaryIsSumOverRepos(names: seq<string>, outcomes: seq<Option<seq<AuthorAggregate>>>, i: int, f: Field)
    requires |outcomes| == |names|
    requires 0 <= i < |OrgReportOf(names, outcomes).summary|
    ensures var report := OrgReportOf(names, outcomes);
            FieldOf(report.summary[i], f) == RepoSum(report.repoOrder, report.byRepo, report.summary[i].authorKey, f)
  {
    var report := OrgReportOf(names, outcomes);
    SummaryRows(names, outcomes);
    FlattenSumKey(report.repoOrder, report.byRepo, report.summary[i].authorKey, f);
    match f {
      case Additions =>
      case Deletions =>
      case Total =>
    }
  }
}
