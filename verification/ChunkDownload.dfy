/** `download_chunk`: fetch fragments in parallel, stop at one of two latches,
    and hand what arrived to the erasure decoder.

    The fetches may finish in any order and with any outcome; the main thread
    resumes at any moment after a latch has reached zero. */
module ChunkDownload {
  import opened Sequences

  type Buf = seq<bv8>

  // ------------------------------------------------------------------
  // Choosing what to fetch
  // ------------------------------------------------------------------

  // one entry of the manifest: location (absent when the fragment is lost) with its version
  datatype Entry = Entry(osd: Option<nat>, version: nat)
  type Located = (nat, Entry)      // (fragment id, entry)

  // the accumulating loop of `downloadable`
  function Build(acc: seq<Located>, nones: nat, i: nat, entries: seq<Entry>): (seq<Located>, nat)
    decreases |entries|
  {
    if entries == [] then (Reverse(acc), nones)
    else if entries[0].osd.None? then Build(acc, nones + 1, i + 1, entries[1..])
    else Build([(i, entries[0])] + acc, nones, i + 1, entries[1..])
  }

  function Downloadable(entries: seq<Entry>): (seq<Located>, nat) {
    Build([], 0, 0, entries)
  }

  // the simple form: the entries that have a location, with their positions
  function WithLocation(entries: seq<Entry>, i: nat): seq<Located>
    decreases |entries|
  {
    if entries == [] then []
    else (if entries[0].osd.Some? then [(i, entries[0])] else []) + WithLocation(entries[1..], i + 1)
  }

  lemma {:induction false} BuildIsWithLocation(acc: seq<Located>, nones: nat, i: nat, entries: seq<Entry>)
    ensures var (r, n) := Build(acc, nones, i, entries);
            r == Reverse(acc) + WithLocation(entries, i) && |WithLocation(entries, i)| + n == |entries| + nones
    decreases |entries|
  {
    if entries != [] {
      if entries[0].osd.None? {
        BuildIsWithLocation(acc, nones + 1, i + 1, entries[1..]);
      } else {
        BuildIsWithLocation([(i, entries[0])] + acc, nones, i + 1, entries[1..]);
        ReverseCons((i, entries[0]), acc);
        var rest := WithLocation(entries[1..], i + 1);
        assert Reverse(acc) + [(i, entries[0])] + rest == Reverse(acc) + ([(i, entries[0])] + rest);
      }
    }
  }

  predicate Ascending(xs: seq<Located>) {
    forall i, j :: 0 <= i < j < |xs| ==> xs[i].0 < xs[j].0
  }

  predicate IsLocated(x: Located, entries: seq<Entry>, i: nat) {
    i <= x.0 < i + |entries| && x.1 == entries[x.0 - i] && x.1.osd.Some?
  }

  lemma {:induction false} WithLocationMembers(entries: seq<Entry>, i: nat, x: Located)
    ensures x in WithLocation(entries, i) <==> IsLocated(x, entries, i)
    decreases |entries|
  {
    if entries != [] {
      WithLocationMembers(entries[1..], i + 1, x);
      if i < x.0 < i + |entries| {
        assert entries[1..][x.0 - (i + 1)] == entries[x.0 - i];
      }
    }
  }

  lemma {:induction false} WithLocationAscends(entries: seq<Entry>, i: nat)
    ensures Ascending(WithLocation(entries, i))
    decreases |entries|
  {
    if entries != [] {
      var rest := WithLocation(entries[1..], i + 1);
      WithLocationAscends(entries[1..], i + 1);
      forall j | 0 <= j < |rest|
        ensures i < rest[j].0
      {
        WithLocationMembers(entries[1..], i + 1, rest[j]);
      }
    }
  }

  /** `downloadable` returns exactly the fragments that have a location, in
      fragment order with their own ids, and the number of those that have none. */
  lemma {:induction false} DownloadableSpec(entries: seq<Entry>)
    ensures var (r, nones) := Downloadable(entries);
            && Ascending(r) && |r| + nones == |entries|
            && forall x :: x in r <==> x.0 < |entries| && x.1 == entries[x.0] && x.1.osd.Some?
  {
    BuildIsWithLocation([], 0, 0, entries);
    WithLocationAscends(entries, 0);
    forall x
      ensures x in WithLocation(entries, 0) <==> x.0 < |entries| && x.1 == entries[x.0] && x.1.osd.Some?
    {
      WithLocationMembers(entries, 0, x);
    }
    assert Reverse<Located>([]) + WithLocation(entries, 0) == WithLocation(entries, 0);
  }

  datatype Strategy = AllFragments | LeastAmount

  // does the fragment's OSD live on a preferred node
  predicate Hit(x: Located, preferred: set<nat>) {
    x.1.osd.Some? && x.1.osd.value in preferred
  }

  function Filter(xs: seq<Located>, preferred: set<nat>, want: bool): seq<Located> {
    if xs == [] then []
    else (if Hit(xs[0], preferred) == want then [xs[0]] else []) + Filter(xs[1..], preferred, want)
  }

  // List.sort is stable and compares a 0/1 preference, largest first.
  function SortByPreference(xs: seq<Located>, preferred: set<nat>): seq<Located> {
    Filter(xs, preferred, true) + Filter(xs, preferred, false)
  }

  function Take<T>(n: nat, xs: seq<T>): seq<T> {
    if n <= |xs| then xs[..n] else xs
  }

  datatype Plan = Plan(targets: seq<Located>, successCount: int, failureCount: int)

  function MakePlan(strategy: Strategy, entries: seq<Entry>, k: nat, m: nat, preferred: set<nat>): Plan {
    var (located, nones) := Downloadable(entries);
    match strategy
    case AllFragments => Plan(located, k, m + 1 - nones)
    case LeastAmount => Plan(Take(k, SortByPreference(located, preferred)), k, 1)
  }

  lemma {:induction false} MultisetCons(x: Located, s: seq<Located>)
    ensures multiset([x] + s) == multiset{x} + multiset(s)
  {
  }

  lemma {:induction false} FilterStep(xs: seq<Located>, preferred: set<nat>, want: bool)
    requires xs != []
    ensures Filter(xs, preferred, want)
         == if Hit(xs[0], preferred) == want then [xs[0]] + Filter(xs[1..], preferred, want)
           else Filter(xs[1..], preferred, want)
  {
    assert [] + Filter(xs[1..], preferred, want) == Filter(xs[1..], preferred, want);
  }

  lemma {:induction false} MultisetShuffle(a: multiset<Located>, b: multiset<Located>, c: multiset<Located>)
    ensures (a + b) + c == a + (b + c) && b + (a + c) == a + (b + c)
  {
  }

  lemma {:induction false} FilterSplits(xs: seq<Located>, preferred: set<nat>)
    ensures multiset(Filter(xs, preferred, true)) + multiset(Filter(xs, preferred, false)) == multiset(xs)
    ensures |Filter(xs, preferred, true)| + |Filter(xs, preferred, false)| == |xs|
  {
    if xs != [] {
      var rest := xs[1..];
      assert xs == [xs[0]] + rest;
      FilterSplits(rest, preferred);
      FilterStep(xs, preferred, true);
      FilterStep(xs, preferred, false);
      hide Filter;
      var yes, no := Filter(rest, preferred, true), Filter(rest, preferred, false);
      MultisetCons(xs[0], rest);
      MultisetCons(xs[0], yes);
      MultisetCons(xs[0], no);
      MultisetShuffle(multiset{xs[0]}, multiset(yes), multiset(no));
    }
  }

  lemma {:induction false} FilterHits(xs: seq<Located>, preferred: set<nat>, want: bool)
    ensures forall x :: x in Filter(xs, preferred, want) ==> Hit(x, preferred) == want
  {
    if xs != [] {
      FilterHits(xs[1..], preferred, want);
      FilterStep(xs, preferred, want);
    }
  }

  /** Sorting keeps every fragment and puts the preferred ones in front. */
  lemma {:induction false} SortIsPermutation(xs: seq<Located>, preferred: set<nat>)
    ensures multiset(SortByPreference(xs, preferred)) == multiset(xs)
    ensures |SortByPreference(xs, preferred)| == |xs|
    ensures var ys := SortByPreference(xs, preferred);
            forall i, j :: 0 <= i < j < |ys| && Hit(ys[j], preferred) ==> Hit(ys[i], preferred)
  {
    FilterSplits(xs, preferred);
    FilterHits(xs, preferred, true);
    FilterHits(xs, preferred, false);
    var yes, no := Filter(xs, preferred, true), Filter(xs, preferred, false);
    hide Filter, Hit;
    assert multiset(yes + no) == multiset(yes) + multiset(no);
    forall i | 0 <= i < |yes + no|
      ensures Hit((yes + no)[i], preferred) <==> i < |yes|
    {
      assert (yes + no)[i] in (if i < |yes| then yes else no);
    }
  }

  predicate DistinctIds(xs: seq<Located>) {
    forall i, j :: 0 <= i < j < |xs| ==> xs[i].0 != xs[j].0
  }

  lemma {:induction false} DistinctIdsOfPermutation(xs: seq<Located>, ys: seq<Located>)
    requires Ascending(xs) && multiset(xs) == multiset(ys)
    ensures DistinctIds(ys)
  {
    forall i, j | 0 <= i < j < |ys|
      ensures ys[i].0 != ys[j].0
    {
      assert ys[i] in multiset(ys) && ys[j] in multiset(ys);
      var a :| 0 <= a < |xs| && xs[a] == ys[i];
      var b :| 0 <= b < |xs| && xs[b] == ys[j];
      AscendingOnce(xs, a);
      CountOfTwo(ys, i, j);
    }
  }

  lemma {:induction false} CountOfTwo(ys: seq<Located>, i: nat, j: nat)
    requires i < j < |ys|
    ensures ys[i] == ys[j] ==> multiset(ys)[ys[i]] >= 2
  {
    assert ys == ys[..j] + ys[j..];
    assert multiset(ys[..j] + ys[j..])[ys[i]] == multiset(ys[..j])[ys[i]] + multiset(ys[j..])[ys[i]];
    assert ys[..j][i] == ys[i] && ys[j..][0] == ys[j];
    assert ys[i] in multiset(ys[..j]) && ys[j] in multiset(ys[j..]);
  }

  lemma {:induction false} AscendingOnce(xs: seq<Located>, a: nat)
    requires Ascending(xs) && a < |xs|
    ensures multiset(xs)[xs[a]] == 1
  {
    assert xs == xs[..a] + [xs[a]] + xs[a + 1..];
    assert xs[a] !in xs[..a] && xs[a] !in xs[a + 1..];
  }

  // Both strategies fetch distinct, located fragments of the chunk.
  lemma {:induction false} PlanTargets(strategy: Strategy, entries: seq<Entry>, k: nat, m: nat, preferred: set<nat>)
    ensures var p := MakePlan(strategy, entries, k, m, preferred);
            var nones := Downloadable(entries).1;
            && DistinctIds(p.targets)
            && (forall x :: x in p.targets ==> x.0 < |entries| && x.1 == entries[x.0] && x.1.osd.Some?)
            && nones <= |entries|
            && |p.targets| == (if strategy.AllFragments? || |entries| - nones <= k then |entries| - nones else k)
  {
    DownloadableSpec(entries);
    var located := Downloadable(entries).0;
    if strategy.LeastAmount? {
      var sorted := SortByPreference(located, preferred);
      SortIsPermutation(located, preferred);
      DistinctIdsOfPermutation(located, sorted);
      forall x | x in sorted
        ensures x in located
      {
        assert x in multiset(sorted);
      }
    }
  }

  // x is fetched rather than y: preferred first, and lower fragment ids first among equals
  predicate Before(x: Located, y: Located, preferred: set<nat>) {
    if Hit(x, preferred) == Hit(y, preferred) then x.0 < y.0 else Hit(x, preferred)
  }

  lemma {:induction false} FilterMembers(xs: seq<Located>, preferred: set<nat>, want: bool)
    ensures forall x :: x in Filter(xs, preferred, want) ==> x in xs
  {
    if xs != [] {
      FilterMembers(xs[1..], preferred, want);
      FilterStep(xs, preferred, want);
    }
  }

  lemma {:induction false} FilterAscends(xs: seq<Located>, preferred: set<nat>, want: bool)
    requires Ascending(xs)
    ensures Ascending(Filter(xs, preferred, want))
  {
    if xs != [] {
      AscendingTail(xs);
      FilterAscends(xs[1..], preferred, want);
      FilterMembers(xs[1..], preferred, want);
      FilterStep(xs, preferred, want);
      hide Filter, Ascending;
      AscendingCons(xs[0], Filter(xs[1..], preferred, want));
    }
  }

  lemma {:induction false} AscendingTail(xs: seq<Located>)
    requires Ascending(xs) && xs != []
    ensures Ascending(xs[1..]) && forall x :: x in xs[1..] ==> xs[0].0 < x.0
  {
    assert forall i :: 0 <= i < |xs[1..]| ==> xs[1..][i] == xs[i + 1];
  }

  lemma {:induction false} AscendingCons(x: Located, xs: seq<Located>)
    requires Ascending(xs) && forall y :: y in xs ==> x.0 < y.0
    ensures Ascending([x] + xs)
  {
    forall i | 0 <= i < |xs|
      ensures x.0 < xs[i].0
    {
      assert xs[i] in xs;
    }
  }

  lemma {:induction false} SortedByPreference(xs: seq<Located>, preferred: set<nat>)
    requires Ascending(xs)
    ensures var ys := SortByPreference(xs, preferred);
            forall i, j :: 0 <= i < j < |ys| ==> Before(ys[i], ys[j], preferred)
  {
    var yes, no := Filter(xs, preferred, true), Filter(xs, preferred, false);
    FilterHits(xs, preferred, true);
    FilterHits(xs, preferred, false);
    FilterAscends(xs, preferred, true);
    FilterAscends(xs, preferred, false);
    hide Filter, Hit;
    forall i, j | 0 <= i < j < |yes + no|
      ensures Before((yes + no)[i], (yes + no)[j], preferred)
    {
      assert (yes + no)[i] in (if i < |yes| then yes else no);
      assert (yes + no)[j] in (if j < |yes| then yes else no);
    }
  }

  lemma {:induction false} LeftOut(n: nat, ys: seq<Located>, y: Located) returns (j: nat)
    requires y in ys && y !in Take(n, ys)
    ensures |Take(n, ys)| <= j < |ys| && ys[j] == y
  {
    var tail := ys[|Take(n, ys)|..];
    assert ys == Take(n, ys) + tail;
    var i :| 0 <= i < |tail| && tail[i] == y;
    j := |Take(n, ys)| + i;
  }

  /** The least-amount strategy fetches the best located fragments there are: none that is left out is
      preferred to one that is fetched, and among equals the lower ids go first. */
  lemma {:induction false} LeastAmountTakesTheBest(entries: seq<Entry>, k: nat, m: nat, preferred: set<nat>, x: Located,
                                                   y: Located)
    ensures var targets := MakePlan(LeastAmount, entries, k, m, preferred).targets;
            && (forall i, j :: 0 <= i < j < |targets| ==> Before(targets[i], targets[j], preferred))
            && (x in targets && y !in targets && IsLocated(y, entries, 0) ==> Before(x, y, preferred))
  {
    var located := Downloadable(entries).0;
    DownloadableSpec(entries);
    SortedByPreference(located, preferred);
    SortIsPermutation(located, preferred);
    var ys := SortByPreference(located, preferred);
    hide SortByPreference, Downloadable, Before;
    var targets := Take(k, ys);
    if x in targets && y !in targets && IsLocated(y, entries, 0) {
      assert y in located;
      assert y in multiset(ys);
      var i :| 0 <= i < |targets| && targets[i] == x;
      var j := LeftOut(k, ys, y);
      assert ys[i] == x;
    }
  }

  // ------------------------------------------------------------------
  // The race
  // ------------------------------------------------------------------

  // `fetching` are the downloads in progress; `arrived` and `failed` the ids whose
  // download ended well or not; `fragments` the hash table; `released` every
  // unregister_usage done on a fragment's buffer by download_chunk itself.
  datatype Outcome = Waiting | NotEnoughFragments | Gathering

  datatype State = State(
    fetching: set<nat>,
    arrived: set<nat>,
    failed: set<nat>,
    fragments: map<nat, Buf>,
    successes: nat,
    failures: nat,
    finito: bool,
    outcome: Outcome,
    released: multiset<nat>)

  function Ids(targets: seq<Located>): set<nat> {
    set x | x in targets :: x.0
  }

  // CountDownLatch.create asserts that its count is not negative.
  predicate LatchesOk(p: Plan) {
    p.successCount >= 0 && p.failureCount >= 0
  }

  function Start(p: Plan): State
    requires LatchesOk(p)
  {
    State(Ids(p.targets), {}, {}, map[], p.successCount, p.failureCount, false, Waiting, multiset{})
  }

  datatype Event =
    | Succeed(id: nat, data: Buf)
    | Fail(id: nat)
    | Resume

  function CountDown(needed: nat): nat {
    if needed != 0 then needed - 1 else 0
  }

  predicate Enabled(s: State, e: Event) {
    match e
    case Succeed(id, _) => id in s.fetching
    case Fail(id) => id in s.fetching
    case Resume => !s.finito && (s.successes == 0 || s.failures == 0)
  }

  function Step(s: State, e: Event, k: nat): State
    requires Enabled(s, e)
  {
    match e
    case Succeed(id, data) =>
      var t := s.(fetching := s.fetching - {id}, arrived := s.arrived + {id});
      if s.finito then t.(released := s.released + multiset{id})
      else t.(fragments := s.fragments[id := data], successes := CountDown(s.successes))
    case Fail(id) =>
      s.(fetching := s.fetching - {id}, failed := s.failed + {id}, failures := CountDown(s.failures))
    case Resume =>
      if |s.fragments| < k then
        s.(finito := true, outcome := NotEnoughFragments, released := s.released + multiset(s.fragments.Keys))
      else
        s.(finito := true, outcome := Gathering)
  }

  predicate Runs(s: State, es: seq<Event>, k: nat)
    decreases |es|
  {
    es == [] || (Enabled(s, es[0]) && Runs(Step(s, es[0], k), es[1..], k))
  }

  function After(s: State, es: seq<Event>, k: nat): State
    requires Runs(s, es, k)
    decreases |es|
  {
    if es == [] then s else After(Step(s, es[0], k), es[1..], k)
  }

  function Minus(a: nat, b: nat): nat {
    if b <= a then a - b else 0
  }

  // which buffers download_chunk has given back so far
  function GivenBack(s: State): set<nat> {
    match s.outcome
    case Waiting => {}
    case NotEnoughFragments => s.arrived
    case Gathering => s.arrived - s.fragments.Keys
  }

  // every target is being fetched, has arrived or has failed, and only one of these
  ghost predicate SplitInv(s: State, ids: set<nat>) {
    && (forall i :: i in ids <==> i in s.fetching || i in s.arrived || i in s.failed)
    && (forall i :: i in s.fetching ==> i !in s.arrived && i !in s.failed)
    && (forall i :: i in s.arrived ==> i !in s.failed)
    && (forall i :: i in s.fragments ==> i in s.arrived)
    && (!s.finito ==> forall i :: i in s.arrived ==> i in s.fragments)
  }

  ghost predicate LatchInv(s: State, p: Plan, k: nat)
    requires LatchesOk(p)
  {
    && s.successes == Minus(p.successCount, |s.fragments|)
    && s.failures == Minus(p.failureCount, |s.failed|)
    && (s.finito <==> s.outcome != Waiting)
    && (s.finito ==> s.successes == 0 || s.failures == 0)
    && (s.outcome.NotEnoughFragments? ==> |s.fragments| < k)
    && (s.outcome.Gathering? ==> |s.fragments| >= k)
  }

  ghost predicate ReleaseInv(s: State) {
    forall i :: s.released[i] == if i in GivenBack(s) then 1 else 0
  }

  ghost predicate Inv(s: State, p: Plan, k: nat)
    requires LatchesOk(p)
  {
    SplitInv(s, Ids(p.targets)) && LatchInv(s, p, k) && ReleaseInv(s)
  }

  lemma {:induction false} StepKeepsSplit(s: State, e: Event, k: nat, ids: set<nat>)
    requires SplitInv(s, ids) && Enabled(s, e)
    ensures SplitInv(Step(s, e, k), ids)
  {
  }

  lemma {:induction false} StepKeepsLatches(s: State, e: Event, p: Plan, k: nat)
    requires LatchesOk(p) && SplitInv(s, Ids(p.targets)) && LatchInv(s, p, k) && Enabled(s, e)
    ensures LatchInv(Step(s, e, k), p, k)
  {
    match e
    case Succeed(id, data) => assert id !in s.fragments;
    case Fail(id) => assert id !in s.failed;
    case Resume =>
  }

  lemma {:induction false} StepKeepsReleases(s: State, e: Event, p: Plan, k: nat)
    requires LatchesOk(p) && Inv(s, p, k) && Enabled(s, e)
    ensures ReleaseInv(Step(s, e, k))
  {
    var t := Step(s, e, k);
    match e
    case Succeed(id, data) =>
      assert id !in s.fragments && id !in GivenBack(s);
    case Fail(id) =>
    case Resume =>
      assert forall i :: multiset(s.fragments.Keys)[i] == if i in s.fragments then 1 else 0;
      assert GivenBack(s) == {};
  }

  lemma {:induction false} StepKeepsInv(s: State, e: Event, p: Plan, k: nat)
    requires LatchesOk(p) && Inv(s, p, k) && Enabled(s, e)
    ensures Inv(Step(s, e, k), p, k)
  {
    StepKeepsSplit(s, e, k, Ids(p.targets));
    StepKeepsLatches(s, e, p, k);
    StepKeepsReleases(s, e, p, k);
  }

  lemma {:induction false} RunKeepsInv(s: State, es: seq<Event>, p: Plan, k: nat)
    requires LatchesOk(p) && Inv(s, p, k) && Runs(s, es, k)
    ensures Inv(After(s, es, k), p, k)
    decreases |es|
  {
    if es != [] {
      StepKeepsInv(s, es[0], p, k);
      RunKeepsInv(Step(s, es[0], k), es[1..], p, k);
    }
  }

  lemma {:induction false} IdsCount(targets: seq<Located>)
    requires DistinctIds(targets)
    ensures |Ids(targets)| == |targets|
  {
    if targets == [] {
      assert Ids(targets) == {};
    } else {
      var rest := targets[1..];
      assert forall i :: 0 <= i < |rest| ==> rest[i] == targets[i + 1];
      IdsCount(rest);
      assert forall x :: x in targets <==> x == targets[0] || x in rest;
      assert Ids(targets) == {targets[0].0} + Ids(rest);
      assert targets[0].0 !in Ids(rest);
    }
  }

  lemma {:induction false} SplitSizes(a: set<nat>, b: set<nat>, c: set<nat>)
    requires a !! b && a !! c && b !! c
    ensures |a + b + c| == |a| + |b| + |c|
  {
    assert |a + b| == |a| + |b|;
    assert |(a + b) + c| == |a + b| + |c|;
  }

  lemma {:induction false} KeysSize<V>(m: map<nat, V>)
    ensures |m.Keys| == |m|
  {
  }

  lemma {:induction false} SplitCounts(s: State, ids: set<nat>)
    requires SplitInv(s, ids)
    ensures |s.fetching| + |s.arrived| + |s.failed| == |ids|
    ensures |s.fragments| <= |s.arrived| && (!s.finito ==> |s.fragments| == |s.arrived|)
  {
    assert s.fetching + s.arrived + s.failed == ids && s.fragments.Keys <= s.arrived;
    assert !s.finito ==> s.fragments.Keys == s.arrived;
    SplitSizes(s.fetching, s.arrived, s.failed);
    hide SplitInv;
    SubsetSize(s.fragments.Keys, s.arrived);
    KeysSize(s.fragments);
  }

  // The bookkeeping of a run from the start of a plan.
  lemma {:induction false} RunFacts(p: Plan, es: seq<Event>, k: nat)
    requires LatchesOk(p) && Runs(Start(p), es, k) && DistinctIds(p.targets)
    ensures var t := After(Start(p), es, k);
            && Inv(t, p, k) && |t.fetching| + |t.arrived| + |t.failed| == |p.targets|
            && |t.fragments| <= |t.arrived| && (!t.finito ==> |t.fragments| == |t.arrived|)
  {
    RunKeepsInv(Start(p), es, p, k);
    SplitCounts(After(Start(p), es, k), Ids(p.targets));
    IdsCount(p.targets);
  }

  lemma {:induction false} SubsetSize(a: set<nat>, b: set<nat>)
    requires a <= b
    ensures |a| <= |b|
  {
    assert b == a + (b - a);
    assert |b| == |a| + |b - a|;
  }

  ghost predicate ExactlyOneLatch(s: State) {
    (s.successes == 0) != (s.failures == 0)
  }

  /** When every fetch has finished, exactly one latch has been reached, provided
      that the failure latch counts what may be missing: targets - k + 1. */
  lemma {:induction false} BalancedLatches(p: Plan, es: seq<Event>, k: nat)
    requires LatchesOk(p) && Runs(Start(p), es, k) && DistinctIds(p.targets)
    requires p.successCount == k && p.failureCount == |p.targets| - k + 1
    ensures var t := After(Start(p), es, k);
            && (t.fetching == {} ==> ExactlyOneLatch(t))
            && (t.outcome.Gathering? ==> t.successes == 0 && t.failures > 0)
            && (t.outcome.NotEnoughFragments? ==> t.failures == 0 && t.successes > 0)
  {
    RunFacts(p, es, k);
  }

  /** Both strategies, any order of outcomes: when no fetch is left exactly one
      latch has been reached - if and only if the strategy is AllFragments, or
      there are enough located fragments, or some fetch failed. */
  lemma {:induction false} LatchRaceDecided(strategy: Strategy, entries: seq<Entry>, k: nat, m: nat,
                                            preferred: set<nat>, es: seq<Event>)
    requires |entries| == k + m
    requires LatchesOk(MakePlan(strategy, entries, k, m, preferred))
    requires Runs(Start(MakePlan(strategy, entries, k, m, preferred)), es, k)
    requires After(Start(MakePlan(strategy, entries, k, m, preferred)), es, k).fetching == {}
    ensures var t := After(Start(MakePlan(strategy, entries, k, m, preferred)), es, k);
            ExactlyOneLatch(t) <==>
            strategy.AllFragments? || Downloadable(entries).1 <= m || t.failed != {}
  {
    PlanTargets(strategy, entries, k, m, preferred);
    var p := MakePlan(strategy, entries, k, m, preferred);
    RunFacts(p, es, k);
    if strategy.AllFragments? || Downloadable(entries).1 <= m {
      BalancedLatches(p, es, k);
    }
  }

  // AllFragments refuses to start (the latch's assertion) exactly when more than m+1 fragments are lost.
  lemma {:induction false} LatchAssertion(strategy: Strategy, entries: seq<Entry>, k: nat, m: nat, preferred: set<nat>)
    requires |entries| == k + m
    ensures LatchesOk(MakePlan(strategy, entries, k, m, preferred)) <==>
            strategy.LeastAmount? || Downloadable(entries).1 <= m + 1
  {
  }

  // the fetches of the targets end well, one after the other
  function AllSucceed(targets: seq<Located>): (es: seq<Event>)
    ensures |es| == |targets|
  {
    if targets == [] then [] else [Succeed(targets[0].0, [])] + AllSucceed(targets[1..])
  }

  lemma {:induction false} IdsSplit(targets: seq<Located>)
    requires DistinctIds(targets) && targets != []
    ensures DistinctIds(targets[1..]) && targets[0].0 in Ids(targets)
    ensures Ids(targets) - {targets[0].0} == Ids(targets[1..])
  {
    var rest := targets[1..];
    assert forall i :: 0 <= i < |rest| ==> rest[i] == targets[i + 1];
    assert forall x :: x in targets <==> x == targets[0] || x in rest;
  }

  lemma {:induction false} AllSucceedRuns(s: State, targets: seq<Located>, k: nat)
    requires DistinctIds(targets) && s.fetching == Ids(targets)
    ensures Runs(s, AllSucceed(targets), k)
    ensures After(s, AllSucceed(targets), k).fetching == {} && After(s, AllSucceed(targets), k).failed == s.failed
    ensures After(s, AllSucceed(targets), k).finito == s.finito
    decreases |targets|
  {
    if targets == [] {
      assert Ids(targets) == {};
    } else {
      IdsSplit(targets);
      var e := Succeed(targets[0].0, []);
      assert AllSucceed(targets)[0] == e && AllSucceed(targets)[1..] == AllSucceed(targets[1..]);
      AllSucceedRuns(Step(s, e, k), targets[1..], k);
    }
  }

  // whatever the outcomes and their order, one latch is reached when the last fetch has ended
  ghost predicate AlwaysDecided(p: Plan, k: nat)
    requires LatchesOk(p)
  {
    forall es :: Runs(Start(p), es, k) && After(Start(p), es, k).fetching == {}
      ==> ExactlyOneLatch(After(Start(p), es, k))
  }

  /** Known before the call: every run reaches exactly one latch if and only if all fragments are
      asked for or at most m have no location. */
  lemma {:induction false} AlwaysDecidedIff(strategy: Strategy, entries: seq<Entry>, k: nat, m: nat,
                                            preferred: set<nat>)
    requires |entries| == k + m
    requires LatchesOk(MakePlan(strategy, entries, k, m, preferred))
    ensures AlwaysDecided(MakePlan(strategy, entries, k, m, preferred), k) <==>
            strategy.AllFragments? || Downloadable(entries).1 <= m
  {
    var p := MakePlan(strategy, entries, k, m, preferred);
    if strategy.AllFragments? || Downloadable(entries).1 <= m {
      forall es | Runs(Start(p), es, k) && After(Start(p), es, k).fetching == {}
        ensures ExactlyOneLatch(After(Start(p), es, k))
      {
        LatchRaceDecided(strategy, entries, k, m, preferred, es);
      }
    } else {
      LeastAmountHangs(entries, k, m, preferred);
    }
  }

  /** And then a finished race was won if and only if at least k fetches ended well, however late. */
  lemma {:induction false} WonIffEnoughArrived(strategy: Strategy, entries: seq<Entry>, k: nat, m: nat,
                                               preferred: set<nat>, es: seq<Event>)
    requires |entries| == k + m && (strategy.AllFragments? || Downloadable(entries).1 <= m)
    requires LatchesOk(MakePlan(strategy, entries, k, m, preferred))
    requires Runs(Start(MakePlan(strategy, entries, k, m, preferred)), es, k)
    requires var t := After(Start(MakePlan(strategy, entries, k, m, preferred)), es, k); t.fetching == {} && t.finito
    ensures var t := After(Start(MakePlan(strategy, entries, k, m, preferred)), es, k);
            t.outcome.Gathering? <==> |t.arrived| >= k
  {
    PlanTargets(strategy, entries, k, m, preferred);
    var p := MakePlan(strategy, entries, k, m, preferred);
    RunFacts(p, es, k);
    BalancedLatches(p, es, k);
  }

  /** The other case: with fewer than k located fragments, the run of LeastAmount in which every
      fetch ends well is the one that never resumes. */
  lemma {:induction false} LeastAmountHangs(entries: seq<Entry>, k: nat, m: nat, preferred: set<nat>)
    requires |entries| == k + m && Downloadable(entries).1 > m
    ensures var p := MakePlan(LeastAmount, entries, k, m, preferred);
            && LatchesOk(p) && Runs(Start(p), AllSucceed(p.targets), k)
            && var t := After(Start(p), AllSucceed(p.targets), k);
               t.fetching == {} && !Enabled(t, Resume) && t.outcome.Waiting? && !ExactlyOneLatch(t)
  {
    var p := MakePlan(LeastAmount, entries, k, m, preferred);
    PlanTargets(LeastAmount, entries, k, m, preferred);
    AllSucceedRuns(Start(p), p.targets, k);
    LatchRaceDecided(LeastAmount, entries, k, m, preferred, AllSucceed(p.targets));
    RunFacts(p, AllSucceed(p.targets), k);
  }

  /** Every buffer that arrived is unregistered by download_chunk exactly once, or
      stays in the hash table for the caller - never both, also when it arrives
      after `finito` - once the main thread has resumed. */
  lemma {:induction false} BuffersGivenBackOnce(p: Plan, es: seq<Event>, k: nat, id: nat)
    requires LatchesOk(p) && Runs(Start(p), es, k) && DistinctIds(p.targets)
    requires id in After(Start(p), es, k).arrived && After(Start(p), es, k).finito
    ensures var t := After(Start(p), es, k);
            t.released[id] == if t.outcome.Gathering? && id in t.fragments then 0 else 1
  {
    RunFacts(p, es, k);
  }
}
