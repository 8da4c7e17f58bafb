/** `deliver_osd_messages_deduped` for one OSD: concurrent callers share delivery rounds.

    The first caller finds no table entry, installs an empty one and leads a
    round.  Callers that find an entry only add a waker to it.  When the
    leader's round returns (or its 5 second timeout fires, the round itself
    going on) the leader's `finalize` starts a second round for the collected
    wakers, or removes the entry when there are none.  Nothing cleans up after
    that second round. */
module DedupedDelivery {
  import opened Sequences

  type Waiter = nat
  type RoundId = nat

  datatype Outcome = Running | Succeeded | Failed

  datatype Round = Round(start: nat, wakers: seq<Waiter>, outcome: Outcome)

  // `now` counts steps.  `registered` and `wakes` are history: when a waiter
  // entered the table, and every Lwt.wakeup performed on it (with its outcome
  // and the round that did it).
  datatype Wake = Wake(round: RoundId, ok: bool)

  datatype State = State(
    now: nat,
    entry: Option<seq<Waiter>>,
    leader: Option<RoundId>,
    rounds: seq<Round>,
    registered: map<Waiter, nat>,
    wakes: map<Waiter, seq<Wake>>)

  predicate Init(s: State) {
    s == State(0, None, None, [], map[], map[])
  }

  datatype Event =
    | Call(w: Waiter)                   // deliver_osd_messages_deduped is called
    | Finish(r: RoundId, ok: bool)      // deliver_osd_messages of round r returns or fails
    | Finalize                          // the leader's round returned or timed out

  predicate Enabled(s: State, e: Event) {
    match e
    case Call(w) => w !in s.registered
    case Finish(r, _) => r < |s.rounds| && s.rounds[r].outcome.Running?
    case Finalize => s.leader.Some?
  }

  function AddWake(wakes: map<Waiter, seq<Wake>>, ws: seq<Waiter>, k: Wake): map<Waiter, seq<Wake>>
    decreases |ws|
  {
    if ws == [] then wakes
    else
      var prior := if ws[0] in wakes then wakes[ws[0]] else [];
      AddWake(wakes[ws[0] := prior + [k]], ws[1..], k)
  }

  function Step(s: State, e: Event): State
    requires Enabled(s, e)
  {
    var t := s.(now := s.now + 1);
    match e
    case Call(w) => (
      match s.entry
      case None =>
        t.(entry := Some([]), leader := Some(|s.rounds|),
           rounds := s.rounds + [Round(s.now, [], Running)])
      case Some(ws) =>
        t.(entry := Some([w] + ws), registered := s.registered[w := s.now])
      )
    case Finish(r, ok) =>
      t.(rounds := s.rounds[r := s.rounds[r].(outcome := if ok then Succeeded else Failed)],
         wakes := AddWake(s.wakes, s.rounds[r].wakers, Wake(r, ok)))
    case Finalize =>
      var ws := if s.entry.Some? then s.entry.value else [];
      if ws != [] then
        t.(entry := Some([]), leader := None,
           rounds := s.rounds + [Round(s.now, ws, Running)])
      else
        t.(entry := None, leader := None)
  }

  predicate Runs(s: State, es: seq<Event>)
    decreases |es|
  {
    es == [] || (Enabled(s, es[0]) && Runs(Step(s, es[0]), es[1..]))
  }

  function After(s: State, es: seq<Event>): State
    requires Runs(s, es)
    decreases |es|
  {
    if es == [] then s else After(Step(s, es[0]), es[1..])
  }

  // ------------------------------------------------------------------
  // Invariant
  // ------------------------------------------------------------------

  predicate InEntry(s: State, w: Waiter) {
    s.entry.Some? && w in s.entry.value
  }

  predicate InRound(s: State, r: nat, w: Waiter)
    requires r < |s.rounds|
  {
    w in s.rounds[r].wakers
  }

  function WakesOf(s: State, w: Waiter): seq<Wake> {
    if w in s.wakes then s.wakes[w] else []
  }

  // the wakes round r owes or has given its wakers
  function Owed(s: State, r: nat): seq<Wake>
    requires r < |s.rounds|
  {
    match s.rounds[r].outcome
    case Running => []
    case Succeeded => [Wake(r, true)]
    case Failed => [Wake(r, false)]
  }

  predicate RoundOk(s: State, r: nat)
    requires r < |s.rounds|
  {
    && s.rounds[r].start < s.now
    && NoDup(s.rounds[r].wakers)
    && forall w :: w in s.rounds[r].wakers ==>
         && w in s.registered && s.registered[w] < s.rounds[r].start
         && !InEntry(s, w)
         && WakesOf(s, w) == Owed(s, r)
  }

  ghost predicate Inv(s: State) {
    && (s.leader.Some? ==> s.entry.Some?)
    && (s.entry.Some? ==> NoDup(s.entry.value))
    && (forall w :: InEntry(s, w) ==> w in s.registered && WakesOf(s, w) == [])
    && (forall w :: w in s.registered ==> s.registered[w] < s.now)
    && (forall w :: w !in s.registered ==> WakesOf(s, w) == [])
    && (forall r :: 0 <= r < |s.rounds| ==> RoundOk(s, r))
    && (forall r, q, w :: 0 <= r < |s.rounds| && 0 <= q < |s.rounds| && InRound(s, r, w) && InRound(s, q, w) ==> r == q)
  }

  lemma {:induction false} AddWakeOf(wakes: map<Waiter, seq<Wake>>, ws: seq<Waiter>, k: Wake, w: Waiter)
    requires NoDup(ws)
    ensures var t := AddWake(wakes, ws, k);
            (if w in t then t[w] else []) ==
            (if w in wakes then wakes[w] else []) + (if w in ws then [k] else [])
    decreases |ws|
  {
    if ws != [] {
      var prior := if ws[0] in wakes then wakes[ws[0]] else [];
      assert NoDup(ws[1..]) by {
        assert forall i :: 0 <= i < |ws[1..]| ==> ws[1..][i] == ws[i + 1];
      }
      assert w in ws <==> w == ws[0] || w in ws[1..];
      assert ws[0] !in ws[1..];
      AddWakeOf(wakes[ws[0] := prior + [k]], ws[1..], k, w);
    }
  }

  lemma {:induction false} CallKeepsInv(s: State, w: Waiter)
    requires Inv(s) && Enabled(s, Call(w))
    ensures Inv(Step(s, Call(w)))
  {
    var t := Step(s, Call(w));
    forall r | 0 <= r < |t.rounds|
      ensures RoundOk(t, r)
    {
      if r < |s.rounds| {
        assert RoundOk(s, r);
        assert forall v :: InEntry(t, v) ==> InEntry(s, v) || v == w;
      }
    }
    if s.entry.Some? {
      forall v | InEntry(t, v)
        ensures v in t.registered && WakesOf(t, v) == []
      {
        assert v == w || InEntry(s, v);
      }
      assert forall v :: v in s.entry.value ==> InEntry(s, v);
    }
    assert forall r, v :: 0 <= r < |s.rounds| ==> (InRound(t, r, v) <==> InRound(s, r, v));
  }

  lemma {:induction false} FinishWakes(s: State, r: RoundId, ok: bool, w: Waiter)
    requires Inv(s) && Enabled(s, Finish(r, ok))
    ensures WakesOf(Step(s, Finish(r, ok)), w) == WakesOf(s, w) + (if InRound(s, r, w) then [Wake(r, ok)] else [])
  {
    assert RoundOk(s, r);
    AddWakeOf(s.wakes, s.rounds[r].wakers, Wake(r, ok), w);
  }

  lemma {:induction false} FinishKeepsRounds(s: State, r: RoundId, ok: bool, q: RoundId)
    requires Inv(s) && Enabled(s, Finish(r, ok)) && q < |s.rounds|
    ensures RoundOk(Step(s, Finish(r, ok)), q)
  {
    var t := Step(s, Finish(r, ok));
    assert RoundOk(s, q);
    forall w | w in t.rounds[q].wakers
      ensures WakesOf(t, w) == Owed(t, q)
    {
      FinishWakes(s, r, ok, w);
      assert InRound(s, q, w);
    }
  }

  lemma {:induction false} FinishKeepsInv(s: State, r: RoundId, ok: bool)
    requires Inv(s) && Enabled(s, Finish(r, ok))
    ensures Inv(Step(s, Finish(r, ok)))
  {
    var t := Step(s, Finish(r, ok));
    forall q | 0 <= q < |t.rounds|
      ensures RoundOk(t, q)
    {
      FinishKeepsRounds(s, r, ok, q);
    }
    forall w | InEntry(t, w) || w !in t.registered
      ensures WakesOf(t, w) == []
    {
      assert RoundOk(s, r);
      FinishWakes(s, r, ok, w);
    }
    assert forall q, v :: 0 <= q < |s.rounds| ==> (InRound(t, q, v) <==> InRound(s, q, v));
  }

  lemma {:induction false} FinalizeKeepsInv(s: State)
    requires Inv(s) && Enabled(s, Finalize)
    ensures Inv(Step(s, Finalize))
  {
    var t := Step(s, Finalize);
    var ws := s.entry.value;
    assert forall w :: w in ws ==> InEntry(s, w);
    forall r | 0 <= r < |t.rounds|
      ensures RoundOk(t, r)
    {
      if r < |s.rounds| {
        assert RoundOk(s, r);
      }
    }
    forall r, q, w | 0 <= r < |t.rounds| && 0 <= q < |t.rounds| && InRound(t, r, w) && InRound(t, q, w)
      ensures r == q
    {
      if r < |s.rounds| { assert RoundOk(s, r) && InRound(s, r, w); }
      if q < |s.rounds| { assert RoundOk(s, q) && InRound(s, q, w); }
    }
  }

  lemma {:induction false} StepKeepsInv(s: State, e: Event)
    requires Inv(s) && Enabled(s, e)
    ensures Inv(Step(s, e))
  {
    match e
    case Call(w) => CallKeepsInv(s, w);
    case Finish(r, ok) => FinishKeepsInv(s, r, ok);
    case Finalize => FinalizeKeepsInv(s);
  }

  lemma {:induction false} RunKeepsInv(s: State, es: seq<Event>)
    requires Inv(s) && Runs(s, es)
    ensures Inv(After(s, es))
    decreases |es|
  {
    if es != [] {
      StepKeepsInv(s, es[0]);
      RunKeepsInv(Step(s, es[0]), es[1..]);
    }
  }

  // ------------------------------------------------------------------
  // What every run guarantees
  // ------------------------------------------------------------------

  /** In every run a waiter belongs to at most one round, is woken at most once,
      never both waits in the table and has been woken; and when it is woken with
      success, the delivery round that woke it started after the waiter registered
      and has completed successfully. */
  lemma {:induction false} WakeMeansLaterRound(s: State, es: seq<Event>, w: Waiter)
    requires Init(s) && Runs(s, es)
    requires w in After(s, es).registered
    ensures var t := After(s, es);
            && |WakesOf(t, w)| <= 1
            && (InEntry(t, w) ==> WakesOf(t, w) == [])
            && (forall r, q :: 0 <= r < |t.rounds| && 0 <= q < |t.rounds| && InRound(t, r, w) && InRound(t, q, w) ==>
                  r == q)
            && (forall k :: k in WakesOf(t, w) ==>
                  && k.round < |t.rounds| && InRound(t, k.round, w)
                  && t.registered[w] < t.rounds[k.round].start
                  && (k.ok <==> t.rounds[k.round].outcome.Succeeded?))
  {
    RunKeepsInv(s, es);
    WakersHoldTheWakes(s, es, w);
    var t := After(s, es);
    if WakesOf(t, w) != [] {
      var r :| 0 <= r < |t.rounds| && InRound(t, r, w);
      assert RoundOk(t, r);
    }
  }

  // a waiter is either still in the table or was handed to a round
  predicate Placed(s: State, w: Waiter) {
    InEntry(s, w) || exists r :: 0 <= r < |s.rounds| && InRound(s, r, w)
  }

  lemma {:induction false} StepKeepsPlaced(s: State, e: Event, w: Waiter)
    requires Inv(s) && Enabled(s, e)
    requires w in s.registered ==> Placed(s, w)
    ensures w in Step(s, e).registered ==> Placed(Step(s, e), w)
  {
    var t := Step(s, e);
    if w in s.registered {
      if InEntry(s, w) {
        if e.Finalize? {
          assert InRound(t, |s.rounds|, w);
        }
      } else {
        var r :| 0 <= r < |s.rounds| && InRound(s, r, w);
        assert InRound(t, r, w);
      }
    }
  }

  lemma {:induction false} PlacedThroughout(s: State, es: seq<Event>, w: Waiter)
    requires Inv(s) && Runs(s, es)
    requires w in s.registered ==> Placed(s, w)
    ensures w in After(s, es).registered ==> Placed(After(s, es), w)
    decreases |es|
  {
    if es != [] {
      StepKeepsInv(s, es[0]);
      StepKeepsPlaced(s, es[0], w);
      PlacedThroughout(Step(s, es[0]), es[1..], w);
    }
  }

  lemma {:induction false} WakersHoldTheWakes(s: State, es: seq<Event>, w: Waiter)
    requires Init(s) && Runs(s, es)
    ensures var t := After(s, es);
            w in t.registered && WakesOf(t, w) != [] ==> exists r :: 0 <= r < |t.rounds| && InRound(t, r, w)
  {
    RunKeepsInv(s, es);
    PlacedThroughout(s, es, w);
  }

  // ------------------------------------------------------------------
  // The entry that is never removed
  // ------------------------------------------------------------------

  // A table entry without a leader: only the second round is left, and it has no finalize.
  predicate Orphaned(s: State) {
    s.entry.Some? && s.leader.None?
  }

  // calls since the last finalize
  function CallsSince(es: seq<Event>): nat {
    if es == [] || es[|es| - 1].Finalize? then 0
    else CallsSince(es[..|es| - 1]) + if es[|es| - 1].Call? then 1 else 0
  }

  // a finalize after a second call had joined the first
  predicate FinalizedWithWaiters(es: seq<Event>) {
    exists k :: 0 <= k < |es| && es[k].Finalize? && CallsSince(es[..k]) >= 2
  }

  // Until then the table says how many calls there were: the first one leads, the others wait.
  ghost predicate EntryInv(es: seq<Event>, s: State) {
    if FinalizedWithWaiters(es) then Orphaned(s)
    else
      && (s.entry.None? <==> CallsSince(es) == 0) && (s.leader.None? <==> s.entry.None?)
      && (s.entry.Some? ==> |s.entry.value| == CallsSince(es) - 1)
  }

  lemma {:induction false} OneMoreEvent(es: seq<Event>, e: Event)
    ensures CallsSince(es + [e]) == if e.Finalize? then 0 else CallsSince(es) + if e.Call? then 1 else 0
    ensures FinalizedWithWaiters(es + [e]) <==> FinalizedWithWaiters(es) || (e.Finalize? && CallsSince(es) >= 2)
  {
    var fs := es + [e];
    assert fs[..|es|] == es && fs[|es|] == e;
    assert forall k :: 0 <= k < |es| ==> fs[k] == es[k] && fs[..k] == es[..k];
    if FinalizedWithWaiters(es) {
      var k :| 0 <= k < |es| && es[k].Finalize? && CallsSince(es[..k]) >= 2;
      assert fs[k].Finalize? && CallsSince(fs[..k]) >= 2;
    }
  }

  lemma {:induction false} RunKeepsEntry(es: seq<Event>, s: State, fs: seq<Event>)
    requires EntryInv(es, s) && Runs(s, fs)
    ensures EntryInv(es + fs, After(s, fs))
    decreases |fs|
  {
    if fs == [] {
      assert es + fs == es;
    } else {
      var e := fs[0];
      OneMoreEvent(es, e);
      assert EntryInv(es + [e], Step(s, e)) by {
        hide FinalizedWithWaiters, CallsSince;
      }
      hide EntryInv, Step, Enabled;
      RunKeepsEntry(es + [e], Step(s, e), fs[1..]);
      assert es + [e] + fs[1..] == es + fs;
    }
  }

  /** In every run the table entry is left without a leader exactly if some finalize came after a second
      call had joined the call that led; otherwise the finalize removes it, and the next call leads again. */
  lemma {:induction false} OrphanedIffFinalizedWithWaiters(s: State, es: seq<Event>)
    requires Init(s) && Runs(s, es)
    ensures Orphaned(After(s, es)) <==> FinalizedWithWaiters(es)
    ensures After(s, es).entry.None? <==> !FinalizedWithWaiters(es) && CallsSince(es) == 0
  {
    RunKeepsEntry([], s, es);
    assert [] + es == es;
  }

  // Once orphaned, always orphaned: every later caller only joins the table, and
  // nobody in the table is ever woken.
  lemma {:induction false} OrphanedForever(s: State, es: seq<Event>)
    requires Inv(s) && Orphaned(s) && Runs(s, es)
    ensures Orphaned(After(s, es)) && Inv(After(s, es))
    ensures forall w :: InEntry(s, w) ==> InEntry(After(s, es), w)
    decreases |es|
  {
    if es != [] {
      StepKeepsInv(s, es[0]);
      var t := Step(s, es[0]);
      assert forall w :: InEntry(s, w) ==> InEntry(t, w);
      OrphanedForever(t, es[1..]);
    }
  }

  ghost predicate CanBeWoken(s: State, w: Waiter) {
    exists es :: Runs(s, es) && WakesOf(After(s, es), w) != []
  }

  /** A waiter in the table can still be woken if and only if the table entry has a leader. */
  lemma {:induction false} WokenIffLed(s: State, w: Waiter)
    requires Inv(s) && InEntry(s, w)
    ensures CanBeWoken(s, w) <==> s.leader.Some?
  {
    if s.leader.Some? {
      var es := [Finalize, Finish(|s.rounds|, true)];
      var t := Step(s, Finalize);
      StepKeepsInv(s, Finalize);
      var u := Step(t, es[1]);
      assert es[1..][1..] == [];
      assert Runs(u, es[1..][1..]);
      assert Runs(t, es[1..]);
      assert Runs(s, es);
      assert After(s, es) == After(t, es[1..]) == u;
      StepKeepsInv(t, es[1]);
      assert RoundOk(u, |s.rounds|);
      assert WakesOf(u, w) == Owed(u, |s.rounds|);
    } else {
      forall es | Runs(s, es)
        ensures WakesOf(After(s, es), w) == []
      {
        OrphanedForever(s, es);
      }
    }
  }

  /** The orphaned state is reachable from the empty table: one caller joins a
      round in progress and the leader finalizes. */
  lemma {:induction false} OrphanIsReachable(s: State) returns (es: seq<Event>)
    requires Init(s)
    ensures Runs(s, es) && Orphaned(After(s, es))
  {
    es := [Call(0), Call(1), Finalize];
    var s1 := Step(s, Call(0));
    var s2 := Step(s1, Call(1));
    var s3 := Step(s2, Finalize);
    assert es[1..] == [Call(1), Finalize] && es[1..][1..] == [Finalize] && es[1..][1..][1..] == [];
    assert Runs(s3, es[1..][1..][1..]);
    assert Runs(s2, es[1..][1..]);
    assert Runs(s1, es[1..]);
    assert After(s, es) == After(s1, es[1..]) == After(s2, es[1..][1..]) == s3;
  }
}
