/** Delivery of manager messages to one OSD by any number of agents.

    The manager keeps a log of messages with contiguous ids and deletes a
    prefix of it as messages are marked delivered.  An agent pulls a batch,
    applies every message of it on the OSD with a compare-and-set on
    `next_msg_id`, and then marks the batch.  Every call an agent makes to the
    manager or to the OSD is one step here; agents interleave in any order and
    may crash between any two calls. */
module MessageDelivery {
  import opened Sequences

  datatype Message = AddNamespace(name: string, namespaceId: int)

  // The keys of the OSD's global key-value store that delivery touches.
  datatype Key = NextMsgId | NamespaceStatus(namespaceId: int) | NamespaceName(namespaceId: int)
  datatype Value = MsgId(id: nat) | Active | Name(name: string)
  type Kvs = map<Key, Value>

  // `log[i]` is the message with id i; ids below `head` have been deleted.
  datatype Manager = Manager(log: seq<Message>, head: nat)

  type Batch = seq<(nat, Message)>

  /** Where an agent stands inside `deliver_messages` / `_deliver_osd_messages`. */
  datatype Phase =
    | Idle                                                  // about to call get_next_msgs
    | Pulled(msgs: Batch, more: bool)                       // about to read next_msg_id once
    | Iterating(msgs: Batch, more: bool, i: nat, floor: nat)// iter_s stands at msgs[i]
    | Ready(msgs: Batch, more: bool, i: nat, floor: nat, seen: Option<nat>) // about to apply_sequence
    | Marking(msgs: Batch, more: bool, from: nat)           // about to mark messages delivered
    | Done
    | TooFarOff                                             // "Osd msg_id too far off"
    | AssertFailed(seen: Option<nat>)                       // apply_sequence answered an error
    | MarkRefused                                           // "Wrong msg_id for mark_msg_delivered"

  type Agent = nat

  // `applied` is history: the (id, message) pairs of the successful
  // apply_sequence calls, in the order in which the OSD executed them.
  datatype State = State(mgr: Manager, osd: Kvs, agents: map<Agent, Phase>, applied: Batch)

  // ------------------------------------------------------------------
  // The manager
  // ------------------------------------------------------------------

  const MAX_BATCH := 10

  function Entries(log: seq<Message>, lo: nat, hi: nat): (r: Batch)
    requires lo <= hi <= |log|
    ensures |r| == hi - lo
    ensures forall j :: 0 <= j < |r| ==> r[j] == (lo + j, log[lo + j])
  {
    seq(hi - lo, j requires 0 <= j < hi - lo => (lo + j, log[lo + j]))
  }

  function BatchEnd(m: Manager): nat {
    if |m.log| - m.head <= MAX_BATCH then |m.log| else m.head + MAX_BATCH
  }

  predicate ManagerOk(m: Manager) {
    m.head <= |m.log|
  }

  function GetNextMsgs(m: Manager): (Batch, bool)
    requires ManagerOk(m)
  {
    (Entries(m.log, m.head, BatchEnd(m)), BatchEnd(m) < |m.log|)
  }

  // Delete every message whose id is at most `upto`.
  function MarkMsgsDelivered(m: Manager, upto: nat): Manager {
    if upto < m.head then m
    else if upto < |m.log| then m.(head := upto + 1)
    else m.(head := |m.log|)
  }

  // The older call deletes one message, which must be the first one left.
  function MarkMsgDelivered(m: Manager, id: nat): Option<Manager> {
    if m.head >= |m.log| then Some(m)
    else if m.head != id then None
    else Some(m.(head := m.head + 1))
  }

  // ------------------------------------------------------------------
  // The OSD
  // ------------------------------------------------------------------

  function GetNextMsgId(kv: Kvs): Option<nat> {
    if NextMsgId in kv && kv[NextMsgId].MsgId? then Some(kv[NextMsgId].id) else None
  }

  function NextId(kv: Kvs): nat {
    match GetNextMsgId(kv)
    case None => 0
    case Some(n) => n
  }

  predicate AssertsHold(kv: Kvs, seen: Option<nat>, msg: Message) {
    && (match seen
        case None => NextMsgId !in kv
        case Some(n) => NextMsgId in kv && kv[NextMsgId] == MsgId(n))
    && NamespaceStatus(msg.namespaceId) !in kv
  }

  // bump_msg_id :: upds, executed as one atomic sequence
  function ApplyUpdates(kv: Kvs, id: nat, msg: Message): Kvs {
    kv[NextMsgId := MsgId(id + 1)]
      [NamespaceStatus(msg.namespaceId) := Active]
      [NamespaceName(msg.namespaceId) := Name(msg.name)]
  }

  // ------------------------------------------------------------------
  // Steps
  // ------------------------------------------------------------------

  predicate Init(s: State) {
    s.mgr == Manager([], 0) && s.osd == map[] && s.applied == [] && s.agents == map[]
  }

  function SetPhase(s: State, a: Agent, p: Phase): State {
    s.(agents := s.agents[a := p])
  }

  datatype Event =
    | Append(msg: Message)     // a client of the manager adds a message for this OSD
    | Start(a: Agent)          // an agent (re)starts, also after a crash at any point
    | Pull(a: Agent)
    | ReadFloor(a: Agent)
    | Visit(a: Agent)          // one element of iter_s up to its reads of next_msg_id
    | Apply(a: Agent)
    | MarkAll(a: Agent)
    | MarkOne(a: Agent)

  function AfterMark(more: bool): Phase {
    if more then Idle else Done
  }

  function VisitPhase(kv: Kvs, p: Phase): Phase
    requires p.Iterating?
  {
    if p.i >= |p.msgs| then
      if |p.msgs| == 0 then Done else Marking(p.msgs, p.more, p.msgs[0].0)
    else
      var id := p.msgs[p.i].0;
      if id < p.floor then Iterating(p.msgs, p.more, p.i + 1, p.floor)
      else if NextId(kv) == id then Ready(p.msgs, p.more, p.i, p.floor, GetNextMsgId(kv))
      else if NextId(kv) > id then Iterating(p.msgs, p.more, p.i + 1, p.floor)
      else TooFarOff
  }

  predicate Enabled(s: State, e: Event) {
    match e
    case Append(_) => true
    case Start(_) => true
    case Pull(a) => a in s.agents && s.agents[a].Idle? && ManagerOk(s.mgr)
    case ReadFloor(a) => a in s.agents && s.agents[a].Pulled?
    case Visit(a) => a in s.agents && s.agents[a].Iterating?
    case Apply(a) => a in s.agents && s.agents[a].Ready? && s.agents[a].i < |s.agents[a].msgs|
    case MarkAll(a) => a in s.agents && s.agents[a].Marking? && |s.agents[a].msgs| > 0
    case MarkOne(a) => a in s.agents && s.agents[a].Marking? && |s.agents[a].msgs| > 0
  }

  function Last(msgs: Batch): nat
    requires |msgs| > 0
  {
    msgs[|msgs| - 1].0
  }

  function DoApply(s: State, a: Agent): State
    requires Enabled(s, Apply(a))
  {
    var p := s.agents[a];
    var (id, msg) := p.msgs[p.i];
    if AssertsHold(s.osd, p.seen, msg) then
      s.(osd := ApplyUpdates(s.osd, id, msg),
         applied := s.applied + [(id, msg)],
         agents := s.agents[a := Iterating(p.msgs, p.more, p.i + 1, p.floor)])
    else
      SetPhase(s, a, AssertFailed(p.seen))
  }

  function DoMarkOne(s: State, a: Agent): State
    requires Enabled(s, MarkOne(a))
  {
    var p := s.agents[a];
    if p.from > Last(p.msgs) then SetPhase(s, a, AfterMark(p.more))
    else match MarkMsgDelivered(s.mgr, p.from)
         case None => SetPhase(s, a, MarkRefused)
         case Some(m) => SetPhase(s.(mgr := m), a, Marking(p.msgs, p.more, p.from + 1))
  }

  function Step(s: State, e: Event): State
    requires Enabled(s, e)
  {
    match e
    case Append(msg) => s.(mgr := s.mgr.(log := s.mgr.log + [msg]))
    case Start(a) => SetPhase(s, a, Idle)
    case Pull(a) =>
      var (msgs, more) := GetNextMsgs(s.mgr);
      SetPhase(s, a, if msgs == [] then Done else Pulled(msgs, more))
    case ReadFloor(a) =>
      var p := s.agents[a];
      SetPhase(s, a, Iterating(p.msgs, p.more, 0, NextId(s.osd)))
    case Visit(a) => SetPhase(s, a, VisitPhase(s.osd, s.agents[a]))
    case Apply(a) => DoApply(s, a)
    case MarkAll(a) =>
      var p := s.agents[a];
      SetPhase(s.(mgr := MarkMsgsDelivered(s.mgr, Last(p.msgs))), a, AfterMark(p.more))
    case MarkOne(a) => DoMarkOne(s, a)
  }

  // A run: a list of events, each enabled in the state it is taken in.
  predicate Runs(s: State, es: seq<Event>)
    decreases |es|
  {
    es == [] || (Enabled(s, es[0]) && Runs(Step(s, es[0]), es[1..]))
  }

  function After(s: State, es: seq<Event>): State
    requires Runs(s, es)
    decreases |es|
  {
    if es == [] then s else After(Step(s, es[0]), es[1..])
  }

  // ------------------------------------------------------------------
  // The invariant
  // ------------------------------------------------------------------

  // The store that results from applying exactly the given messages, in order.
  function KvOf(log: seq<Message>): Kvs {
    if log == [] then map[]
    else ApplyUpdates(KvOf(log[..|log| - 1]), |log| - 1, log[|log| - 1])
  }

  // msgs are consecutive messages of the log starting no later than next_msg_id
  predicate BatchOk(s: State, msgs: Batch) {
    && |msgs| > 0
    && msgs[0].0 <= NextId(s.osd)
    && Last(msgs) < |s.mgr.log|
    && forall j :: 0 <= j < |msgs| ==>
         msgs[j].0 == msgs[0].0 + j && msgs[j].0 < |s.mgr.log| && msgs[j].1 == s.mgr.log[msgs[j].0]
  }

  predicate PhaseOk(s: State, p: Phase) {
    match p
    case Pulled(msgs, _) => BatchOk(s, msgs)
    case Iterating(msgs, _, i, floor) =>
      BatchOk(s, msgs) && i <= |msgs| && msgs[0].0 + i <= NextId(s.osd) && floor <= NextId(s.osd)
    case Ready(msgs, _, i, floor, seen) =>
      && BatchOk(s, msgs) && i < |msgs| && msgs[0].0 + i <= NextId(s.osd) && floor <= NextId(s.osd)
      && msgs[i].0 == (match seen case None => 0 case Some(n) => n)
      && seen != Some(0)
    case Marking(msgs, _, from) =>
      BatchOk(s, msgs) && Last(msgs) < NextId(s.osd) && from <= Last(msgs) + 1
    case TooFarOff => false
    case AssertFailed(seen) => true
    case _ => true
  }

  predicate Inv(s: State) {
    && s.mgr.head <= NextId(s.osd) <= |s.mgr.log|
    && s.applied == Entries(s.mgr.log, 0, NextId(s.osd))
    && s.osd == KvOf(s.mgr.log[..NextId(s.osd)])
    && forall a :: a in s.agents ==> PhaseOk(s, s.agents[a])
  }

  // The store left by a list of messages: its counter, and which namespaces are in it.
  lemma {:induction false} KvOfShape(log: seq<Message>)
    ensures GetNextMsgId(KvOf(log)) == if log == [] then None else Some(|log|)
    ensures NextMsgId in KvOf(log) <==> log != []
    ensures NextMsgId in KvOf(log) ==> KvOf(log)[NextMsgId] == MsgId(|log|)
    ensures forall x :: NamespaceStatus(x) in KvOf(log) <==> exists j :: 0 <= j < |log| && log[j].namespaceId == x
    ensures forall x :: NamespaceName(x) in KvOf(log) <==> NamespaceStatus(x) in KvOf(log)
    ensures forall x :: NamespaceStatus(x) in KvOf(log) ==> KvOf(log)[NamespaceStatus(x)] == Active
  {
    if log != [] {
      var init := log[..|log| - 1];
      KvOfShape(init);
      forall x
        ensures NamespaceStatus(x) in KvOf(log) <==> exists j :: 0 <= j < |log| && log[j].namespaceId == x
      {
        if NamespaceStatus(x) in KvOf(init) {
          var j :| 0 <= j < |init| && init[j].namespaceId == x;
          assert log[j].namespaceId == x;
        }
        if j :| 0 <= j < |log| && log[j].namespaceId == x {
          assert j < |init| ==> init[j].namespaceId == x;
        }
      }
    }
  }

  // What apply_sequence's two asserts mean once the store is KvOf of a prefix.
  lemma {:induction false} AssertsMeaning(s: State, seen: Option<nat>, msg: Message)
    requires Inv(s)
    requires seen != Some(0)
    ensures AssertsHold(s.osd, seen, msg) <==>
            && NextId(s.osd) == (match seen case None => 0 case Some(n) => n)
            && forall j :: 0 <= j < NextId(s.osd) ==> s.mgr.log[j].namespaceId != msg.namespaceId
  {
    var n := NextId(s.osd);
    KvOfShape(s.mgr.log[..n]);
    assert forall j :: 0 <= j < n ==> s.mgr.log[..n][j] == s.mgr.log[j];
  }

  // Phases survive any step of somebody else: the log and next_msg_id only grow.
  predicate Grows(s: State, t: State) {
    && |s.mgr.log| <= |t.mgr.log| && t.mgr.log[..|s.mgr.log|] == s.mgr.log
    && NextId(s.osd) <= NextId(t.osd)
  }

  lemma {:induction false} PhaseStable(s: State, t: State, p: Phase)
    requires PhaseOk(s, p) && Grows(s, t)
    ensures PhaseOk(t, p)
  {
    assert forall j :: 0 <= j < |s.mgr.log| ==> t.mgr.log[j] == s.mgr.log[j];
  }

  // Every agent but `a` kept its phase; a's new phase is fine: then all are.
  lemma {:induction false} AgentsStable(s: State, t: State, a: Agent)
    requires Inv(s) && Grows(s, t)
    requires forall b :: b in t.agents && b != a ==> b in s.agents && t.agents[b] == s.agents[b]
    requires a in t.agents ==> PhaseOk(t, t.agents[a])
    ensures forall b :: b in t.agents ==> PhaseOk(t, t.agents[b])
  {
    forall b | b in t.agents && b != a
      ensures PhaseOk(t, t.agents[b])
    {
      PhaseStable(s, t, s.agents[b]);
    }
  }

  // A successful apply_sequence extends the applied prefix by exactly the next message.
  lemma {:induction false} ApplyExtends(s: State, id: nat, msg: Message)
    requires Inv(s)
    requires id == NextId(s.osd) < |s.mgr.log| && msg == s.mgr.log[id]
    ensures ApplyUpdates(s.osd, id, msg) == KvOf(s.mgr.log[..id + 1])
    ensures NextId(ApplyUpdates(s.osd, id, msg)) == id + 1
    ensures s.applied + [(id, msg)] == Entries(s.mgr.log, 0, id + 1)
  {
    var l := s.mgr.log[..id + 1];
    assert l[..|l| - 1] == s.mgr.log[..id];
  }

  lemma {:induction false} ApplyKeepsInv(s: State, a: Agent)
    requires Inv(s) && Enabled(s, Apply(a))
    ensures Inv(DoApply(s, a)) && Grows(s, DoApply(s, a))
  {
    var p := s.agents[a];
    assert PhaseOk(s, p);
    var (id, msg) := p.msgs[p.i];
    AssertsMeaning(s, p.seen, msg);
    var t := DoApply(s, a);
    if AssertsHold(s.osd, p.seen, msg) {
      ApplyExtends(s, id, msg);
    }
    AgentsStable(s, t, a);
  }

  // The steps that only move one agent's phase.
  lemma {:induction false} PhaseMoveKeepsInv(s: State, a: Agent, p: Phase)
    requires Inv(s) && PhaseOk(s, p)
    ensures Inv(SetPhase(s, a, p)) && Grows(s, SetPhase(s, a, p))
  {
    var t := SetPhase(s, a, p);
    PhaseStable(s, t, p);
    AgentsStable(s, t, a);
  }

  lemma {:induction false} VisitPhaseOk(s: State, p: Phase)
    requires Inv(s) && p.Iterating? && PhaseOk(s, p)
    ensures PhaseOk(s, VisitPhase(s.osd, p))
  {
    KvOfShape(s.mgr.log[..NextId(s.osd)]);
  }

  // Marking deletes only messages that are already applied.
  lemma {:induction false} MarkKeepsInv(s: State, m: Manager, a: Agent, p: Phase)
    requires Inv(s) && PhaseOk(s, p)
    requires m.log == s.mgr.log && s.mgr.head <= m.head <= NextId(s.osd)
    ensures Inv(SetPhase(s.(mgr := m), a, p)) && Grows(s, SetPhase(s.(mgr := m), a, p))
  {
    var t := SetPhase(s.(mgr := m), a, p);
    PhaseStable(s, t, p);
    AgentsStable(s, t, a);
  }

  lemma {:induction false} AppendKeepsInv(s: State, msg: Message)
    requires Inv(s)
    ensures Inv(Step(s, Append(msg))) && Grows(s, Step(s, Append(msg)))
  {
    var t := Step(s, Append(msg));
    assert t.mgr.log[..NextId(s.osd)] == s.mgr.log[..NextId(s.osd)];
    forall b | b in t.agents
      ensures PhaseOk(t, t.agents[b])
    {
      PhaseStable(s, t, s.agents[b]);
    }
  }

  lemma {:induction false} PullKeepsInv(s: State, a: Agent)
    requires Inv(s) && Enabled(s, Pull(a))
    ensures Inv(Step(s, Pull(a))) && Grows(s, Step(s, Pull(a)))
  {
    var (msgs, more) := GetNextMsgs(s.mgr);
    PhaseMoveKeepsInv(s, a, if msgs == [] then Done else Pulled(msgs, more));
  }

  lemma {:induction false} MarkedNext(s: State, a: Agent)
    requires Inv(s) && Enabled(s, MarkOne(a)) && s.agents[a].from <= Last(s.agents[a].msgs)
    requires MarkMsgDelivered(s.mgr, s.agents[a].from).Some?
    ensures var p := s.agents[a]; var m := MarkMsgDelivered(s.mgr, p.from).value;
            && m.log == s.mgr.log && s.mgr.head <= m.head <= NextId(s.osd)
            && PhaseOk(s, Marking(p.msgs, p.more, p.from + 1))
  {
    hide KvOf, Entries;
    assert PhaseOk(s, s.agents[a]);
  }

  lemma {:induction false} MarkOneKeepsInv(s: State, a: Agent)
    requires Inv(s) && Enabled(s, MarkOne(a))
    ensures Inv(DoMarkOne(s, a)) && Grows(s, DoMarkOne(s, a))
  {
    var p := s.agents[a];
    if p.from > Last(p.msgs) {
      PhaseMoveKeepsInv(s, a, AfterMark(p.more));
    } else if MarkMsgDelivered(s.mgr, p.from).None? {
      PhaseMoveKeepsInv(s, a, MarkRefused);
    } else {
      hide Inv, Grows, PhaseOk;
      MarkedNext(s, a);
      MarkKeepsInv(s, MarkMsgDelivered(s.mgr, p.from).value, a, Marking(p.msgs, p.more, p.from + 1));
    }
  }

  lemma {:induction false} StepKeepsInv(s: State, e: Event)
    requires Inv(s) && Enabled(s, e)
    ensures Inv(Step(s, e)) && Grows(s, Step(s, e))
  {
    match e
    case Append(msg) => AppendKeepsInv(s, msg);
    case Start(a) => PhaseMoveKeepsInv(s, a, Idle);
    case Pull(a) => PullKeepsInv(s, a);
    case ReadFloor(a) =>
      var p := s.agents[a];
      assert PhaseOk(s, p);
      PhaseMoveKeepsInv(s, a, Iterating(p.msgs, p.more, 0, NextId(s.osd)));
    case Visit(a) =>
      assert PhaseOk(s, s.agents[a]);
      VisitPhaseOk(s, s.agents[a]);
      PhaseMoveKeepsInv(s, a, VisitPhase(s.osd, s.agents[a]));
    case Apply(a) => ApplyKeepsInv(s, a);
    case MarkAll(a) =>
      var p := s.agents[a];
      assert PhaseOk(s, p);
      MarkKeepsInv(s, MarkMsgsDelivered(s.mgr, Last(p.msgs)), a, AfterMark(p.more));
    case MarkOne(a) => MarkOneKeepsInv(s, a);
  }

  lemma {:induction false} RunKeepsInv(s: State, es: seq<Event>)
    requires Inv(s) && Runs(s, es)
    ensures Inv(After(s, es)) && Grows(s, After(s, es))
    decreases |es|
  {
    if es != [] {
      StepKeepsInv(s, es[0]);
      RunKeepsInv(Step(s, es[0]), es[1..]);
    }
  }

  // ------------------------------------------------------------------
  // Safety of every run
  // ------------------------------------------------------------------

  /** Whatever the agents do and wherever they crash, the OSD has applied
      exactly messages 0 .. next_msg_id-1 of the log, once each and in order,
      its store is what those messages alone produce, and a message is marked
      delivered only after it was applied. */
  lemma {:induction false} AppliedIsLogPrefix(s: State, es: seq<Event>)
    requires Init(s) && Runs(s, es)
    ensures var t := After(s, es);
            && NextId(t.osd) <= |t.mgr.log|
            && t.applied == Entries(t.mgr.log, 0, NextId(t.osd))
            && t.osd == KvOf(t.mgr.log[..NextId(t.osd)])
            && (forall i :: 0 <= i < |t.applied| ==> Stored(t.osd, t.applied[i].1))
            && forall id :: 0 <= id < t.mgr.head ==> id < |t.mgr.log| && (id, t.mgr.log[id]) in t.applied
  {
    assert s.mgr.log[..0] == [];
    RunKeepsInv(s, es);
    RunKeepsDistinct(s, es);
    var t := After(s, es);
    hide Stored, KeyFor, KvOf, PhaseOk, Runs, After;
    StoreOfApplied(t);
    forall id | 0 <= id < t.mgr.head
      ensures id < |t.mgr.log| && (id, t.mgr.log[id]) in t.applied
    {
      assert t.applied[id] == (id, t.mgr.log[id]);
    }
  }

  // no two applied messages have the same namespace
  predicate AppliedDistinct(s: State) {
    forall i, j :: 0 <= i < j < |s.applied| ==> s.applied[i].1.namespaceId != s.applied[j].1.namespaceId
  }

  lemma {:induction false} RunKeepsDistinct(s: State, es: seq<Event>)
    requires Inv(s) && AppliedDistinct(s) && Runs(s, es)
    ensures AppliedDistinct(After(s, es))
    decreases |es|
  {
    if es != [] {
      StepKeepsInv(s, es[0]);
      StepKeepsDistinct(s, es[0]);
      RunKeepsDistinct(Step(s, es[0]), es[1..]);
    }
  }

  lemma {:induction false} StepKeepsDistinct(s: State, e: Event)
    requires Inv(s) && AppliedDistinct(s) && Enabled(s, e)
    ensures AppliedDistinct(Step(s, e))
  {
    hide Inv, AppliedDistinct, AssertsHold, ApplyUpdates, VisitPhase, GetNextMsgs;
    if e.Apply? {
      ApplyKeepsDistinct(s, e.a);
    } else {
      assert Step(s, e).applied == s.applied;
      SameAppliedDistinct(s, Step(s, e));
    }
  }

  lemma {:induction false} SameAppliedDistinct(s: State, t: State)
    requires AppliedDistinct(s) && t.applied == s.applied
    ensures AppliedDistinct(t)
  {
  }

  lemma {:induction false} ApplyKeepsDistinct(s: State, a: Agent)
    requires Inv(s) && AppliedDistinct(s) && Enabled(s, Apply(a))
    ensures AppliedDistinct(DoApply(s, a))
  {
    hide KvOf, Entries, ApplyUpdates, AssertsHold;
    var p := s.agents[a];
    assert PhaseOk(s, p);
    var msg := p.msgs[p.i].1;
    if AssertsHold(s.osd, p.seen, msg) {
      AssertsMeaning(s, p.seen, msg);
      var t := DoApply(s, a);
      assert t.applied == s.applied + [(p.msgs[p.i].0, msg)];
    }
  }

  // what the store holds because of one message
  predicate Stored(kv: Kvs, msg: Message) {
    && NamespaceStatus(msg.namespaceId) in kv && kv[NamespaceStatus(msg.namespaceId)] == Active
    && NamespaceName(msg.namespaceId) in kv && kv[NamespaceName(msg.namespaceId)] == Name(msg.name)
  }

  predicate KeyFor(k: Key, msg: Message) {
    k == NamespaceStatus(msg.namespaceId) || k == NamespaceName(msg.namespaceId)
  }

  predicate DistinctNamespaces(log: seq<Message>) {
    forall i, j :: 0 <= i < j < |log| ==> log[i].namespaceId != log[j].namespaceId
  }

  lemma {:induction false} KvOfContents(log: seq<Message>)
    requires DistinctNamespaces(log)
    ensures forall i :: 0 <= i < |log| ==> Stored(KvOf(log), log[i])
    ensures forall k :: k in KvOf(log) && k != NextMsgId ==> exists i :: 0 <= i < |log| && KeyFor(k, log[i])
  {
    if log != [] {
      var n := |log| - 1;
      var init := log[..n];
      KvOfContents(init);
      forall i | 0 <= i < |log|
        ensures Stored(KvOf(log), log[i])
      {
        if i < n {
          assert Stored(KvOf(init), init[i]) && log[i].namespaceId != log[n].namespaceId;
        }
      }
      forall k | k in KvOf(log) && k != NextMsgId
        ensures exists i :: 0 <= i < |log| && KeyFor(k, log[i])
      {
        if !KeyFor(k, log[n]) {
          assert k in KvOf(init);
          var i :| 0 <= i < |init| && KeyFor(k, init[i]);
          assert KeyFor(k, log[i]);
        }
      }
    }
  }

  /** In every run, the OSD's store holds for every message it has applied that the namespace is active
      and what its name is, and their number as next_msg_id; and it holds nothing else. */
  lemma {:induction false} OsdStoresTheApplied(s: State, es: seq<Event>)
    requires Init(s) && Runs(s, es)
    ensures var t := After(s, es);
            && (forall i :: 0 <= i < |t.applied| ==> Stored(t.osd, t.applied[i].1))
            && (t.applied == [] ==> t.osd == map[])
            && (t.applied != [] ==> NextMsgId in t.osd && t.osd[NextMsgId] == MsgId(|t.applied|))
            && (forall k :: k in t.osd && k != NextMsgId ==>
                  exists i :: 0 <= i < |t.applied| && KeyFor(k, t.applied[i].1))
  {
    assert s.mgr.log[..0] == [];
    RunKeepsInv(s, es);
    RunKeepsDistinct(s, es);
    StoreOfApplied(After(s, es));
  }

  lemma {:induction false} StoreOfApplied(t: State)
    requires Inv(t) && AppliedDistinct(t)
    ensures forall i :: 0 <= i < |t.applied| ==> Stored(t.osd, t.applied[i].1)
    ensures t.applied == [] ==> t.osd == map[]
    ensures t.applied != [] ==> NextMsgId in t.osd && t.osd[NextMsgId] == MsgId(|t.applied|)
    ensures forall k :: k in t.osd && k != NextMsgId ==> exists i :: 0 <= i < |t.applied| && KeyFor(k, t.applied[i].1)
  {
    hide Stored, KeyFor, PhaseOk, NextId, ApplyUpdates;
    var log := t.mgr.log[..NextId(t.osd)];
    assert |t.applied| == |log|;
    assert forall i :: 0 <= i < |log| ==> t.applied[i].1 == log[i];
    KvOfContents(log);
    KvOfShape(log);
    forall k | k in t.osd && k != NextMsgId
      ensures exists i :: 0 <= i < |t.applied| && KeyFor(k, t.applied[i].1)
    {
      var i :| 0 <= i < |log| && KeyFor(k, log[i]);
      assert KeyFor(k, t.applied[i].1);
    }
  }

  // No agent of any run ever sees next_msg_id below the message it holds.
  lemma {:induction false} NeverTooFarOff(s: State, es: seq<Event>)
    requires Init(s) && Runs(s, es)
    ensures forall a :: a in After(s, es).agents ==> !After(s, es).agents[a].TooFarOff?
  {
    assert s.mgr.log[..0] == [];
    RunKeepsInv(s, es);
    assert forall a :: a in After(s, es).agents ==> PhaseOk(After(s, es), After(s, es).agents[a]);
  }

  predicate DistinctFrom(log: seq<Message>, n: nat) {
    forall i, j :: 0 <= i < j < |log| && n <= j ==> log[i].namespaceId != log[j].namespaceId
  }

  predicate OwnEvent(a: Agent, e: Event) {
    !e.Append? && e.a == a
  }

  predicate NoOwnEvents(a: Agent, es: seq<Event>) {
    forall i :: 0 <= i < |es| ==> !OwnEvent(a, es[i])
  }

  lemma {:induction false} OthersKeepPhase(s: State, es: seq<Event>, a: Agent)
    requires Runs(s, es) && NoOwnEvents(a, es) && a in s.agents
    ensures a in After(s, es).agents && After(s, es).agents[a] == s.agents[a]
    decreases |es|
  {
    if es != [] {
      assert !OwnEvent(a, es[0]);
      assert forall i :: 0 <= i < |es[1..]| ==> es[1..][i] == es[i + 1];
      OthersKeepPhase(Step(s, es[0]), es[1..], a);
    }
  }

  // Only a successful apply_sequence moves next_msg_id.
  lemma {:induction false} AdvanceIsApply(s: State, es: seq<Event>, a: Agent) returns (i: nat)
    requires Runs(s, es) && NoOwnEvents(a, es)
    requires NextId(After(s, es).osd) != NextId(s.osd)
    ensures i < |es| && es[i].Apply? && es[i].a != a
    decreases |es|
  {
    if NextId(Step(s, es[0]).osd) != NextId(s.osd) {
      i := 0;
      assert !OwnEvent(a, es[0]);
    } else {
      assert forall j :: 0 <= j < |es[1..]| ==> es[1..][j] == es[j + 1];
      i := AdvanceIsApply(Step(s, es[0]), es[1..], a);
      i := i + 1;
    }
  }

  // from the state in which the agent has read next_msg_id
  lemma {:induction false} OvertakenSince(s: State, es: seq<Event>, a: Agent)
    requires Inv(s) && Runs(s, es) && NoOwnEvents(a, es)
    requires a in s.agents && s.agents[a].Ready?
    requires s.agents[a].i < |s.agents[a].msgs| && s.agents[a].msgs[s.agents[a].i].0 == NextId(s.osd)
    requires DistinctFrom(After(s, es).mgr.log, 0)
    ensures Enabled(After(s, es), Apply(a))
    ensures Step(After(s, es), Apply(a)).agents[a].AssertFailed? <==>
            NextId(After(s, es).osd) > NextId(s.osd)
    ensures Step(After(s, es), Apply(a)).agents[a].AssertFailed? ==>
            exists i :: 0 <= i < |es| && es[i].Apply? && es[i].a != a
  {
    var t := After(s, es);
    var p := s.agents[a];
    assert PhaseOk(s, p);
    OthersKeepPhase(s, es, a);
    RunKeepsInv(s, es);
    PhaseStable(s, t, p);
    var (id, msg) := p.msgs[p.i];
    AssertsMeaning(t, p.seen, msg);
    assert msg == t.mgr.log[id];
    if NextId(t.osd) > NextId(s.osd) {
      var i := AdvanceIsApply(s, es, a);
    }
  }

  lemma {:induction false} ReadyAfterVisit(s: State, a: Agent)
    requires Enabled(s, Visit(a)) && Step(s, Visit(a)).agents[a].Ready?
    ensures var t := Step(s, Visit(a)); var p := t.agents[a];
            t.osd == s.osd && p.i < |p.msgs| && p.msgs[p.i].0 == NextId(t.osd)
  {
  }

  /** In every run: between an agent's read of next_msg_id (a Visit that makes it ready to apply) and its
      apply_sequence anything may happen.  The asserts then fail exactly when somebody else advanced
      next_msg_id in between (and the culprit is an Apply of another agent). */
  lemma {:induction false} AssertFailsIffOvertaken(s: State, before: seq<Event>, a: Agent, es: seq<Event>)
    requires Init(s) && Runs(s, before) && Enabled(After(s, before), Visit(a))
    requires var t := Step(After(s, before), Visit(a));
             && t.agents[a].Ready? && Runs(t, es) && NoOwnEvents(a, es)
             && DistinctFrom(After(t, es).mgr.log, 0)
    ensures var t := Step(After(s, before), Visit(a)); var u := After(t, es);
            && Enabled(u, Apply(a))
            && (Step(u, Apply(a)).agents[a].AssertFailed? <==> NextId(u.osd) > NextId(t.osd))
            && (Step(u, Apply(a)).agents[a].AssertFailed? ==> exists i :: 0 <= i < |es| && es[i].Apply? && es[i].a != a)
  {
    RunKeepsInv(s, before);
    var r := After(s, before);
    StepKeepsInv(r, Visit(a));
    ReadyAfterVisit(r, a);
    hide Inv, Runs, After, NoOwnEvents, DistinctFrom, NextId;
    OvertakenSince(Step(r, Visit(a)), es, a);
  }

  // ------------------------------------------------------------------
  // When delivery can be completed
  // ------------------------------------------------------------------

  lemma {:induction false} RunsAppend(s: State, es: seq<Event>, fs: seq<Event>)
    requires Runs(s, es) && Runs(After(s, es), fs)
    ensures Runs(s, es + fs) && After(s, es + fs) == After(After(s, es), fs)
    decreases |es|
  {
    if es == [] {
      assert es + fs == fs;
    } else {
      assert (es + fs)[0] == es[0] && (es + fs)[1..] == es[1..] + fs;
      RunsAppend(Step(s, es[0]), es[1..], fs);
    }
  }

  lemma {:induction false} RunsOne(s: State, e: Event)
    requires Enabled(s, e)
    ensures Runs(s, [e]) && After(s, [e]) == Step(s, e)
  {
    assert [e][1..] == [];
    assert Runs(Step(s, e), [e][1..]);
    assert After(s, [e]) == After(Step(s, e), [e][1..]);
  }

  predicate NoAppends(es: seq<Event>) {
    forall i :: 0 <= i < |es| ==> !es[i].Append?
  }

  // With distinct namespaces an agent that just read next_msg_id gets its apply through.
  lemma {:induction false} ApplySucceeds(s: State, a: Agent)
    requires Inv(s) && DistinctFrom(s.mgr.log, NextId(s.osd)) && Enabled(s, Apply(a))
    requires s.agents[a].msgs[s.agents[a].i].0 == NextId(s.osd)
    ensures var p := s.agents[a]; var t := Step(s, Apply(a));
            && Inv(t) && t.mgr == s.mgr && NextId(s.osd) <= NextId(t.osd)
            && t.agents == s.agents[a := Iterating(p.msgs, p.more, p.i + 1, p.floor)]
  {
    var p := s.agents[a];
    assert PhaseOk(s, p);
    AssertsMeaning(s, p.seen, p.msgs[p.i].1);
    ApplyKeepsInv(s, a);
  }

  lemma {:induction false} RunsTwo(s: State, e: Event, f: Event)
    requires Enabled(s, e) && Enabled(Step(s, e), f)
    ensures Runs(s, [e, f]) && After(s, [e, f]) == Step(Step(s, e), f)
  {
    RunsOne(s, e);
    RunsOne(Step(s, e), f);
    RunsAppend(s, [e], [f]);
    assert [e] + [f] == [e, f];
  }

  predicate Moved(s: State, t: State, a: Agent)
    requires a in s.agents && s.agents[a].Iterating?
  {
    var p := s.agents[a];
    && Inv(t) && t.mgr == s.mgr && NextId(s.osd) <= NextId(t.osd)
    && t.agents == s.agents[a := Iterating(p.msgs, p.more, p.i + 1, p.floor)]
  }

  // Visit skips a message that is applied already and readies any other.
  lemma {:induction false} VisitMoves(s: State, a: Agent)
    requires Inv(s) && Enabled(s, Visit(a)) && s.agents[a].i < |s.agents[a].msgs|
    ensures var p := s.agents[a]; var t := Step(s, Visit(a));
            && Inv(t) && t.mgr == s.mgr && t.osd == s.osd
            && (Moved(s, t, a) ||
                (t.agents == s.agents[a := Ready(p.msgs, p.more, p.i, p.floor, GetNextMsgId(s.osd))] &&
                 p.msgs[p.i].0 == NextId(s.osd)))
  {
    hide KvOf, Entries;
    assert PhaseOk(s, s.agents[a]);
    VisitPhaseOk(s, s.agents[a]);
    PhaseMoveKeepsInv(s, a, VisitPhase(s.osd, s.agents[a]));
  }

  // One message of the batch: skipped when already applied, applied otherwise.
  lemma {:induction false} DeliverOne(s: State, a: Agent) returns (es: seq<Event>)
    requires Inv(s) && DistinctFrom(s.mgr.log, NextId(s.osd))
    requires a in s.agents && s.agents[a].Iterating? && s.agents[a].i < |s.agents[a].msgs|
    ensures Runs(s, es) && Alone(a, es) && Moved(s, After(s, es), a)
  {
    hide KvOf, Entries, Runs, After, DistinctFrom, PhaseOk;
    VisitMoves(s, a);
    var t := Step(s, Visit(a));
    if Moved(s, t, a) {
      RunsOne(s, Visit(a));
      es := [Visit(a)];
    } else {
      ApplySucceeds(t, a);
      RunsTwo(s, Visit(a), Apply(a));
      es := [Visit(a), Apply(a)];
      var r := Iterating(s.agents[a].msgs, s.agents[a].more, s.agents[a].i + 1, s.agents[a].floor);
      assert t.agents[a := r] == s.agents[a := r];
    }
  }

  lemma {:induction false} DeliverRest(s: State, a: Agent) returns (es: seq<Event>)
    requires Inv(s) && DistinctFrom(s.mgr.log, NextId(s.osd))
    requires a in s.agents && s.agents[a].Iterating? && s.agents[a].i <= |s.agents[a].msgs|
    ensures Runs(s, es) && Alone(a, es)
    ensures var p := s.agents[a]; var t := After(s, es);
            && Inv(t) && t.mgr == s.mgr && NextId(s.osd) <= NextId(t.osd)
            && t.agents == s.agents[a := Iterating(p.msgs, p.more, |p.msgs|, p.floor)]
    decreases |s.agents[a].msgs| - s.agents[a].i
  {
    es := [];
    if s.agents[a].i < |s.agents[a].msgs| {
      hide KvOf, Entries, Runs, After;
      var fs := DeliverOne(s, a);
      var gs := DeliverRest(After(s, fs), a);
      RunsAppend(s, fs, gs);
      es := fs + gs;
    } else {
      assert s.agents == s.agents[a := s.agents[a]];
    }
  }

  // The events of one agent that is left alone after its start.
  predicate Alone(a: Agent, es: seq<Event>) {
    forall i :: 0 <= i < |es| ==> OwnEvent(a, es[i]) && !es[i].Start?
  }

  /** One round of the loop, from the pull to the mark: it marks exactly the first ten messages left, or
      all of them when there are no more, and goes on if and only if there are more. */
  lemma {:induction false} DeliverBatch(s: State, a: Agent) returns (es: seq<Event>)
    requires Inv(s) && DistinctFrom(s.mgr.log, NextId(s.osd)) && s.mgr.head < |s.mgr.log|
    requires a in s.agents && s.agents[a].Idle?
    ensures Runs(s, es) && Alone(a, es)
    ensures var t := After(s, es);
            && Inv(t) && t.mgr.log == s.mgr.log && NextId(s.osd) <= NextId(t.osd)
            && t.mgr.head == (if |s.mgr.log| - s.mgr.head > 10 then s.mgr.head + 10 else |s.mgr.log|)
            && a in t.agents && t.agents[a] == (if t.mgr.head < |t.mgr.log| then Idle else Done)
  {
    hide KvOf, Entries, Runs, After;
    RunsOne(s, Pull(a));
    StepKeepsInv(s, Pull(a));
    es := [Pull(a)];
    var s2 := Step(s, Pull(a));
    RunsOne(s2, ReadFloor(a));
    StepKeepsInv(s2, ReadFloor(a));
    RunsAppend(s, es, [ReadFloor(a)]);
    es := es + [ReadFloor(a)];
    var s3 := Step(s2, ReadFloor(a));
    es := FinishBatch(s, es, s3, a);
  }

  lemma {:induction false} FinishBatch(s: State, es0: seq<Event>, s3: State, a: Agent) returns (es: seq<Event>)
    requires Runs(s, es0) && Alone(a, es0) && After(s, es0) == s3
    requires Inv(s3) && DistinctFrom(s3.mgr.log, NextId(s3.osd))
    requires a in s3.agents && s3.agents[a].Iterating? && s3.agents[a].i == 0
    requires |s3.agents[a].msgs| > 0 && s3.agents[a].msgs[0].0 == s3.mgr.head
    ensures Runs(s, es) && Alone(a, es)
    ensures var t := After(s, es);
            && Inv(t) && t.mgr.log == s3.mgr.log && t.mgr.head == Last(s3.agents[a].msgs) + 1
            && NextId(s3.osd) <= NextId(t.osd)
            && a in t.agents && t.agents[a] == (if s3.agents[a].more then Idle else Done)
  {
    hide KvOf, Entries, Runs, After;
    assert PhaseOk(s3, s3.agents[a]);
    var fs := DeliverRest(s3, a);
    RunsAppend(s, es0, fs);
    es := es0 + fs;
    var s4 := After(s, es);
    RunsOne(s4, Visit(a));
    StepKeepsInv(s4, Visit(a));
    RunsAppend(s, es, [Visit(a)]);
    es := es + [Visit(a)];
    var s5 := Step(s4, Visit(a));
    assert PhaseOk(s5, s5.agents[a]);
    RunsOne(s5, MarkAll(a));
    StepKeepsInv(s5, MarkAll(a));
    RunsAppend(s, es, [MarkAll(a)]);
    es := es + [MarkAll(a)];
  }

  // the loop, from the top
  lemma {:induction false} DeliverAll(s: State, a: Agent) returns (es: seq<Event>)
    requires Inv(s) && DistinctFrom(s.mgr.log, NextId(s.osd)) && a in s.agents && s.agents[a].Idle?
    ensures Runs(s, es) && Alone(a, es)
    ensures var t := After(s, es);
            t.mgr.log == s.mgr.log && t.mgr.head == |s.mgr.log| && a in t.agents && t.agents[a].Done?
    decreases |s.mgr.log| - s.mgr.head
  {
    if s.mgr.head < |s.mgr.log| {
      es := DeliverBatch(s, a);
      var t := After(s, es);
      if t.mgr.head < |t.mgr.log| {
        var gs := DeliverAll(t, a);
        RunsAppend(s, es, gs);
        es := es + gs;
      }
    } else {
      es := [Pull(a)];
      RunsOne(s, Pull(a));
    }
  }

  /** A single agent that is left alone, started once, delivers and marks everything, batch after batch,
      and is done. */
  lemma {:induction false} SoloAgentCompletes(s: State, a: Agent) returns (es: seq<Event>)
    requires Inv(s) && DistinctFrom(s.mgr.log, NextId(s.osd))
    ensures Runs(s, [Start(a)] + es) && Alone(a, es)
    ensures var t := After(s, [Start(a)] + es);
            t.mgr.log == s.mgr.log && t.mgr.head == |s.mgr.log| && a in t.agents && t.agents[a].Done?
  {
    RunsOne(s, Start(a));
    StepKeepsInv(s, Start(a));
    es := DeliverAll(Step(s, Start(a)), a);
    RunsAppend(s, [Start(a)], es);
  }

  // marking from message `from` on, one by one
  function MarkOnes(a: Agent, n: nat): seq<Event> {
    if n == 0 then [] else [MarkOne(a)] + MarkOnes(a, n - 1)
  }

  /** The older manager's way of marking, message by message, comes to the same as marking the batch at
      once, when nobody else has marked any of it: the same log, and the same next phase. */
  lemma {:induction false} MarkingOneByOne(s: State, a: Agent)
    requires Enabled(s, MarkAll(a)) && s.agents[a].from == s.mgr.head <= Last(s.agents[a].msgs) + 1
    requires Last(s.agents[a].msgs) < |s.mgr.log|
    ensures var es := MarkOnes(a, Last(s.agents[a].msgs) + 2 - s.mgr.head);
            Runs(s, es) && After(s, es) == Step(s, MarkAll(a))
    decreases Last(s.agents[a].msgs) + 1 - s.mgr.head
  {
    var p := s.agents[a];
    var n := Last(p.msgs) + 2 - s.mgr.head;
    var t := Step(s, MarkOne(a));
    assert MarkOnes(a, n)[0] == MarkOne(a) && MarkOnes(a, n)[1..] == MarkOnes(a, n - 1);
    if s.mgr.head <= Last(p.msgs) {
      MarkingOneByOne(t, a);
      assert Step(t, MarkAll(a)) == Step(s, MarkAll(a)) by {
        assert t.agents[a := AfterMark(p.more)] == s.agents[a := AfterMark(p.more)];
      }
    } else {
      assert MarkOnes(a, n - 1) == [];
      assert After(s, MarkOnes(a, n)) == After(t, []) == t;
    }
  }

  // A message whose namespace was already added can never be applied.
  lemma {:induction false} RepeatedNamespaceBlocks(s: State, es: seq<Event>, i: nat, j: nat)
    requires Inv(s) && Runs(s, es)
    requires i < j < |s.mgr.log| && NextId(s.osd) <= j
    requires s.mgr.log[i].namespaceId == s.mgr.log[j].namespaceId
    ensures NextId(After(s, es).osd) <= j && After(s, es).mgr.head <= j
    decreases |es|
  {
    if es != [] {
      var e := es[0];
      StepKeepsInv(s, e);
      if e.Apply? && NextId(s.osd) == j {
        var p := s.agents[e.a];
        assert PhaseOk(s, p);
        AssertsMeaning(s, p.seen, p.msgs[p.i].1);
      }
      RepeatedNamespaceBlocks(Step(s, e), es[1..], i, j);
    }
  }

  ghost predicate CanComplete(s: State) {
    exists es :: Runs(s, es) && NoAppends(es) && After(s, es).mgr.head == |s.mgr.log|
  }

  /** The messages now in the log can all be delivered and marked if and only if
      no message that is still to be applied repeats an earlier namespace. */
  lemma {:induction false} CompletesIffNamespacesDistinct(s: State)
    requires Inv(s)
    ensures CanComplete(s) <==> DistinctFrom(s.mgr.log, NextId(s.osd))
  {
    if DistinctFrom(s.mgr.log, NextId(s.osd)) {
      var es := SoloAgentCompletes(s, 0);
      assert NoAppends([Start(0)] + es);
    } else {
      var i, j :| 0 <= i < j < |s.mgr.log| && NextId(s.osd) <= j &&
                  s.mgr.log[i].namespaceId == s.mgr.log[j].namespaceId;
      forall es | Runs(s, es) && NoAppends(es)
        ensures After(s, es).mgr.head != |s.mgr.log|
      {
        RepeatedNamespaceBlocks(s, es, i, j);
      }
    }
  }
}
