// The cluster of lab 3 as a step system: RPCs in flight (ProcessReq), persisters, server
// instances, and crash1/start1 of lab3/raft/config.go cut at every lock. Instances are
// arbitrary: an RPC handler, or an instance on its own, may save to its own persister at any
// moment. Main results: acknowledged saves are never lost, crash1 loses exactly the saves made
// between its Copy and the assignment of the copy, and a superseded instance can no longer
// reach what later instances are given.
module Durability {
  import opened Util
  import opened Labrpc
  import opened P = Persisters
  import R = ProcessReq

  type Ref = nat

  /** One save: by which instance, and inside which request's handler, if any. */
  datatype Event = Event(who: Ref, req: Option<nat>, op: SaveOp)

  /** A Persister object: its contents, and the saves that led to them. */
  datatype Store = Store(contents: Contents, history: seq<Event>)

  const EMPTY_STORE := Store(Contents([], []), [])

  /** given is the persister's state at the moment Make received it. */
  datatype Instance = Instance(me: ServerName, persister: Ref, given: Store)

  /** Where crash1, or the crash1 and the rest of start1, stands for one server. */
  datatype Pc =
    | Idle
    | Delete(restart: bool)
    | CopyOld(restart: bool)
    | AssignOld(restart: bool, copy: Store) // Copy has returned, cfg.saved[i] not yet replaced
    | ReadState(restart: bool)
    | ReadSnapshot(restart: bool, raftlog: seq<byte>)
    | Rewrite(restart: bool, raftlog: seq<byte>, snapshot: seq<byte>)
    | CopyNew
    | AssignNew(copy: Store)
    | MakeRaft
    | Add(rf: Ref)

  /** made[k] lists the saves performed so far by the handler of request k. */
  datatype System = System(
    rpc: R.Rpc,
    saved: seq<Option<Ref>>,
    pcs: seq<Pc>,
    stores: seq<Store>,
    instances: seq<Instance>,
    made: seq<seq<SaveOp>>)

  datatype Action =
    | Tables(net: Net)                  // any change to the network's tables, servers apart
    | Accept(endname: EndName, args: seq<byte>)
    | Request(k: nat, move: R.Move)
    | HandlerSave(k: nat, op: SaveOp)
    | InstanceSave(rf: Ref, op: SaveOp)
    | Begin(i: ServerName, restart: bool) // enter crash1, or start1
    | Harness(i: ServerName)              // its next step

  function Init(n: nat): System {
    System(R.Init(EMPTY_NET), seq(n, _ => None), seq(n, _ => Idle), [], [], [])
  }

  function WithServers(s: System, i: ServerName, server: Option<Ref>): System {
    s.(rpc := s.rpc.(net := s.rpc.net.(servers := s.rpc.net.servers[i := server])))
  }

  /** saved[i] is replaced by a new persister. */
  function Replace(s: System, i: ServerName, store: Store, pc: Pc): System
    requires i < |s.saved| && i < |s.pcs|
  {
    s.(saved := s.saved[i := Some(|s.stores|)], stores := s.stores + [store], pcs := s.pcs[i := pc])
  }

  /** The persister of instance rf after one of its saves. */
  function AppendTo(stores: seq<Store>, p: Ref, e: Event): seq<Store>
    requires p < |stores|
  {
    stores[p := Store(Saved(stores[p].contents, e.op), stores[p].history + [e])]
  }

  predicate HasStore(stores: seq<Store>, saved: Option<Ref>) {
    saved.Some? && saved.value < |stores|
  }

  predicate HasSaved(s: System, i: ServerName) {
    i < |s.saved| && HasStore(s.stores, s.saved[i])
  }

  function SavedStore(s: System, i: ServerName): Store
    requires HasSaved(s, i)
  {
    s.stores[s.saved[i].value]
  }

  function AfterCrash(restart: bool): Pc {
    if restart then CopyNew else Idle
  }

  function HarnessStep(s: System, i: ServerName): Option<System>
    requires i < |s.saved| && i < |s.pcs|
  {
    match s.pcs[i]
    case Idle => None
    case Delete(restart) => Some(WithServers(s, i, None).(pcs := s.pcs[i := CopyOld(restart)]))
    case CopyOld(restart) =>
      Some(s.(pcs := s.pcs[i := if HasSaved(s, i) then AssignOld(restart, SavedStore(s, i)) else AfterCrash(restart)]))
    case AssignOld(restart, copy) => Some(Replace(s, i, copy, ReadState(restart)))
    case ReadState(restart) =>
      if HasSaved(s, i) then
        Some(s.(pcs := s.pcs[i := ReadSnapshot(restart, SavedStore(s, i).contents.raftstate)]))
      else None
    case ReadSnapshot(restart, raftlog) =>
      if HasSaved(s, i) then
        Some(s.(pcs := s.pcs[i := Rewrite(restart, raftlog, SavedStore(s, i).contents.snapshot)]))
      else None
    case Rewrite(restart, raftlog, snapshot) =>
      // nobody else can reach the new persister before it has been filled
      if HasSaved(s, i) then
        Some(Replace(s, i, Store(Contents(raftlog, snapshot), SavedStore(s, i).history), AfterCrash(restart)))
      else None
    case CopyNew =>
      Some(s.(pcs := s.pcs[i := AssignNew(if HasSaved(s, i) then SavedStore(s, i) else EMPTY_STORE)]))
    case AssignNew(copy) => Some(Replace(s, i, copy, MakeRaft))
    case MakeRaft =>
      if HasSaved(s, i) then
        Some(s.(instances := s.instances + [Instance(i, s.saved[i].value, SavedStore(s, i))],
                pcs := s.pcs[i := Add(|s.instances|)]))
      else None
    case Add(rf) => Some(WithServers(s, i, Some(rf)).(pcs := s.pcs[i := Idle]))
  }

  function Step(s: System, a: Action): Option<System>
  {
    match a
    case Tables(net) =>
      if net.servers == s.rpc.net.servers then Some(s.(rpc := s.rpc.(net := net))) else None
    case Accept(endname, args) =>
      var rpc := R.Step(s.rpc, R.Accept(endname, args));
      if rpc.None? then None else Some(s.(rpc := rpc.value, made := s.made + [[]]))
    case Request(k, move) =>
      var rpc := R.Step(s.rpc, R.Request(k, move));
      if rpc.None? then None else Some(s.(rpc := rpc.value))
    case HandlerSave(k, op) =>
      if k < |s.rpc.reqs| && k < |s.made| && s.rpc.reqs[k].handler.Running? && s.rpc.reqs[k].to.Some? then
        var rf := s.rpc.reqs[k].to.value.server;
        if rf < |s.instances| && s.instances[rf].persister < |s.stores| then
          Some(s.(stores := AppendTo(s.stores, s.instances[rf].persister, Event(rf, Some(k), op)),
                  made := s.made[k := s.made[k] + [op]]))
        else None
      else None
    case InstanceSave(rf, op) =>
      if rf < |s.instances| && s.instances[rf].persister < |s.stores| then
        Some(s.(stores := AppendTo(s.stores, s.instances[rf].persister, Event(rf, None, op))))
      else None
    case Begin(i, restart) =>
      if i < |s.pcs| && s.pcs[i].Idle? then Some(s.(pcs := s.pcs[i := Delete(restart)])) else None
    case Harness(i) => if i < |s.saved| && i < |s.pcs| then HarnessStep(s, i) else None
  }

  // ---------- histories ----------

  /** The saves of request k's handler recorded in a history, in order. */
  function SavesOf(k: nat, h: seq<Event>): seq<SaveOp> {
    if h == [] then [] else
    var e := h[|h| - 1];
    SavesOf(k, h[..|h| - 1]) + (if e.req == Some(k) then [e.op] else [])
  }

  /** The saves by one instance recorded in a history, in order. */
  function SavesBy(rf: Ref, h: seq<Event>): seq<Event> {
    if h == [] then [] else
    var e := h[|h| - 1];
    SavesBy(rf, h[..|h| - 1]) + (if e.who == rf then [e] else [])
  }

  function Replay(h: seq<Event>): Contents {
    if h == [] then Contents([], []) else Saved(Replay(h[..|h| - 1]), h[|h| - 1].op)
  }

  lemma {:induction false} SavesOfAtUpto(k: nat, h: seq<Event>, n: nat) returns (at: seq<nat>)
    requires n <= |h|
    ensures |at| == |SavesOf(k, h[..n])|
    ensures forall m :: 0 <= m < |at| ==> at[m] < n && h[at[m]].req == Some(k) && h[at[m]].op == SavesOf(k, h[..n])[m]
    ensures forall l, m :: 0 <= l < m < |at| ==> at[l] < at[m]
    ensures forall j :: 0 <= j < n && h[j].req == Some(k) ==> j in at
  {
    if n == 0 {
      at := [];
    } else {
      at := SavesOfAtUpto(k, h, n - 1);
      assert h[..n][..n - 1] == h[..n - 1];
      if h[n - 1].req == Some(k) {
        at := at + [n - 1];
        assert at[|at| - 1] == n - 1;
      }
    }
  }

  /** What the list of a request's saves is: at gives their places in the history. */
  lemma SavesOfAt(k: nat, h: seq<Event>) returns (at: seq<nat>)
    ensures |at| == |SavesOf(k, h)|
    ensures forall m :: 0 <= m < |at| ==> at[m] < |h| && h[at[m]].req == Some(k) && h[at[m]].op == SavesOf(k, h)[m]
    ensures forall l, m :: 0 <= l < m < |at| ==> at[l] < at[m]
    ensures forall j :: 0 <= j < |h| && h[j].req == Some(k) ==> j in at
  {
    at := SavesOfAtUpto(k, h, |h|);
    assert h[..|h|] == h;
  }

  lemma {:induction false} SavesByAtUpto(rf: Ref, h: seq<Event>, n: nat) returns (at: seq<nat>)
    requires n <= |h|
    ensures |at| == |SavesBy(rf, h[..n])|
    ensures forall m :: 0 <= m < |at| ==> at[m] < n && h[at[m]].who == rf && h[at[m]] == SavesBy(rf, h[..n])[m]
    ensures forall l, m :: 0 <= l < m < |at| ==> at[l] < at[m]
    ensures forall j :: 0 <= j < n && h[j].who == rf ==> j in at
  {
    if n == 0 {
      at := [];
    } else {
      at := SavesByAtUpto(rf, h, n - 1);
      assert h[..n][..n - 1] == h[..n - 1];
      if h[n - 1].who == rf {
        at := at + [n - 1];
        assert at[|at| - 1] == n - 1;
      }
    }
  }

  /** And the list of an instance's saves. */
  lemma SavesByAt(rf: Ref, h: seq<Event>) returns (at: seq<nat>)
    ensures |at| == |SavesBy(rf, h)|
    ensures forall m :: 0 <= m < |at| ==> at[m] < |h| && h[at[m]].who == rf && h[at[m]] == SavesBy(rf, h)[m]
    ensures forall l, m :: 0 <= l < m < |at| ==> at[l] < at[m]
    ensures forall j :: 0 <= j < |h| && h[j].who == rf ==> j in at
  {
    at := SavesByAtUpto(rf, h, |h|);
    assert h[..|h|] == h;
  }

  /** What a replay gives: the state of the last save, and the snapshot of the last save that
      brought one, which is number both. */
  lemma {:induction false} ReplayIsLast(h: seq<Event>) returns (both: Option<nat>)
    ensures Replay(h).raftstate == if h == [] then [] else h[|h| - 1].op.state
    ensures both.None? ==> Replay(h).snapshot == [] && forall j :: 0 <= j < |h| ==> h[j].op.SaveRaft?
    ensures both.Some? ==>
              && both.value < |h| && h[both.value].op.SaveBoth? && Replay(h).snapshot == h[both.value].op.snapshot
              && forall j :: both.value < j < |h| ==> h[j].op.SaveRaft?
  {
    both := None;
    if h != [] {
      var n := |h| - 1;
      if h[n].op.SaveBoth? {
        both := Some(n);
      } else {
        both := ReplayIsLast(h[..n]);
      }
    }
  }

  lemma ReplaySnoc(h: seq<Event>, e: Event)
    ensures Replay(h + [e]) == Saved(Replay(h), e.op)
  {
    assert (h + [e])[..|h|] == h;
  }

  lemma SavesSnoc(k: nat, h: seq<Event>, e: Event)
    ensures SavesOf(k, h + [e]) == if e.req == Some(k) then SavesOf(k, h) + [e.op] else SavesOf(k, h)
  {
    assert (h + [e])[..|h|] == h;
  }

  lemma OthersSnoc(rf: Ref, h: seq<Event>, e: Event)
    requires e.who != rf
    ensures SavesBy(rf, h + [e]) == SavesBy(rf, h)
  {
    assert (h + [e])[..|h|] == h;
  }

  // ---------- the invariant ----------

  ghost predicate Unowned(instances: seq<Instance>, p: Ref) {
    forall rf :: 0 <= rf < |instances| ==> instances[rf].persister != p
  }

  ghost predicate SavedInv(saved: seq<Option<Ref>>, stores: seq<Store>) {
    && (forall i :: 0 <= i < |saved| && saved[i].Some? ==> saved[i].value < |stores|)
    && (forall i, j :: 0 <= i < j < |saved| && saved[i].Some? ==> saved[i] != saved[j])
    && (forall p :: 0 <= p < |stores| ==> stores[p].contents == Replay(stores[p].history))
  }

  ghost predicate InstanceInv(instances: seq<Instance>, saved: seq<Option<Ref>>, stores: seq<Store>) {
    && (forall rf :: 0 <= rf < |instances| ==>
      instances[rf].persister < |stores| && instances[rf].me < |saved| &&
      instances[rf].given.contents == Replay(instances[rf].given.history))
    && (forall rf, rg :: 0 <= rf < rg < |instances| ==> instances[rf].persister != instances[rg].persister)
    && (forall rf, i :: 0 <= rf < |instances| && 0 <= i < |saved| ==>
      saved[i] == Some(instances[rf].persister) ==> instances[rf].me == i)
  }

  /** Server i's table entry, when present, is an instance whose persister is still cfg.saved[i]. */
  ghost predicate ServerInv(i: ServerName, server: Option<Ref>, instances: seq<Instance>,
                            saved: seq<Option<Ref>>, pcs: seq<Pc>)
  {
    server.Some? ==>
      && i < |saved| == |pcs| && server.value < |instances|
      && instances[server.value].me == i
      && saved[i] == Some(instances[server.value].persister)
      && (pcs[i].Idle? || pcs[i].Delete?)
  }

  /** What h has beyond its first n events are saves of the instance that owns persister p. */
  ghost predicate OwnerSaves(h: seq<Event>, n: nat, p: Ref, instances: seq<Instance>) {
    forall j :: n <= j < |h| ==> h[j].who < |instances| && instances[h[j].who].persister == p
  }

  /** Once crash1 has replaced cfg.saved[i] no instance can write to it until Make, so the bytes
      read so far are still what it holds; until then its owner can. */
  ghost predicate PcInv(i: ServerName, pc: Pc, saved: Option<Ref>, stores: seq<Store>, instances: seq<Instance>) {
    match pc
    case AssignOld(_, copy) =>
      HasStore(stores, saved) && copy.history <= stores[saved.value].history &&
      copy.contents == Replay(copy.history) &&
      OwnerSaves(stores[saved.value].history, |copy.history|, saved.value, instances)
    case ReadState(_) => HasStore(stores, saved) && Unowned(instances, saved.value)
    case ReadSnapshot(_, raftlog) =>
      HasStore(stores, saved) && Unowned(instances, saved.value) &&
      stores[saved.value].contents.raftstate == raftlog
    case Rewrite(_, raftlog, snapshot) =>
      HasStore(stores, saved) && Unowned(instances, saved.value) &&
      stores[saved.value].contents == Contents(raftlog, snapshot)
    case CopyNew => HasStore(stores, saved) ==> Unowned(instances, saved.value)
    case AssignNew(copy) =>
      if HasStore(stores, saved) then Unowned(instances, saved.value) && copy == stores[saved.value]
      else copy == EMPTY_STORE
    case MakeRaft => HasStore(stores, saved) && Unowned(instances, saved.value)
    case Add(rf) => rf < |instances| && instances[rf].me == i && saved == Some(instances[rf].persister)
    case _ => true
  }

  /** The final liveness check has passed, so the client may be told ok. */
  predicate Acked(q: R.Req) {
    q.phase.Granted? || q.phase.Delayed? || q.phase.Counted? || (q.phase.Replied? && q.phase.msg.ok)
  }

  ghost predicate Untagged(k: nat, stores: seq<Store>) {
    forall p :: 0 <= p < |stores| ==> SavesOf(k, stores[p].history) == []
  }

  /** The handler's instance holds all its saves; once acknowledged, so does cfg.saved. */
  ghost predicate ReqInv(k: nat, q: R.Req, made: seq<SaveOp>,
                         instances: seq<Instance>, saved: seq<Option<Ref>>, stores: seq<Store>)
  {
    && R.ReqInv(q)
    && (q.to.None? ==> made == [] && Untagged(k, stores))
    && (q.to.Some? ==>
          var t := q.to.value;
          && t.server < |instances| && instances[t.server].persister < |stores|
          && instances[t.server].me == t.servername
          && SavesOf(k, stores[instances[t.server].persister].history) == made)
    && (Acked(q) ==>
          var i := q.to.value.servername;
          && i < |saved| && HasStore(stores, saved[i])
          && SavesOf(k, stores[saved[i].value].history) == made)
  }

  /** The copy that crash1 is about to assign has all saves of an acknowledged request. */
  ghost predicate GapInv(k: nat, q: R.Req, made: seq<SaveOp>, pcs: seq<Pc>) {
    Acked(q) && q.to.Some? && q.to.value.servername < |pcs| && pcs[q.to.value.servername].AssignOld? ==>
      SavesOf(k, pcs[q.to.value.servername].copy.history) == made
  }

  ghost predicate Inv(s: System) {
    && |s.saved| == |s.pcs|
    && |s.made| == |s.rpc.reqs|
    && SavedInv(s.saved, s.stores)
    && InstanceInv(s.instances, s.saved, s.stores)
    && (forall i: nat :: ServerInv(i, ServerAt(s.rpc.net, i), s.instances, s.saved, s.pcs))
    && (forall i :: 0 <= i < |s.saved| ==> PcInv(i, s.pcs[i], s.saved[i], s.stores, s.instances))
    && (forall k :: 0 <= k < |s.rpc.reqs| ==> ReqInv(k, s.rpc.reqs[k], s.made[k], s.instances, s.saved, s.stores))
    && (forall k :: 0 <= k < |s.rpc.reqs| ==> GapInv(k, s.rpc.reqs[k], s.made[k], s.pcs))
    && (forall k: nat :: k >= |s.rpc.reqs| ==> Untagged(k, s.stores))
  }

  // ---------- every step keeps it ----------

  lemma TablesKeeps(s: System, net: Net)
    requires Inv(s) && net.servers == s.rpc.net.servers
    ensures Inv(Step(s, Tables(net)).value)
  {
    assert forall i: nat :: ServerAt(net, i) == ServerAt(s.rpc.net, i);
  }

  lemma AcceptKeeps(s: System, endname: EndName, args: seq<byte>)
    requires Inv(s) && Step(s, Accept(endname, args)).Some?
    ensures Inv(Step(s, Accept(endname, args)).value)
  {
    assert Untagged(|s.rpc.reqs|, s.stores);
  }

  /** A request gets its target from the network's table, and is acknowledged only by a final
      check that still finds the target there. */
  lemma MoveAcks(net: Net, q: R.Req, move: R.Move)
    requires R.ReqInv(q) && R.ReqStep(net, q, move).Some?
    ensures var q' := R.ReqStep(net, q, move).value;
            && (q.to.Some? ==> q'.to == q.to)
            && (q.to.None? && q'.to.Some? ==>
                  ServerAt(net, q'.to.value.servername) == Some(q'.to.value.server))
            && (Acked(q') && !Acked(q) ==>
                  q.to.Some? && ServerAt(net, q.to.value.servername) == Some(q.to.value.server))
  {
  }

  lemma MoveKeepsReq(s: System, k: nat, move: R.Move)
    requires Inv(s) && Step(s, Request(k, move)).Some?
    ensures var s' := Step(s, Request(k, move)).value;
            ReqInv(k, s'.rpc.reqs[k], s'.made[k], s'.instances, s'.saved, s'.stores)
  {
    var q := s.rpc.reqs[k];
    var q' := R.ReqStep(s.rpc.net, q, move).value;
    assert ReqInv(k, q, s.made[k], s.instances, s.saved, s.stores);
    MoveAcks(s.rpc.net, q, move);
    R.MoveKeepsReqInv(s.rpc.net, q, move);
    if q'.to.Some? {
      var i := q'.to.value.servername;
      assert ServerInv(i, ServerAt(s.rpc.net, i), s.instances, s.saved, s.pcs);
    }
  }

  lemma MoveKeepsGap(s: System, k: nat, move: R.Move)
    requires Inv(s) && Step(s, Request(k, move)).Some?
    ensures GapInv(k, R.ReqStep(s.rpc.net, s.rpc.reqs[k], move).value, s.made[k], s.pcs)
  {
    var q := s.rpc.reqs[k];
    assert ReqInv(k, q, s.made[k], s.instances, s.saved, s.stores);
    assert GapInv(k, q, s.made[k], s.pcs);
    MoveAcks(s.rpc.net, q, move);
    if q.to.Some? {
      var i := q.to.value.servername;
      assert ServerInv(i, ServerAt(s.rpc.net, i), s.instances, s.saved, s.pcs);
    }
  }

  /** A step of a request changes that request only. */
  lemma MoveChanges(s: System, k: nat, move: R.Move)
    requires Step(s, Request(k, move)).Some?
    ensures var s' := Step(s, Request(k, move)).value;
            && k < |s.rpc.reqs| && R.ReqStep(s.rpc.net, s.rpc.reqs[k], move).Some?
            && s'.rpc.net == s.rpc.net
            && s'.rpc.reqs == s.rpc.reqs[k := R.ReqStep(s.rpc.net, s.rpc.reqs[k], move).value]
            && s' == s.(rpc := s'.rpc)
  {
  }

  /** Requests may change as long as each of them keeps its part. */
  lemma ReqsKeep(s: System, rpc: R.Rpc)
    requires Inv(s) && rpc.net == s.rpc.net && |rpc.reqs| == |s.rpc.reqs|
    requires forall k :: 0 <= k < |rpc.reqs| ==> ReqInv(k, rpc.reqs[k], s.made[k], s.instances, s.saved, s.stores)
    requires forall k :: 0 <= k < |rpc.reqs| ==> GapInv(k, rpc.reqs[k], s.made[k], s.pcs)
    ensures Inv(s.(rpc := rpc))
  {
  }

  lemma MoveKeeps(s: System, k: nat, move: R.Move)
    requires Inv(s) && Step(s, Request(k, move)).Some?
    ensures Inv(Step(s, Request(k, move)).value)
  {
    var s' := Step(s, Request(k, move)).value;
    MoveChanges(s, k, move);
    MoveKeepsReq(s, k, move);
    MoveKeepsGap(s, k, move);
    forall j | 0 <= j < |s.rpc.reqs|
      ensures ReqInv(j, s'.rpc.reqs[j], s.made[j], s.instances, s.saved, s.stores)
      ensures GapInv(j, s'.rpc.reqs[j], s.made[j], s.pcs)
    {
      if j != k {
        assert ReqInv(j, s.rpc.reqs[j], s.made[j], s.instances, s.saved, s.stores);
        assert GapInv(j, s.rpc.reqs[j], s.made[j], s.pcs);
      }
    }
    ReqsKeep(s, s'.rpc);
  }

  lemma AppendKeepsSaves(k: nat, stores: seq<Store>, p: Ref, e: Event, j: Ref)
    requires p < |stores| && j < |stores| && e.req != Some(k)
    ensures SavesOf(k, AppendTo(stores, p, e)[j].history) == SavesOf(k, stores[j].history)
  {
    if j == p {
      SavesSnoc(k, stores[p].history, e);
    }
  }

  lemma AppendKeepsReq(k: nat, q: R.Req, made: seq<SaveOp>,
                       instances: seq<Instance>, saved: seq<Option<Ref>>, stores: seq<Store>, p: Ref, e: Event)
    requires ReqInv(k, q, made, instances, saved, stores) && p < |stores| && e.req != Some(k)
    ensures ReqInv(k, q, made, instances, saved, AppendTo(stores, p, e))
  {
    if q.to.Some? {
      AppendKeepsSaves(k, stores, p, e, instances[q.to.value.server].persister);
      if Acked(q) {
        AppendKeepsSaves(k, stores, p, e, saved[q.to.value.servername].value);
      }
    } else {
      AppendKeepsUntagged(k, stores, p, e);
    }
  }

  lemma AppendToSaved(h: seq<Event>, copy: seq<Event>, p: Ref, instances: seq<Instance>, e: Event)
    requires copy <= h && OwnerSaves(h, |copy|, p, instances)
    requires e.who < |instances| && instances[e.who].persister == p
    ensures copy <= h + [e] && OwnerSaves(h + [e], |copy|, p, instances)
  {
  }

  lemma AppendKeepsPc(i: ServerName, pc: Pc, saved: Option<Ref>, stores: seq<Store>, instances: seq<Instance>,
                      p: Ref, e: Event)
    requires PcInv(i, pc, saved, stores, instances) && p < |stores|
    requires e.who < |instances| && instances[e.who].persister == p
    ensures PcInv(i, pc, saved, AppendTo(stores, p, e), instances)
  {
    if pc.AssignOld? && saved == Some(p) {
      AppendToSaved(stores[p].history, pc.copy.history, p, instances, e);
    }
  }

  lemma AppendKeepsUntagged(k: nat, stores: seq<Store>, p: Ref, e: Event)
    requires Untagged(k, stores) && p < |stores| && e.req != Some(k)
    ensures Untagged(k, AppendTo(stores, p, e))
  {
    forall j | 0 <= j < |stores| ensures SavesOf(k, AppendTo(stores, p, e)[j].history) == [] {
      AppendKeepsSaves(k, stores, p, e, j);
    }
  }

  lemma AppendKeepsStores(saved: seq<Option<Ref>>, stores: seq<Store>, p: Ref, e: Event)
    requires SavedInv(saved, stores) && p < |stores|
    ensures SavedInv(saved, AppendTo(stores, p, e))
  {
    var stores' := AppendTo(stores, p, e);
    ReplaySnoc(stores[p].history, e);
    forall q | 0 <= q < |stores'| ensures stores'[q].contents == Replay(stores'[q].history) {
      if q == p {
        assert stores'[q] == Store(Saved(stores[p].contents, e.op), stores[p].history + [e]);
      } else {
        assert stores'[q] == stores[q];
      }
    }
  }

  lemma AppendKeepsRest(s: System, rf: Ref, e: Event)
    requires Inv(s) && rf < |s.instances| && e.who == rf
    requires e.req.Some? ==> e.req.value < |s.rpc.reqs|
    ensures var stores := AppendTo(s.stores, s.instances[rf].persister, e);
            && SavedInv(s.saved, stores) && InstanceInv(s.instances, s.saved, stores)
            && (forall i :: 0 <= i < |s.saved| ==> PcInv(i, s.pcs[i], s.saved[i], stores, s.instances))
            && (forall k: nat :: k >= |s.rpc.reqs| ==> Untagged(k, stores))
  {
    var p := s.instances[rf].persister;
    var stores := AppendTo(s.stores, p, e);
    AppendKeepsStores(s.saved, s.stores, p, e);
    forall i | 0 <= i < |s.saved| ensures PcInv(i, s.pcs[i], s.saved[i], stores, s.instances) {
      AppendKeepsPc(i, s.pcs[i], s.saved[i], s.stores, s.instances, p, e);
    }
    forall k: nat | k >= |s.rpc.reqs| ensures Untagged(k, stores) {
      AppendKeepsUntagged(k, s.stores, p, e);
    }
  }

  lemma RunningNotAcked(q: R.Req)
    requires R.ReqInv(q) && q.handler.Running?
    ensures !Acked(q)
  {
  }

  lemma AppendKeepsOwnReq(k: nat, q: R.Req, made: seq<SaveOp>,
                          instances: seq<Instance>, saved: seq<Option<Ref>>, stores: seq<Store>, p: Ref, e: Event)
    requires ReqInv(k, q, made, instances, saved, stores) && p < |stores| && e.req == Some(k)
    requires q.handler.Running? && q.to.Some? && p == instances[q.to.value.server].persister
    ensures ReqInv(k, q, made + [e.op], instances, saved, AppendTo(stores, p, e))
  {
    SavesSnoc(k, stores[p].history, e);
    RunningNotAcked(q);
  }

  /** One save more, and one entry more in what its request has made. */
  lemma AppendKeeps(s: System, rf: Ref, e: Event, made: seq<seq<SaveOp>>)
    requires Inv(s) && rf < |s.instances| && e.who == rf && |made| == |s.made|
    requires e.req.Some? ==> e.req.value < |s.rpc.reqs|
    requires forall k :: 0 <= k < |made| ==>
               ReqInv(k, s.rpc.reqs[k], made[k], s.instances, s.saved,
                      AppendTo(s.stores, s.instances[rf].persister, e))
    requires forall k :: 0 <= k < |made| ==> GapInv(k, s.rpc.reqs[k], made[k], s.pcs)
    ensures Inv(s.(stores := AppendTo(s.stores, s.instances[rf].persister, e), made := made))
  {
    AppendKeepsRest(s, rf, e);
  }

  lemma HandlerSaveKeeps(s: System, k: nat, op: SaveOp)
    requires Inv(s) && Step(s, HandlerSave(k, op)).Some?
    ensures Inv(Step(s, HandlerSave(k, op)).value)
  {
    var rf := s.rpc.reqs[k].to.value.server;
    var p := s.instances[rf].persister;
    var e := Event(rf, Some(k), op);
    var made := s.made[k := s.made[k] + [op]];
    forall j | 0 <= j < |made|
      ensures ReqInv(j, s.rpc.reqs[j], made[j], s.instances, s.saved, AppendTo(s.stores, p, e))
      ensures GapInv(j, s.rpc.reqs[j], made[j], s.pcs)
    {
      assert ReqInv(j, s.rpc.reqs[j], s.made[j], s.instances, s.saved, s.stores);
      assert GapInv(j, s.rpc.reqs[j], s.made[j], s.pcs);
      if j != k {
        AppendKeepsReq(j, s.rpc.reqs[j], s.made[j], s.instances, s.saved, s.stores, p, e);
      } else {
        AppendKeepsOwnReq(k, s.rpc.reqs[k], s.made[k], s.instances, s.saved, s.stores, p, e);
        RunningNotAcked(s.rpc.reqs[k]);
      }
    }
    AppendKeeps(s, rf, e, made);
  }

  lemma InstanceSaveKeeps(s: System, rf: Ref, op: SaveOp)
    requires Inv(s) && Step(s, InstanceSave(rf, op)).Some?
    ensures Inv(Step(s, InstanceSave(rf, op)).value)
  {
    var e := Event(rf, None, op);
    forall j | 0 <= j < |s.made|
      ensures ReqInv(j, s.rpc.reqs[j], s.made[j], s.instances, s.saved,
                     AppendTo(s.stores, s.instances[rf].persister, e))
    {
      AppendKeepsReq(j, s.rpc.reqs[j], s.made[j], s.instances, s.saved, s.stores, s.instances[rf].persister, e);
    }
    AppendKeeps(s, rf, e, s.made);
  }

  lemma {:induction false} SavesPrefix(k: nat, g: seq<Event>, h: seq<Event>)
    requires g <= h && SavesOf(k, h) == []
    ensures SavesOf(k, g) == []
  {
    if g != h {
      assert g <= h[..|h| - 1];
      SavesPrefix(k, g, h[..|h| - 1]);
    }
  }

  /** What may replace cfg.saved[i]: its own contents, or those that crash1 has copied. */
  ghost predicate CanReplace(s: System, i: ServerName, store: Store)
    requires i < |s.saved| == |s.pcs|
  {
    if !HasSaved(s, i) then store == EMPTY_STORE
    else store == SavedStore(s, i) || (s.pcs[i].AssignOld? && store == s.pcs[i].copy)
  }

  lemma ReplaceKeepsReq(s: System, i: ServerName, store: Store, pc: Pc, k: nat)
    requires Inv(s) && i < |s.saved| && CanReplace(s, i, store) && k < |s.rpc.reqs|
    ensures var s' := Replace(s, i, store, pc);
            ReqInv(k, s.rpc.reqs[k], s.made[k], s.instances, s'.saved, s'.stores)
  {
    assert ReqInv(k, s.rpc.reqs[k], s.made[k], s.instances, s.saved, s.stores);
    assert GapInv(k, s.rpc.reqs[k], s.made[k], s.pcs);
    assert PcInv(i, s.pcs[i], s.saved[i], s.stores, s.instances);
    if s.rpc.reqs[k].to.None? {
      ReplaceUntagged(s, i, store, k);
    }
  }

  lemma ReplaceUntagged(s: System, i: ServerName, store: Store, k: nat)
    requires Inv(s) && i < |s.saved| && CanReplace(s, i, store) && Untagged(k, s.stores)
    ensures Untagged(k, s.stores + [store])
  {
    assert PcInv(i, s.pcs[i], s.saved[i], s.stores, s.instances);
    if HasSaved(s, i) {
      SavesPrefix(k, store.history, SavedStore(s, i).history);
    }
  }

  lemma ReplaceKeepsReqs(s: System, i: ServerName, store: Store, pc: Pc)
    requires Inv(s) && i < |s.saved| && CanReplace(s, i, store) && !pc.AssignOld?
    ensures var s' := Replace(s, i, store, pc);
            && (forall k :: 0 <= k < |s.rpc.reqs| ==>
                  ReqInv(k, s.rpc.reqs[k], s.made[k], s.instances, s'.saved, s'.stores))
            && (forall k :: 0 <= k < |s.rpc.reqs| ==> GapInv(k, s.rpc.reqs[k], s.made[k], s'.pcs))
            && (forall k: nat :: k >= |s.rpc.reqs| ==> Untagged(k, s'.stores))
  {
    var s' := Replace(s, i, store, pc);
    forall k | 0 <= k < |s.rpc.reqs|
      ensures ReqInv(k, s.rpc.reqs[k], s.made[k], s.instances, s'.saved, s'.stores)
    {
      ReplaceKeepsReq(s, i, store, pc, k);
    }
    forall k | 0 <= k < |s.rpc.reqs| ensures GapInv(k, s.rpc.reqs[k], s.made[k], s'.pcs) {
      assert GapInv(k, s.rpc.reqs[k], s.made[k], s.pcs);
    }
    forall k: nat | k >= |s.rpc.reqs| ensures Untagged(k, s'.stores) {
      ReplaceUntagged(s, i, store, k);
    }
  }

  /** Replacing cfg.saved[i] while server i is out of the network's table. */
  lemma ReplaceKeeps(s: System, i: ServerName, store: Store, pc: Pc)
    requires Inv(s) && i < |s.saved| && ServerAt(s.rpc.net, i).None? && CanReplace(s, i, store)
    requires pc.ReadState? || pc.Idle? || pc.CopyNew? || pc.MakeRaft?
    ensures Inv(Replace(s, i, store, pc))
  {
    var s' := Replace(s, i, store, pc);
    ReplaceKeepsReqs(s, i, store, pc);
    forall j | 0 <= j < |s.saved| ensures PcInv(j, s'.pcs[j], s'.saved[j], s'.stores, s'.instances) {
      assert PcInv(j, s.pcs[j], s.saved[j], s.stores, s.instances);
    }
    forall j: nat ensures ServerInv(j, ServerAt(s.rpc.net, j), s'.instances, s'.saved, s'.pcs) {
      assert ServerInv(j, ServerAt(s.rpc.net, j), s.instances, s.saved, s.pcs);
    }
    assert PcInv(i, s.pcs[i], s.saved[i], s.stores, s.instances);
  }

  /** A step of crash1 or start1 that only moves on, or updates the table of servers. */
  lemma PcStepKeeps(s: System, i: ServerName, pc: Pc, server: Option<Ref>)
    requires Inv(s) && i < |s.saved|
    requires ServerInv(i, server, s.instances, s.saved, s.pcs[i := pc])
    requires PcInv(i, pc, s.saved[i], s.stores, s.instances)
    requires pc.AssignOld? ==> HasSaved(s, i) && pc.copy == SavedStore(s, i)
    ensures Inv(WithServers(s, i, server).(pcs := s.pcs[i := pc]))
    ensures server == ServerAt(s.rpc.net, i) ==> Inv(s.(pcs := s.pcs[i := pc]))
  {
    var s' := WithServers(s, i, server).(pcs := s.pcs[i := pc]);
    forall j: nat ensures ServerInv(j, ServerAt(s'.rpc.net, j), s.instances, s.saved, s'.pcs) {
      assert ServerInv(j, ServerAt(s.rpc.net, j), s.instances, s.saved, s.pcs);
    }
    forall k | 0 <= k < |s.rpc.reqs| ensures GapInv(k, s.rpc.reqs[k], s.made[k], s'.pcs) {
      assert GapInv(k, s.rpc.reqs[k], s.made[k], s.pcs);
      assert ReqInv(k, s.rpc.reqs[k], s.made[k], s.instances, s.saved, s.stores);
    }
  }

  // The new instance owns cfg.saved[i]; it is passed as made.

  lemma MakeKeepsReq(k: nat, q: R.Req, saves: seq<SaveOp>,
                     instances: seq<Instance>, made: Instance, saved: seq<Option<Ref>>, stores: seq<Store>)
    requires ReqInv(k, q, saves, instances, saved, stores)
    ensures ReqInv(k, q, saves, instances + [made], saved, stores)
  {
  }

  lemma MakeKeepsPc(j: ServerName, pc: Pc, saved: Option<Ref>, stores: seq<Store>,
                    instances: seq<Instance>, made: Instance)
    requires PcInv(j, pc, saved, stores, instances)
    requires saved != Some(made.persister)
    ensures PcInv(j, pc, saved, stores, instances + [made])
  {
  }

  lemma MakeKeepsServer(j: ServerName, server: Option<Ref>, instances: seq<Instance>, made: Instance,
                        saved: seq<Option<Ref>>, pcs: seq<Pc>, i: ServerName, pc: Pc)
    requires ServerInv(j, server, instances, saved, pcs) && i < |pcs| && (j == i ==> server.None?)
    ensures ServerInv(j, server, instances + [made], saved, pcs[i := pc])
  {
  }

  lemma MakeKeepsInstances(instances: seq<Instance>, saved: seq<Option<Ref>>, stores: seq<Store>, i: ServerName)
    requires SavedInv(saved, stores) && InstanceInv(instances, saved, stores)
    requires i < |saved| && HasStore(stores, saved[i]) && Unowned(instances, saved[i].value)
    ensures InstanceInv(instances + [Instance(i, saved[i].value, stores[saved[i].value])], saved, stores)
  {
  }

  lemma MakeKeeps(s: System, i: ServerName)
    requires Inv(s) && i < |s.saved| && s.pcs[i].MakeRaft? && HarnessStep(s, i).Some?
    ensures Inv(HarnessStep(s, i).value)
  {
    assert PcInv(i, s.pcs[i], s.saved[i], s.stores, s.instances);
    var made := Instance(i, s.saved[i].value, SavedStore(s, i));
    var instances, pc := s.instances + [made], Add(|s.instances|);
    var pcs := s.pcs[i := pc];
    MakeKeepsInstances(s.instances, s.saved, s.stores, i);
    forall j | 0 <= j < |s.saved| ensures PcInv(j, pcs[j], s.saved[j], s.stores, instances) {
      if j != i {
        MakeKeepsPc(j, s.pcs[j], s.saved[j], s.stores, s.instances, made);
      }
    }
    forall j: nat ensures ServerInv(j, ServerAt(s.rpc.net, j), instances, s.saved, pcs) {
      assert ServerInv(j, ServerAt(s.rpc.net, j), s.instances, s.saved, s.pcs);
      MakeKeepsServer(j, ServerAt(s.rpc.net, j), s.instances, made, s.saved, s.pcs, i, pc);
    }
    forall k | 0 <= k < |s.rpc.reqs|
      ensures ReqInv(k, s.rpc.reqs[k], s.made[k], instances, s.saved, s.stores)
      ensures GapInv(k, s.rpc.reqs[k], s.made[k], pcs)
    {
      MakeKeepsReq(k, s.rpc.reqs[k], s.made[k], s.instances, made, s.saved, s.stores);
      assert GapInv(k, s.rpc.reqs[k], s.made[k], s.pcs);
    }
    InstancesKeep(s, instances, pcs);
  }

  lemma InstancesKeep(s: System, instances: seq<Instance>, pcs: seq<Pc>)
    requires Inv(s) && |pcs| == |s.pcs| && InstanceInv(instances, s.saved, s.stores)
    requires forall j: nat :: ServerInv(j, ServerAt(s.rpc.net, j), instances, s.saved, pcs)
    requires forall j :: 0 <= j < |s.saved| ==> PcInv(j, pcs[j], s.saved[j], s.stores, instances)
    requires forall k :: 0 <= k < |s.rpc.reqs| ==>
               ReqInv(k, s.rpc.reqs[k], s.made[k], instances, s.saved, s.stores)
    requires forall k :: 0 <= k < |s.rpc.reqs| ==> GapInv(k, s.rpc.reqs[k], s.made[k], pcs)
    ensures Inv(s.(instances := instances, pcs := pcs))
  {
  }

  lemma HarnessKeeps(s: System, i: ServerName)
    requires Inv(s) && i < |s.saved| && HarnessStep(s, i).Some?
    ensures Inv(HarnessStep(s, i).value)
  {
    var server := ServerAt(s.rpc.net, i);
    assert PcInv(i, s.pcs[i], s.saved[i], s.stores, s.instances);
    assert ServerInv(i, server, s.instances, s.saved, s.pcs);
    match s.pcs[i]
    case Delete(restart) => PcStepKeeps(s, i, CopyOld(restart), None);
    case CopyOld(restart) =>
      if HasSaved(s, i) {
        PcStepKeeps(s, i, AssignOld(restart, SavedStore(s, i)), server);
      } else {
        PcStepKeeps(s, i, AfterCrash(restart), server);
      }
    case AssignOld(restart, copy) => ReplaceKeeps(s, i, copy, ReadState(restart));
    case ReadState(restart) =>
      PcStepKeeps(s, i, ReadSnapshot(restart, SavedStore(s, i).contents.raftstate), server);
    case ReadSnapshot(restart, raftlog) =>
      PcStepKeeps(s, i, Rewrite(restart, raftlog, SavedStore(s, i).contents.snapshot), server);
    case Rewrite(restart, raftlog, snapshot) =>
      ReplaceKeeps(s, i, Store(Contents(raftlog, snapshot), SavedStore(s, i).history), AfterCrash(restart));
    case CopyNew => PcStepKeeps(s, i, AssignNew(if HasSaved(s, i) then SavedStore(s, i) else EMPTY_STORE), server);
    case AssignNew(copy) => ReplaceKeeps(s, i, copy, MakeRaft);
    case MakeRaft => MakeKeeps(s, i);
    case Add(rf) => PcStepKeeps(s, i, Idle, Some(rf));
  }

  lemma StepKeepsInv(s: System, a: Action)
    requires Inv(s) && Step(s, a).Some?
    ensures Inv(Step(s, a).value)
  {
    match a
    case Tables(net) => TablesKeeps(s, net);
    case Accept(endname, args) => AcceptKeeps(s, endname, args);
    case Request(k, move) => MoveKeeps(s, k, move);
    case HandlerSave(k, op) => HandlerSaveKeeps(s, k, op);
    case InstanceSave(rf, op) => InstanceSaveKeeps(s, rf, op);
    case Begin(i, restart) =>
      assert ServerInv(i, ServerAt(s.rpc.net, i), s.instances, s.saved, s.pcs);
      PcStepKeeps(s, i, Delete(restart), ServerAt(s.rpc.net, i));
    case Harness(i) => HarnessKeeps(s, i);
  }

  // ---------- main results ----------

  function Exec(s: System, run: seq<Action>): Option<System> {
    if run == [] then Some(s) else
    var t := Exec(s, run[..|run| - 1]);
    if t.None? then None else Step(t.value, run[|run| - 1])
  }

  lemma {:induction false} ExecKeepsInv(s: System, run: seq<Action>)
    requires Inv(s) && Exec(s, run).Some?
    ensures Inv(Exec(s, run).value)
  {
    if run != [] {
      ExecKeepsInv(s, run[..|run| - 1]);
      StepKeepsInv(Exec(s, run[..|run| - 1]).value, run[|run| - 1]);
    }
  }

  lemma ReachableInv(n: nat, run: seq<Action>)
    requires Exec(Init(n), run).Some?
    ensures Inv(Exec(Init(n), run).value)
  {
    assert Inv(Init(n));
    ExecKeepsInv(Init(n), run);
  }

  /** The saves that led to what cfg.saved[i] holds; none while it is nil. */
  function SavedHistory(s: System, i: ServerName): (h: seq<Event>)
    ensures i < |s.saved| && s.saved[i].Some? && s.saved[i].value < |s.stores| ==>
              h == s.stores[s.saved[i].value].history
  {
    if HasSaved(s, i) then SavedStore(s, i).history else []
  }

  /** The save that an action performs. */
  function Written(s: System, a: Action): Option<Event> {
    match a
    case HandlerSave(k, op) =>
      if k < |s.rpc.reqs| && s.rpc.reqs[k].to.Some? then
        Some(Event(s.rpc.reqs[k].to.value.server, Some(k), op))
      else None
    case InstanceSave(rf, op) => Some(Event(rf, None, op))
    case _ => None
  }

  /** What an action adds to the history of cfg.saved[i]: a save by the instance that owns it. */
  function Recorded(s: System, a: Action, i: ServerName): seq<Event> {
    var e := Written(s, a);
    if e.Some? && e.value.who < |s.instances| && i < |s.saved| &&
       s.saved[i] == Some(s.instances[e.value.who].persister)
    then [e.value] else []
  }

  /** What of cfg.saved[i] is certain to last: between Copy and the assignment of the copy, what
      was copied. */
  function Safe(s: System, i: ServerName): seq<Event> {
    if i < |s.pcs| && s.pcs[i].AssignOld? then s.pcs[i].copy.history else SavedHistory(s, i)
  }

  predicate Assigns(s: System, a: Action, i: ServerName) {
    a == Harness(i) && i < |s.pcs| && s.pcs[i].AssignOld?
  }

  /** One step from s to s' turns the history of cfg.saved[i], or the copy it assigns, into that
      with recorded added, and hands a new instance exactly what cfg.saved[i] holds. */
  ghost predicate Records(s: System, s': System, i: ServerName, base: seq<Event>, recorded: seq<Event>) {
    && (HasSaved(s, i) ==> HasSaved(s', i))
    && SavedHistory(s', i) == base + recorded
    && s.instances <= s'.instances
    && (forall rf :: |s.instances| <= rf < |s'.instances| && s'.instances[rf].me == i ==>
          s'.instances[rf].given.history == SavedHistory(s, i) == Safe(s, i))
  }

  /** Steps of requests, of the network's tables, and into crash1 or start1. */
  predicate IsQuiet(a: Action) {
    a.Tables? || a.Accept? || a.Request? || a.Begin?
  }

  lemma QuietStep(s: System, a: Action)
    requires IsQuiet(a) && Step(s, a).Some?
    ensures var s' := Step(s, a).value;
            s'.saved == s.saved && s'.stores == s.stores && s'.instances == s.instances && |s'.pcs| == |s.pcs|
    ensures Written(s, a).None?
  {
  }

  lemma SaveStep(s: System, a: Action)
    requires (a.HandlerSave? || a.InstanceSave?) && Step(s, a).Some?
    ensures Written(s, a).Some?
    ensures var e := Written(s, a).value;
            var s' := Step(s, a).value;
            && e.who < |s.instances| && s.instances[e.who].persister < |s.stores|
            && s'.stores == AppendTo(s.stores, s.instances[e.who].persister, e)
            && s'.saved == s.saved && s'.instances == s.instances && s'.pcs == s.pcs && s'.rpc == s.rpc
  {
  }

  lemma SaveRecords(s: System, a: Action, i: ServerName)
    requires Inv(s) && (a.HandlerSave? || a.InstanceSave?) && Step(s, a).Some?
    ensures Records(s, Step(s, a).value, i, SavedHistory(s, i), Recorded(s, a, i))
  {
    SaveStep(s, a);
  }

  lemma ReplaceRecords(s: System, j: ServerName, store: Store, pc: Pc, i: ServerName)
    requires Inv(s) && j < |s.saved| && store.history == Safe(s, j)
    ensures Records(s, Replace(s, j, store, pc), i, if j == i then Safe(s, i) else SavedHistory(s, i), [])
  {
  }

  lemma HarnessRecords(s: System, j: ServerName, i: ServerName)
    requires Inv(s) && j < |s.saved| && HarnessStep(s, j).Some?
    ensures Records(s, HarnessStep(s, j).value, i, if j == i then Safe(s, i) else SavedHistory(s, i), [])
  {
    assert PcInv(j, s.pcs[j], s.saved[j], s.stores, s.instances);
    match s.pcs[j]
    case AssignOld(restart, copy) => ReplaceRecords(s, j, copy, ReadState(restart), i);
    case Rewrite(restart, raftlog, snapshot) =>
      ReplaceRecords(s, j, Store(Contents(raftlog, snapshot), SavedStore(s, j).history), AfterCrash(restart), i);
    case AssignNew(copy) => ReplaceRecords(s, j, copy, MakeRaft, i);
    case _ =>
  }

  /** A step adds to what cfg.saved[i] holds only a save by the instance that owns it; the one
      step that starts from anything else is crash1's assignment of its copy. */
  lemma StepRecords(s: System, a: Action, i: ServerName)
    requires Inv(s) && Step(s, a).Some?
    ensures Records(s, Step(s, a).value, i,
                    if Assigns(s, a, i) then Safe(s, i) else SavedHistory(s, i), Recorded(s, a, i))
  {
    if a.Harness? {
      HarnessRecords(s, a.i, i);
    } else if IsQuiet(a) {
      QuietStep(s, a);
    } else {
      SaveRecords(s, a, i);
    }
  }

  lemma SafeIsPrefix(s: System, i: ServerName)
    requires Inv(s)
    ensures Safe(s, i) <= SavedHistory(s, i)
  {
    if i < |s.saved| {
      assert PcInv(i, s.pcs[i], s.saved[i], s.stores, s.instances);
    }
  }

  /** A step loses something that cfg.saved[i] holds exactly when it assigns a copy that has
      fallen behind; and what it loses are saves of the instance that owned cfg.saved[i]. */
  lemma LosesExactly(s: System, a: Action, i: ServerName)
    requires Inv(s) && Step(s, a).Some?
    ensures var h, h' := SavedHistory(s, i), SavedHistory(Step(s, a).value, i);
            && (!(h <= h') <==> Assigns(s, a, i) && Safe(s, i) != h)
            && (!(h <= h') ==> HasSaved(s, i) && h' < h && OwnerSaves(h, |h'|, s.saved[i].value, s.instances))
  {
    StepRecords(s, a, i);
    SafeIsPrefix(s, i);
    if Assigns(s, a, i) {
      assert PcInv(i, s.pcs[i], s.saved[i], s.stores, s.instances);
    }
  }

  /** When the final check passes, the persister the handler wrote to is still cfg.saved[i]. */
  lemma GrantedOnlyWhileSaved(n: nat, run: seq<Action>, k: nat)
    requires Exec(Init(n), run + [Request(k, R.FinalCheck)]).Some?
    requires Exec(Init(n), run).Some? && k < |Exec(Init(n), run).value.rpc.reqs|
    requires Exec(Init(n), run + [Request(k, R.FinalCheck)]).value.rpc.reqs[k].phase.Granted?
    ensures var s := Exec(Init(n), run).value;
            && s.rpc.reqs[k].to.Some? && k < |s.made|
            && var t := s.rpc.reqs[k].to.value;
            && t.servername < |s.saved| && t.server < |s.instances|
            && s.saved[t.servername] == Some(s.instances[t.server].persister)
            && Safe(s, t.servername) == SavedHistory(s, t.servername)
            && SavesOf(k, SavedHistory(s, t.servername)) == s.made[k]
  {
    var s := Exec(Init(n), run).value;
    var q := s.rpc.reqs[k];
    assert (run + [Request(k, R.FinalCheck)])[..|run|] == run;
    ReachableInv(n, run);
    assert ReqInv(k, q, s.made[k], s.instances, s.saved, s.stores);
    var i := q.to.value.servername;
    assert ServerInv(i, ServerAt(s.rpc.net, i), s.instances, s.saved, s.pcs);
  }

  /** What was safe in s is still the beginning of what cfg.saved[i] holds in s', is safe there,
      and is the beginning of what every instance of server i made in between was given. */
  ghost predicate Survives(s: System, s': System, i: ServerName) {
    && (HasSaved(s, i) ==> HasSaved(s', i))
    && Safe(s, i) <= Safe(s', i) <= SavedHistory(s', i)
    && s.instances <= s'.instances
    && (forall rf :: |s.instances| <= rf < |s'.instances| && s'.instances[rf].me == i ==>
          Safe(s, i) <= s'.instances[rf].given.history)
  }

  /** The gap is entered by the copy and left by the assignment only. */
  lemma GapMoves(s: System, a: Action, i: ServerName)
    requires Step(s, a).Some? && i < |s.pcs|
    ensures var pcs := Step(s, a).value.pcs;
            && i < |pcs|
            && (s.pcs[i].AssignOld? ==> if a == Harness(i) then !pcs[i].AssignOld? else pcs[i] == s.pcs[i])
            && (!s.pcs[i].AssignOld? && pcs[i].AssignOld? ==>
                  a == Harness(i) && HasSaved(s, i) && pcs[i].copy == SavedStore(s, i))
  {
  }

  /** What is safe only ever grows, by what is recorded outside the gap. */
  lemma StepSafe(s: System, a: Action, i: ServerName)
    requires Inv(s) && Step(s, a).Some?
    ensures var s' := Step(s, a).value;
            Safe(s', i) == Safe(s, i) + (if Safe(s', i) == SavedHistory(s', i) then Recorded(s, a, i) else [])
  {
    StepRecords(s, a, i);
    if i < |s.pcs| {
      GapMoves(s, a, i);
      SafeIsPrefix(s, i);
    } else {
      StaysOutside(s, a, i);
    }
  }

  lemma StaysOutside(s: System, a: Action, i: ServerName)
    requires Inv(s) && Step(s, a).Some? && i >= |s.pcs|
    ensures |Step(s, a).value.pcs| == |s.pcs|
  {
  }

  lemma StepSurvives(s: System, t: System, a: Action, i: ServerName)
    requires Inv(t) && Step(t, a).Some? && Survives(s, t, i)
    ensures Survives(s, Step(t, a).value, i)
  {
    var t' := Step(t, a).value;
    StepRecords(t, a, i);
    StepSafe(t, a, i);
    StepKeepsInv(t, a);
    SafeIsPrefix(t', i);
    forall rf | |s.instances| <= rf < |t'.instances| && t'.instances[rf].me == i
      ensures Safe(s, i) <= t'.instances[rf].given.history
    {
      assert rf < |t.instances| ==> t'.instances[rf] == t.instances[rf];
    }
  }

  lemma {:induction false} SavedHistorySurvives(s: System, run: seq<Action>, i: ServerName)
    requires Inv(s) && Exec(s, run).Some?
    ensures Survives(s, Exec(s, run).value, i)
  {
    if run == [] {
      SafeIsPrefix(s, i);
    } else {
      var init := run[..|run| - 1];
      SavedHistorySurvives(s, init, i);
      ExecKeepsInv(s, init);
      StepSurvives(s, Exec(s, init).value, run[|run| - 1], i);
    }
  }

  // ---------- what crash1 loses ----------

  /** The saves recorded in cfg.saved[i] during a run, in order. */
  function RecordedIn(s: System, run: seq<Action>, i: ServerName): seq<Event> {
    if run == [] then [] else
    var init := run[..|run| - 1];
    var t := Exec(s, init);
    RecordedIn(s, init, i) + (if t.Some? then Recorded(t.value, run[|run| - 1], i) else [])
  }

  /** crash1 and start1 of server i do not move. */
  predicate Leaves(run: seq<Action>, i: ServerName) {
    forall j :: 0 <= j < |run| ==> run[j] != Harness(i)
  }

  lemma GapStep(s: System, a: Action, i: ServerName)
    requires Inv(s) && Step(s, a).Some? && i < |s.pcs| && s.pcs[i].AssignOld? && a != Harness(i)
    ensures var s' := Step(s, a).value;
            && i < |s'.pcs| && s'.pcs[i] == s.pcs[i]
            && SavedHistory(s', i) == SavedHistory(s, i) + Recorded(s, a, i)
  {
    StepRecords(s, a, i);
    GapMoves(s, a, i);
  }

  lemma Associative<T>(a: seq<T>, b: seq<T>, c: seq<T>)
    ensures (a + b) + c == a + (b + c)
  {
  }

  lemma {:induction false} GapRecords(s: System, run: seq<Action>, i: ServerName)
    requires Inv(s) && Exec(s, run).Some? && i < |s.pcs| && s.pcs[i].AssignOld?
    requires Leaves(run, i)
    ensures var s' := Exec(s, run).value;
            && i < |s'.pcs| && s'.pcs[i] == s.pcs[i]
            && SavedHistory(s', i) == SavedHistory(s, i) + RecordedIn(s, run, i)
  {
    if run != [] {
      var init, a := run[..|run| - 1], run[|run| - 1];
      var t := Exec(s, init).value;
      GapRecords(s, init, i);
      ExecKeepsInv(s, init);
      GapStep(t, a, i);
      Associative(SavedHistory(s, i), RecordedIn(s, init, i), Recorded(t, a, i));
    }
  }

  lemma CopyStep(s: System, i: ServerName)
    requires Inv(s) && i < |s.pcs| && s.pcs[i].CopyOld? && HasSaved(s, i)
    ensures Step(s, Harness(i)).Some?
    ensures var copied := Step(s, Harness(i)).value;
            && copied.saved == s.saved && copied.stores == s.stores && copied.instances == s.instances
            && i < |copied.pcs| && copied.pcs[i].AssignOld? && copied.pcs[i].copy == SavedStore(s, i)
  {
  }

  lemma AssignStep(s: System, i: ServerName)
    requires Inv(s) && i < |s.pcs| && s.pcs[i].AssignOld?
    ensures Step(s, Harness(i)).Some? && SavedHistory(Step(s, Harness(i)).value, i) == s.pcs[i].copy.history
  {
  }

  /** crash1 keeps exactly what cfg.saved[i] held when it copied, and loses exactly the saves
      recorded between the copy and its assignment: none if the owner did not save then. */
  lemma CrashLosesGap(s: System, run: seq<Action>, i: ServerName)
    requires Inv(s) && i < |s.pcs| && s.pcs[i].CopyOld? && HasSaved(s, i)
    requires Exec(Step(s, Harness(i)).value, run).Some? && Leaves(run, i)
    ensures var t := Exec(Step(s, Harness(i)).value, run).value;
            && Step(t, Harness(i)).Some?
            && SavedHistory(t, i) == SavedHistory(s, i) + RecordedIn(Step(s, Harness(i)).value, run, i)
            && SavedHistory(Step(t, Harness(i)).value, i) == SavedHistory(s, i)
  {
    CopyStep(s, i);
    var copied := Step(s, Harness(i)).value;
    StepKeepsInv(s, Harness(i));
    GapRecords(copied, run, i);
    ExecKeepsInv(copied, run);
    AssignStep(Exec(copied, run).value, i);
  }

  /** So every save that the running instance makes in the gap is lost. */
  lemma OwnerSaveIsLost(s: System, i: ServerName, rf: Ref, op: SaveOp)
    requires Inv(s) && i < |s.pcs| && s.pcs[i].CopyOld?
    requires rf < |s.instances| && s.saved[i] == Some(s.instances[rf].persister)
    ensures Step(s, Harness(i)).Some?
    ensures var copied := Step(s, Harness(i)).value;
            && Step(copied, InstanceSave(rf, op)).Some?
            && var t := Step(copied, InstanceSave(rf, op)).value;
               && SavedHistory(t, i) == SavedHistory(s, i) + [Event(rf, None, op)]
               && Step(t, Harness(i)).Some? && SavedHistory(Step(t, Harness(i)).value, i) == SavedHistory(s, i)
  {
    CopyStep(s, i);
    var copied := Step(s, Harness(i)).value;
    StepKeepsInv(s, Harness(i));
    var a := InstanceSave(rf, op);
    GapStep(copied, a, i);
    StepKeepsInv(copied, a);
    AssignStep(Step(copied, a).value, i);
  }

  // Such a state is reached by starting server 0 and crashing it.

  function One(servers: map<ServerName, Option<Ref>>, saved: Option<Ref>, pc: Pc,
               stores: seq<Store>, instances: seq<Instance>): System
  {
    System(R.Init(EMPTY_NET.(servers := servers)), [saved], [pc], stores, instances, [])
  }

  const FIRST := Instance(0, 0, EMPTY_STORE)

  function UpToCopy(): seq<Action> {
    [Begin(0, true), Harness(0), Harness(0), Harness(0), Harness(0), Harness(0), Harness(0),
     Begin(0, false), Harness(0)]
  }

  /** The state after k of these actions. */
  function Stage(k: nat): System {
    if k == 0 then One(map[], None, Idle, [], [])
    else if k == 1 then One(map[], None, Delete(true), [], [])
    else if k == 2 then One(map[0 := None], None, CopyOld(true), [], [])
    else if k == 3 then One(map[0 := None], None, CopyNew, [], [])
    else if k == 4 then One(map[0 := None], None, AssignNew(EMPTY_STORE), [], [])
    else if k == 5 then One(map[0 := None], Some(0), MakeRaft, [EMPTY_STORE], [])
    else if k == 6 then One(map[0 := None], Some(0), Add(0), [EMPTY_STORE], [FIRST])
    else if k == 7 then One(map[0 := Some(0)], Some(0), Idle, [EMPTY_STORE], [FIRST])
    else if k == 8 then One(map[0 := Some(0)], Some(0), Delete(false), [EMPTY_STORE], [FIRST])
    else One(map[0 := None], Some(0), CopyOld(false), [EMPTY_STORE], [FIRST])
  }

  lemma Goes(k: nat, a: Action, servers: map<ServerName, Option<Ref>>)
    requires Step(Stage(k), a).Some?
    requires var t, u := Step(Stage(k), a).value, Stage(k + 1);
             && t.rpc == R.Init(EMPTY_NET.(servers := servers)) == u.rpc && t.made == u.made == []
             && t.saved == u.saved && t.pcs == u.pcs && t.stores == u.stores && t.instances == u.instances
    ensures Step(Stage(k), a) == Some(Stage(k + 1))
  {
  }

  lemma CrashStage(k: nat)
    requires 1 <= k < 4
    ensures Step(Stage(k), Harness(0)) == Some(Stage(k + 1))
  {
    Goes(k, Harness(0), map[0 := None]);
  }

  lemma StartStage(k: nat)
    requires 4 <= k < 6
    ensures Step(Stage(k), Harness(0)) == Some(Stage(k + 1))
  {
    Goes(k, Harness(0), map[0 := None]);
  }

  lemma StageStep(k: nat)
    requires k < 9
    ensures Step(Stage(k), UpToCopy()[k]) == Some(Stage(k + 1))
  {
    if k == 0 {
      Goes(k, Begin(0, true), map[]);
    } else if k < 4 {
      CrashStage(k);
    } else if k < 6 {
      StartStage(k);
    } else if k == 6 {
      Goes(k, Harness(0), map[0 := Some(0)]);
    } else if k == 7 {
      Goes(k, Begin(0, false), map[0 := Some(0)]);
    } else {
      Goes(k, Harness(0), map[0 := None]);
    }
  }

  lemma {:induction false} CanReachStage(k: nat)
    requires k <= 9
    ensures Exec(Init(1), UpToCopy()[..k]) == Some(Stage(k))
  {
    if k == 0 {
      assert Init(1).saved == [None] && Init(1).pcs == [Idle];
    } else {
      CanReachStage(k - 1);
      StageStep(k - 1);
      assert UpToCopy()[..k] == UpToCopy()[..k - 1] + [UpToCopy()[k - 1]];
      ExecSnoc(Init(1), UpToCopy()[..k - 1], UpToCopy()[k - 1]);
    }
  }

  lemma ExecSnoc(s: System, run: seq<Action>, a: Action)
    requires Exec(s, run).Some?
    ensures Exec(s, run + [a]) == Step(Exec(s, run).value, a)
  {
    assert (run + [a])[..|run|] == run;
  }

  /** A running instance owns cfg.saved[0], and crash1 is about to copy. */
  lemma CanReachCopy()
    ensures Exec(Init(1), UpToCopy()) == Some(One(map[0 := None], Some(0), CopyOld(false), [EMPTY_STORE], [FIRST]))
  {
    CanReachStage(9);
    assert UpToCopy()[..9] == UpToCopy();
  }

  /** The handler of request k is done; its saves are all in cfg.saved[i], and in what every
      instance of server i from number first on was given. */
  ghost predicate Kept(s: System, k: nat, i: ServerName, made: seq<SaveOp>, first: nat) {
    && k < |s.rpc.reqs| == |s.made| && s.rpc.reqs[k].handler.Delivered? && s.made[k] == made
    && HasSaved(s, i) && SavesOf(k, SavedHistory(s, i)) == made && SavesOf(k, Safe(s, i)) == made
    && (forall rf :: first <= rf < |s.instances| && s.instances[rf].me == i ==>
          SavesOf(k, s.instances[rf].given.history) == made)
  }

  lemma MoveKeepsDelivered(net: Net, q: R.Req, move: R.Move)
    requires R.ReqInv(q) && R.ReqStep(net, q, move).Some? && q.handler.Delivered?
    ensures R.ReqStep(net, q, move).value.handler == q.handler
  {
  }

  lemma RequestsStay(s: System, a: Action, k: nat)
    requires Step(s, a).Some? && k < |s.rpc.reqs| && k < |s.made| && !a.Request? && !a.HandlerSave?
    ensures var s' := Step(s, a).value;
            && k < |s'.rpc.reqs| && s'.rpc.reqs[k] == s.rpc.reqs[k]
            && k < |s'.made| && s'.made[k] == s.made[k]
    ensures |s.rpc.reqs| == |s.made| ==> |Step(s, a).value.rpc.reqs| == |Step(s, a).value.made|
    ensures Written(s, a).Some? ==> Written(s, a).value.req != Some(k)
  {
  }

  /** A handler that is done saves nothing more. */
  lemma DoneStaysDone(s: System, a: Action, k: nat)
    requires Inv(s) && Step(s, a).Some? && k < |s.rpc.reqs| && s.rpc.reqs[k].handler.Delivered?
    ensures var s' := Step(s, a).value;
            && k < |s'.rpc.reqs| == |s'.made|
            && s'.rpc.reqs[k].handler.Delivered? && s'.made[k] == s.made[k]
    ensures Written(s, a).Some? ==> Written(s, a).value.req != Some(k)
  {
    assert ReqInv(k, s.rpc.reqs[k], s.made[k], s.instances, s.saved, s.stores);
    if a.Request? {
      MoveChanges(s, a.k, a.move);
      if a.k == k {
        MoveKeepsDelivered(s.rpc.net, s.rpc.reqs[k], a.move);
      }
    } else if a.HandlerSave? {
      SaveStep(s, a);
    } else {
      RequestsStay(s, a, k);
    }
  }

  lemma RecordedSaves(k: nat, h: seq<Event>, e: seq<Event>)
    requires |e| == 0 || (|e| == 1 && e[0].req != Some(k))
    ensures SavesOf(k, h + e) == SavesOf(k, h)
  {
    if e == [] {
      assert h + e == h;
    } else {
      assert e == [e[0]];
      SavesSnoc(k, h, e[0]);
    }
  }

  lemma RecordedKeeps(s: System, s': System, base: seq<Event>, e: seq<Event>, k: nat, i: ServerName,
                      made: seq<SaveOp>, first: nat)
    requires Kept(s, k, i, made, first) && Records(s, s', i, base, e) && SavesOf(k, base) == made
    requires |e| == 0 || (|e| == 1 && e[0].req != Some(k))
    requires Safe(s', i) == Safe(s, i) || Safe(s', i) == Safe(s, i) + e
    requires k < |s'.rpc.reqs| == |s'.made| && s'.rpc.reqs[k].handler.Delivered? && s'.made[k] == made
    ensures Kept(s', k, i, made, first)
  {
    RecordedSaves(k, base, e);
    RecordedSaves(k, Safe(s, i), e);
    forall rf | first <= rf < |s'.instances| && s'.instances[rf].me == i
      ensures SavesOf(k, s'.instances[rf].given.history) == made
    {
      assert rf < |s.instances| ==> s'.instances[rf] == s.instances[rf];
    }
  }

  lemma StepKeeps(s: System, a: Action, k: nat, i: ServerName, made: seq<SaveOp>, first: nat)
    requires Inv(s) && Step(s, a).Some? && Kept(s, k, i, made, first)
    ensures Kept(Step(s, a).value, k, i, made, first)
  {
    StepRecords(s, a, i);
    StepSafe(s, a, i);
    DoneStaysDone(s, a, k);
    assert Safe(s, i) + [] == Safe(s, i);
    RecordedKeeps(s, Step(s, a).value, if Assigns(s, a, i) then Safe(s, i) else SavedHistory(s, i),
                  Recorded(s, a, i), k, i, made, first);
  }

  lemma {:induction false} RunKeeps(s: System, run: seq<Action>, k: nat, i: ServerName, made: seq<SaveOp>, first: nat)
    requires Inv(s) && Exec(s, run).Some? && Kept(s, k, i, made, first)
    ensures Kept(Exec(s, run).value, k, i, made, first)
  {
    if run != [] {
      var init := run[..|run| - 1];
      RunKeeps(s, init, k, i, made, first);
      ExecKeepsInv(s, init);
      StepKeeps(Exec(s, init).value, run[|run| - 1], k, i, made, first);
    }
  }

  /** Acknowledged saves are durable. If after some run request k is acknowledged, then after
      any continuation exactly its handler's saves are recorded for k in cfg.saved[i], and
      every instance of server i made since was given them, as part of a history that extends
      the one acknowledged and whose replay is what the instance reads back. */
  lemma AcknowledgedSavesAreDurable(n: nat, run: seq<Action>, more: seq<Action>, k: nat)
    requires Exec(Init(n), run).Some? && Exec(Exec(Init(n), run).value, more).Some?
    requires k < |Exec(Init(n), run).value.rpc.reqs| && Acked(Exec(Init(n), run).value.rpc.reqs[k])
    ensures var s := Exec(Init(n), run).value;
            var s' := Exec(s, more).value;
            s.rpc.reqs[k].to.Some? && k < |s.made| &&
            var i := s.rpc.reqs[k].to.value.servername;
            && HasSaved(s', i)
            && SavesOf(k, SavedHistory(s', i)) == SavesOf(k, Safe(s', i)) == s.made[k]
            && Safe(s, i) <= Safe(s', i) <= SavedHistory(s', i)
            && forall rf :: |s.instances| <= rf < |s'.instances| && s'.instances[rf].me == i ==>
                 && SavesOf(k, s'.instances[rf].given.history) == s.made[k]
                 && Safe(s, i) <= s'.instances[rf].given.history
                 && s'.instances[rf].given.contents == Replay(s'.instances[rf].given.history)
  {
    var s := Exec(Init(n), run).value;
    ReachableInv(n, run);
    assert ReqInv(k, s.rpc.reqs[k], s.made[k], s.instances, s.saved, s.stores);
    assert GapInv(k, s.rpc.reqs[k], s.made[k], s.pcs);
    var i := s.rpc.reqs[k].to.value.servername;
    SavedHistorySurvives(s, more, i);
    RunKeeps(s, more, k, i, s.made[k], |s.instances|);
    ExecKeepsInv(s, more);
  }

  // ---------- the same in terms of the run ----------

  /** What an action does to the list of the saves of request k's handler. */
  predicate Makes(made: seq<seq<SaveOp>>, a: Action, next: seq<seq<SaveOp>>, k: nat) {
    && |made| <= |next|
    && (k < |made| ==> next[k] == made[k] + (if a.HandlerSave? && a.k == k then [a.op] else []))
    && (|made| <= k < |next| ==> next[k] == [])
    && (a.HandlerSave? && a.k == k ==> k < |made|)
  }

  lemma MadeStep(s: System, a: Action, k: nat)
    requires Step(s, a).Some?
    ensures Makes(s.made, a, Step(s, a).value.made, k)
  {
    if k < |s.made| {
      assert s.made[k] + [] == s.made[k];
    }
  }

  /** The lists of saves throughout a run. */
  ghost predicate Trace(mades: seq<seq<seq<SaveOp>>>, run: seq<Action>, k: nat) {
    && |mades| == |run| + 1 && mades[0] == []
    && forall j :: 0 <= j < |run| ==> Makes(mades[j], run[j], mades[j + 1], k)
  }

  lemma TraceSnoc(mades: seq<seq<seq<SaveOp>>>, run: seq<Action>, a: Action, next: seq<seq<SaveOp>>, k: nat)
    requires Trace(mades, run, k) && Makes(mades[|run|], a, next, k)
    ensures Trace(mades + [next], run + [a], k)
  {
  }

  lemma {:induction false} TraceOf(n: nat, run: seq<Action>, k: nat) returns (mades: seq<seq<seq<SaveOp>>>)
    requires Exec(Init(n), run).Some?
    ensures Trace(mades, run, k) && mades[|run|] == Exec(Init(n), run).value.made
  {
    if run == [] {
      mades := [[]];
    } else {
      var init, a := run[..|run| - 1], run[|run| - 1];
      mades := TraceOf(n, init, k);
      MadeStep(Exec(Init(n), init).value, a, k);
      TraceSnoc(mades, init, a, Exec(Init(n), run).value.made, k);
      assert run == init + [a];
      mades := mades + [Exec(Init(n), run).value.made];
    }
  }

  lemma {:induction false} NoneMadeYet(mades: seq<seq<seq<SaveOp>>>, run: seq<Action>, upto: nat, k: nat)
    requires Trace(mades, run, k) && upto <= |run| && k >= |mades[upto]|
    ensures forall j :: 0 <= j < upto ==> !(run[j].HandlerSave? && run[j].k == k)
  {
    if upto > 0 {
      assert Makes(mades[upto - 1], run[upto - 1], mades[upto], k);
      NoneMadeYet(mades, run, upto - 1, k);
    }
  }

  lemma {:induction false} MadeUpto(mades: seq<seq<seq<SaveOp>>>, run: seq<Action>, upto: nat, k: nat)
    returns (at: seq<nat>)
    requires Trace(mades, run, k) && upto <= |run| && k < |mades[upto]|
    ensures |at| == |mades[upto][k]|
    ensures forall m :: 0 <= m < |at| ==> at[m] < upto && run[at[m]] == HandlerSave(k, mades[upto][k][m])
    ensures forall l, m :: 0 <= l < m < |at| ==> at[l] < at[m]
    ensures forall j :: 0 <= j < upto && run[j].HandlerSave? && run[j].k == k ==> j in at
  {
    var last := upto - 1;
    assert Makes(mades[last], run[last], mades[upto], k);
    if k < |mades[last]| {
      at := MadeUpto(mades, run, last, k);
      if run[last].HandlerSave? && run[last].k == k {
        at := at + [last];
        assert at[|at| - 1] == last;
      }
    } else {
      NoneMadeYet(mades, run, last, k);
      at := [];
    }
  }

  /** made[k] lists the saves of request k's handler: at gives their places in the run. */
  lemma MadeAt(n: nat, run: seq<Action>, k: nat) returns (at: seq<nat>)
    requires Exec(Init(n), run).Some? && k < |Exec(Init(n), run).value.made|
    ensures var made := Exec(Init(n), run).value.made[k];
            |at| == |made| && forall m :: 0 <= m < |at| ==> at[m] < |run| && run[at[m]] == HandlerSave(k, made[m])
    ensures forall l, m :: 0 <= l < m < |at| ==> at[l] < at[m]
    ensures forall j :: 0 <= j < |run| && run[j].HandlerSave? && run[j].k == k ==> j in at
  {
    var mades := TraceOf(n, run, k);
    at := MadeUpto(mades, run, |run|, k);
  }

  /** If the reply of request k has been sent with ok, or is about to be, then after any
      continuation cfg.saved[i] of the server it was sent to holds exactly the saves that its
      handler made, in their order: saves are the places in the run, places those in the history. */
  lemma AcknowledgedSavesInOrder(n: nat, run: seq<Action>, more: seq<Action>, k: nat)
    returns (saves: seq<nat>, places: seq<nat>)
    requires Exec(Init(n), run).Some? && Exec(Exec(Init(n), run).value, more).Some?
    requires k < |Exec(Init(n), run).value.rpc.reqs|
    requires var phase := Exec(Init(n), run).value.rpc.reqs[k].phase;
             phase.Granted? || phase.Delayed? || phase.Counted? || (phase.Replied? && phase.msg.ok)
    ensures forall l, m :: 0 <= l < m < |saves| ==> saves[l] < saves[m]
    ensures forall m :: 0 <= m < |saves| ==> saves[m] < |run|
    ensures forall j :: 0 <= j < |run| ==> (run[j].HandlerSave? && run[j].k == k <==> j in saves)
    ensures var to := Exec(Init(n), run).value.rpc.reqs[k].to;
            var s' := Exec(Exec(Init(n), run).value, more).value;
            to.Some? && to.value.servername < |s'.saved| &&
            var p := s'.saved[to.value.servername];
            p.Some? && p.value < |s'.stores| &&
            var h := s'.stores[p.value].history;
            && |places| == |saves|
            && (forall m :: 0 <= m < |places| ==>
                  places[m] < |h| && h[places[m]].req == Some(k) && h[places[m]].op == run[saves[m]].op)
            && (forall l, m :: 0 <= l < m < |places| ==> places[l] < places[m])
            && (forall j :: 0 <= j < |h| && h[j].req == Some(k) ==> j in places)
  {
    AcknowledgedSavesAreDurable(n, run, more, k);
    var s := Exec(Init(n), run).value;
    var s' := Exec(s, more).value;
    saves := MadeAt(n, run, k);
    places := SavesOfAt(k, SavedHistory(s', s.rpc.reqs[k].to.value.servername));
  }

  /** And so does what any instance of that server made since was given. */
  lemma LaterInstancesAreGiven(n: nat, run: seq<Action>, more: seq<Action>, k: nat, rf: Ref)
    returns (saves: seq<nat>, places: seq<nat>)
    requires Exec(Init(n), run).Some? && Exec(Exec(Init(n), run).value, more).Some?
    requires k < |Exec(Init(n), run).value.rpc.reqs|
    requires var phase := Exec(Init(n), run).value.rpc.reqs[k].phase;
             phase.Granted? || phase.Delayed? || phase.Counted? || (phase.Replied? && phase.msg.ok)
    requires |Exec(Init(n), run).value.instances| <= rf < |Exec(Exec(Init(n), run).value, more).value.instances|
    requires var to := Exec(Init(n), run).value.rpc.reqs[k].to;
             to.Some? && Exec(Exec(Init(n), run).value, more).value.instances[rf].me == to.value.servername
    ensures forall l, m :: 0 <= l < m < |saves| ==> saves[l] < saves[m]
    ensures forall m :: 0 <= m < |saves| ==> saves[m] < |run|
    ensures forall j :: 0 <= j < |run| ==> (run[j].HandlerSave? && run[j].k == k <==> j in saves)
    ensures var h := Exec(Exec(Init(n), run).value, more).value.instances[rf].given.history;
            && |places| == |saves|
            && (forall m :: 0 <= m < |places| ==>
                  places[m] < |h| && h[places[m]].req == Some(k) && h[places[m]].op == run[saves[m]].op)
            && (forall l, m :: 0 <= l < m < |places| ==> places[l] < places[m])
            && (forall j :: 0 <= j < |h| && h[j].req == Some(k) ==> j in places)
  {
    AcknowledgedSavesAreDurable(n, run, more, k);
    saves := MadeAt(n, run, k);
    places := SavesOfAt(k, Exec(Exec(Init(n), run).value, more).value.instances[rf].given.history);
  }

  /** Instance rf is no longer the one that cfg.saved belongs to. */
  predicate Superseded(s: System, rf: Ref) {
    rf < |s.instances| && s.instances[rf].me < |s.saved| &&
    s.saved[s.instances[rf].me] != Some(s.instances[rf].persister)
  }

  lemma ReplaceSupersedes(s: System, i: ServerName, store: Store, pc: Pc, rf: Ref)
    requires Inv(s) && i < |s.saved| && Superseded(s, rf)
    ensures Superseded(Replace(s, i, store, pc), rf)
  {
  }

  lemma HarnessSupersedes(s: System, i: ServerName, rf: Ref)
    requires Inv(s) && i < |s.saved| && HarnessStep(s, i).Some? && Superseded(s, rf)
    ensures Superseded(HarnessStep(s, i).value, rf)
  {
    match s.pcs[i]
    case AssignOld(restart, copy) => ReplaceSupersedes(s, i, copy, ReadState(restart), rf);
    case Rewrite(restart, raftlog, snapshot) =>
      ReplaceSupersedes(s, i, Store(Contents(raftlog, snapshot), SavedStore(s, i).history), AfterCrash(restart), rf);
    case AssignNew(copy) => ReplaceSupersedes(s, i, copy, MakeRaft, rf);
    case _ =>
  }

  lemma StaysSuperseded(s: System, a: Action, rf: Ref)
    requires Inv(s) && Step(s, a).Some? && Superseded(s, rf)
    ensures Superseded(Step(s, a).value, rf)
  {
    if a.Harness? {
      HarnessSupersedes(s, a.i, rf);
    } else if IsQuiet(a) {
      QuietStep(s, a);
    } else {
      SaveStep(s, a);
    }
  }

  lemma {:induction false} OwnerSavesBy(rf: Ref, g: seq<Event>, h: seq<Event>, p: Ref, instances: seq<Instance>)
    requires g <= h && OwnerSaves(h, |g|, p, instances)
    requires rf < |instances| && instances[rf].persister != p
    ensures SavesBy(rf, g) == SavesBy(rf, h)
  {
    if g != h {
      assert g <= h[..|h| - 1];
      OwnerSavesBy(rf, g, h[..|h| - 1], p, instances);
    }
  }

  lemma SafeSavesBy(s: System, rf: Ref, i: ServerName)
    requires Inv(s) && Superseded(s, rf)
    ensures SavesBy(rf, Safe(s, i)) == SavesBy(rf, SavedHistory(s, i))
  {
    if i < |s.pcs| && s.pcs[i].AssignOld? {
      assert PcInv(i, s.pcs[i], s.saved[i], s.stores, s.instances);
      OwnerSavesBy(rf, Safe(s, i), SavedHistory(s, i), s.saved[i].value, s.instances);
    }
  }

  /** It records nothing in cfg.saved[i] any more. */
  lemma RecordedByOthers(s: System, a: Action, rf: Ref, i: ServerName)
    requires Inv(s) && Superseded(s, rf)
    ensures var e := Recorded(s, a, i); |e| == 0 || (|e| == 1 && e[0].who != rf)
  {
  }

  lemma OthersRecorded(rf: Ref, h: seq<Event>, e: seq<Event>)
    requires |e| == 0 || (|e| == 1 && e[0].who != rf)
    ensures SavesBy(rf, h + e) == SavesBy(rf, h)
  {
    if e == [] {
      assert h + e == h;
    } else {
      assert e == [e[0]];
      OthersSnoc(rf, h, e[0]);
    }
  }

  lemma StepCutsOff(s: System, a: Action, rf: Ref, i: ServerName)
    requires Inv(s) && Step(s, a).Some? && Superseded(s, rf)
    ensures var s' := Step(s, a).value;
            && Superseded(s', rf)
            && SavesBy(rf, SavedHistory(s', i)) == SavesBy(rf, SavedHistory(s, i))
  {
    StaysSuperseded(s, a, rf);
    StepRecords(s, a, i);
    SafeSavesBy(s, rf, i);
    RecordedByOthers(s, a, rf, i);
    OthersRecorded(rf, if Assigns(s, a, i) then Safe(s, i) else SavedHistory(s, i), Recorded(s, a, i));
  }

  /** A superseded instance is cut off: however much it goes on saving, no save of its own made
      from then on enters any cfg.saved[i] or reaches any later instance. */
  lemma {:induction false} SupersededIsCutOff(n: nat, run: seq<Action>, more: seq<Action>, rf: Ref, i: ServerName)
    requires Exec(Init(n), run).Some? && Exec(Exec(Init(n), run).value, more).Some?
    requires Superseded(Exec(Init(n), run).value, rf)
    ensures var s := Exec(Init(n), run).value;
            var s' := Exec(s, more).value;
            && Superseded(s', rf)
            && SavesBy(rf, SavedHistory(s', i)) == SavesBy(rf, SavedHistory(s, i))
            && forall rg :: |s.instances| <= rg < |s'.instances| && s'.instances[rg].me == i ==>
                 SavesBy(rf, s'.instances[rg].given.history) == SavesBy(rf, SavedHistory(s, i))
  {
    var s := Exec(Init(n), run).value;
    ReachableInv(n, run);
    if more != [] {
      var init := more[..|more| - 1];
      SupersededIsCutOff(n, run, init, rf, i);
      ExecKeepsInv(s, init);
      StepCutsOff(Exec(s, init).value, more[|more| - 1], rf, i);
      StepRecords(Exec(s, init).value, more[|more| - 1], i);
    }
  }

  /** In terms of the stores: once cfg.saved[me] is not the instance's own persister, the saves
      by that instance which cfg.saved[i] holds are the same ones ever after. */
  lemma SupersededSavesNothing(n: nat, run: seq<Action>, more: seq<Action>, rf: Ref, i: ServerName)
    returns (was: seq<nat>, now: seq<nat>)
    requires Exec(Init(n), run).Some? && Exec(Exec(Init(n), run).value, more).Some?
    requires var s := Exec(Init(n), run).value;
             && rf < |s.instances| && s.instances[rf].me < |s.saved|
             && s.saved[s.instances[rf].me] != Some(s.instances[rf].persister)
             && i < |s.saved| && s.saved[i].Some? && s.saved[i].value < |s.stores|
    ensures var s := Exec(Init(n), run).value;
            var s' := Exec(s, more).value;
            i < |s'.saved| && s'.saved[i].Some? && s'.saved[i].value < |s'.stores| &&
            var h, h' := s.stores[s.saved[i].value].history, s'.stores[s'.saved[i].value].history;
            && |was| == |now|
            && (forall m :: 0 <= m < |was| ==>
                  was[m] < |h| && now[m] < |h'| && h'[now[m]] == h[was[m]] && h[was[m]].who == rf)
            && (forall l, m :: 0 <= l < m < |was| ==> was[l] < was[m] && now[l] < now[m])
            && (forall j :: 0 <= j < |h| && h[j].who == rf ==> j in was)
            && (forall j :: 0 <= j < |h'| && h'[j].who == rf ==> j in now)
  {
    var s := Exec(Init(n), run).value;
    ReachableInv(n, run);
    SupersededIsCutOff(n, run, more, rf, i);
    SavedHistorySurvives(s, more, i);
    was := SavesByAt(rf, SavedHistory(s, i));
    now := SavesByAt(rf, SavedHistory(Exec(s, more).value, i));
  }

  // ---------- an undisturbed crash1, and start1 ----------

  /** crash1 or start1 has come to pc, has deleted the server, and has so far only added stores; if cfg.saved[i]
      is not nil, it holds what it held in s. */
  ghost predicate Under(s: System, t: System, i: ServerName, pc: Pc, store: Store) {
    && i < |t.saved| == |t.pcs| && t.pcs[i] == pc
    && i in t.rpc.net.servers && t.rpc.net.servers[i].None?
    && t.instances == s.instances && t.rpc.reqs == s.rpc.reqs && s.stores <= t.stores
    && (if HasSaved(t, i) then SavedStore(t, i) == store else store == EMPTY_STORE)
  }

  /** And it has replaced cfg.saved[i]. */
  ghost predicate Renewed(s: System, t: System, i: ServerName, pc: Pc, store: Store) {
    Under(s, t, i, pc, store) && HasSaved(t, i) && |s.stores| <= t.saved[i].value
  }

  lemma AfterDelete(s: System, t: System, i: ServerName, restart: bool, store: Store)
    requires Under(s, t, i, CopyOld(restart), store)
    ensures Step(t, Harness(i)).Some?
    ensures var u := Step(t, Harness(i)).value;
            Under(s, u, i, if HasSaved(t, i) then AssignOld(restart, store) else if restart then CopyNew else Idle,
                  store)
  {
  }

  lemma AfterReplace(s: System, t: System, i: ServerName, store: Store, pc: Pc)
    requires i < |t.saved| && i < |t.pcs| && Under(s, t, i, t.pcs[i], SavedStoreOrEmpty(t, i))
    ensures Renewed(s, Replace(t, i, store, pc), i, pc, store)
  {
  }

  function SavedStoreOrEmpty(s: System, i: ServerName): Store {
    if HasSaved(s, i) then SavedStore(s, i) else EMPTY_STORE
  }

  lemma AfterCopy(s: System, t: System, i: ServerName, restart: bool, store: Store)
    requires Under(s, t, i, AssignOld(restart, store), store)
    ensures Step(t, Harness(i)).Some? && Renewed(s, Step(t, Harness(i)).value, i, ReadState(restart), store)
  {
    AfterReplace(s, t, i, store, ReadState(restart));
  }

  lemma AfterReads(s: System, t: System, i: ServerName, restart: bool, store: Store, pc: Pc)
    requires Renewed(s, t, i, pc, store)
    requires pc == ReadState(restart) || pc == ReadSnapshot(restart, store.contents.raftstate)
    ensures Step(t, Harness(i)).Some?
    ensures Renewed(s, Step(t, Harness(i)).value, i,
                    if pc.ReadState? then ReadSnapshot(restart, store.contents.raftstate)
                    else Rewrite(restart, store.contents.raftstate, store.contents.snapshot), store)
  {
  }

  lemma AfterRewrite(s: System, t: System, i: ServerName, restart: bool, store: Store)
    requires Renewed(s, t, i, Rewrite(restart, store.contents.raftstate, store.contents.snapshot), store)
    ensures Step(t, Harness(i)).Some?
    ensures Renewed(s, Step(t, Harness(i)).value, i, if restart then CopyNew else Idle, store)
  {
    AfterReplace(s, t, i, store, if restart then CopyNew else Idle);
    assert Store(Contents(store.contents.raftstate, store.contents.snapshot), store.history) == store;
  }

  lemma AfterCrash1(s: System, t: System, i: ServerName, store: Store)
    requires Under(s, t, i, CopyNew, store)
    ensures Step(t, Harness(i)).Some? && Under(s, Step(t, Harness(i)).value, i, AssignNew(store), store)
  {
  }

  lemma AfterCopyNew(s: System, t: System, i: ServerName, store: Store)
    requires Under(s, t, i, AssignNew(store), store)
    ensures Step(t, Harness(i)).Some? && Renewed(s, Step(t, Harness(i)).value, i, MakeRaft, store)
  {
    AfterReplace(s, t, i, store, MakeRaft);
  }

  lemma GoOn(s: System, t: System, i: ServerName, run: seq<Action>) returns (u: System)
    requires Exec(s, run) == Some(t) && Step(t, Harness(i)).Some?
    ensures Exec(s, run + [Harness(i)]) == Some(u) && u == Step(t, Harness(i)).value
  {
    ExecSnoc(s, run, Harness(i));
    u := Step(t, Harness(i)).value;
  }

  lemma DeleteGoes(s: System, before: seq<Action>, i: ServerName, restart: bool, store: Store)
    returns (run: seq<Action>)
    requires Exec(s, before).Some? && Under(s, Exec(s, before).value, i, CopyOld(restart), store)
    ensures run == before + [Harness(i)] && Exec(s, run).Some?
    ensures Under(s, Exec(s, run).value, i,
                  if HasSaved(Exec(s, before).value, i) then AssignOld(restart, store)
                  else if restart then CopyNew else Idle, store)
  {
    AfterDelete(s, Exec(s, before).value, i, restart, store);
    var u := GoOn(s, Exec(s, before).value, i, before);
    run := before + [Harness(i)];
  }

  lemma CopyGoes(s: System, before: seq<Action>, i: ServerName, restart: bool, store: Store) returns (run: seq<Action>)
    requires Exec(s, before).Some? && Under(s, Exec(s, before).value, i, AssignOld(restart, store), store)
    ensures run == before + [Harness(i)]
    ensures Exec(s, run).Some? && Renewed(s, Exec(s, run).value, i, ReadState(restart), store)
  {
    AfterCopy(s, Exec(s, before).value, i, restart, store);
    var u := GoOn(s, Exec(s, before).value, i, before);
    run := before + [Harness(i)];
  }

  lemma ReadsGo(s: System, before: seq<Action>, i: ServerName, restart: bool, store: Store, pc: Pc)
    returns (run: seq<Action>)
    requires Exec(s, before).Some? && Renewed(s, Exec(s, before).value, i, pc, store)
    requires pc == ReadState(restart) || pc == ReadSnapshot(restart, store.contents.raftstate)
    ensures run == before + [Harness(i)] && Exec(s, run).Some?
    ensures Renewed(s, Exec(s, run).value, i,
                    if pc.ReadState? then ReadSnapshot(restart, store.contents.raftstate)
                    else Rewrite(restart, store.contents.raftstate, store.contents.snapshot), store)
  {
    AfterReads(s, Exec(s, before).value, i, restart, store, pc);
    var u := GoOn(s, Exec(s, before).value, i, before);
    run := before + [Harness(i)];
  }

  lemma RewriteGoes(s: System, before: seq<Action>, i: ServerName, restart: bool, store: Store)
    returns (run: seq<Action>)
    requires Exec(s, before).Some?
    requires Renewed(s, Exec(s, before).value, i,
                     Rewrite(restart, store.contents.raftstate, store.contents.snapshot), store)
    ensures run == before + [Harness(i)]
    ensures Exec(s, run).Some? && Renewed(s, Exec(s, run).value, i, if restart then CopyNew else Idle, store)
  {
    AfterRewrite(s, Exec(s, before).value, i, restart, store);
    var u := GoOn(s, Exec(s, before).value, i, before);
    run := before + [Harness(i)];
  }

  /** crash1 to its end; in start1, up to where it copies cfg.saved[i] for the new instance. */
  lemma CrashGoes(s: System, before: seq<Action>, i: ServerName, restart: bool, store: Store)
    returns (run: seq<Action>)
    requires Exec(s, before).Some? && Under(s, Exec(s, before).value, i, CopyOld(restart), store)
    requires HasSaved(s, i) ==> HasSaved(Exec(s, before).value, i)
    ensures Exec(s, run).Some?
    ensures var u := Exec(s, run).value;
            && Under(s, u, i, if restart then CopyNew else Idle, store)
            && (HasSaved(s, i) ==> HasSaved(u, i) && |s.stores| <= u.saved[i].value)
    ensures forall a :: a in run ==> a in before || a == Harness(i)
  {
    run := DeleteGoes(s, before, i, restart, store);
    if HasSaved(Exec(s, before).value, i) {
      run := CopyGoes(s, run, i, restart, store);
      run := ReadsGo(s, run, i, restart, store, ReadState(restart));
      run := ReadsGo(s, run, i, restart, store, ReadSnapshot(restart, store.contents.raftstate));
      run := RewriteGoes(s, run, i, restart, store);
    }
  }

  lemma CrashBegins(s: System, i: ServerName, restart: bool) returns (run: seq<Action>)
    requires i < |s.saved| == |s.pcs| && s.pcs[i].Idle?
    ensures run == [Begin(i, restart), Harness(i)] && Exec(s, run).Some?
    ensures var t := Exec(s, run).value;
            Under(s, t, i, CopyOld(restart), SavedStoreOrEmpty(s, i)) && t.saved == s.saved && t.stores == s.stores
  {
    assert Exec(s, []) == Some(s);
    ExecSnoc(s, [], Begin(i, restart));
    assert [] + [Begin(i, restart)] == [Begin(i, restart)];
    ExecSnoc(s, [Begin(i, restart)], Harness(i));
    run := [Begin(i, restart)] + [Harness(i)];
  }

  /** A crash1 that nothing disturbs ends with no server and, if cfg.saved[i] was not nil, a new
      persister there that holds what it held. */
  lemma CrashLeaves(s: System, i: ServerName) returns (run: seq<Action>)
    requires Inv(s) && i < |s.pcs| && s.pcs[i].Idle?
    ensures forall a :: a in run ==> a == Begin(i, false) || a == Harness(i)
    ensures Exec(s, run).Some?
    ensures var t := Exec(s, run).value;
            && i < |t.pcs| && t.pcs[i].Idle?
            && i in t.rpc.net.servers && t.rpc.net.servers[i].None?
            && t.instances == s.instances && s.stores <= t.stores && t.rpc.reqs == s.rpc.reqs
            && (s.saved[i].Some? ==>
                  && i < |t.saved| && t.saved[i].Some? && |s.stores| <= t.saved[i].value < |t.stores|
                  && s.saved[i].value < |s.stores| && t.stores[t.saved[i].value] == s.stores[s.saved[i].value])
  {
    run := CrashBegins(s, i, false);
    run := CrashGoes(s, run, i, false, SavedStoreOrEmpty(s, i));
  }

  lemma StartEnds(s: System, t: System, i: ServerName, store: Store)
    requires Renewed(s, t, i, MakeRaft, store)
    ensures Step(t, Harness(i)).Some? && Step(Step(t, Harness(i)).value, Harness(i)).Some?
    ensures var u := Step(Step(t, Harness(i)).value, Harness(i)).value;
            && i < |u.pcs| && u.pcs[i].Idle?
            && i in u.rpc.net.servers && u.rpc.net.servers[i] == Some(|s.instances|)
            && u.instances == s.instances + [Instance(i, t.saved[i].value, store)]
            && u.saved == t.saved && u.stores == t.stores && u.rpc.reqs == t.rpc.reqs
  {
  }

  lemma StartReachesMake(s: System, i: ServerName, store: Store) returns (run: seq<Action>)
    requires i < |s.saved| == |s.pcs| && s.pcs[i].Idle? && store == SavedStoreOrEmpty(s, i)
    ensures forall a :: a in run ==> a == Begin(i, true) || a == Harness(i)
    ensures Exec(s, run).Some? && Renewed(s, Exec(s, run).value, i, MakeRaft, store)
  {
    run := CrashBegins(s, i, true);
    run := CrashGoes(s, run, i, true, store);
    var t := Exec(s, run).value;
    AfterCrash1(s, t, i, store);
    t := GoOn(s, t, i, run);
    run := run + [Harness(i)];
    AfterCopyNew(s, t, i, store);
    t := GoOn(s, t, i, run);
    run := run + [Harness(i)];
  }

  /** A start1 that nothing disturbs ends with a new instance in the server's place, whose
      persister is new, is cfg.saved[i], and holds what the one before it held. */
  lemma StartRestores(s: System, i: ServerName) returns (run: seq<Action>)
    requires Inv(s) && i < |s.pcs| && s.pcs[i].Idle?
    ensures forall a :: a in run ==> a == Begin(i, true) || a == Harness(i)
    ensures Exec(s, run).Some?
    ensures var t := Exec(s, run).value;
            && i < |t.pcs| && t.pcs[i].Idle?
            && i in t.rpc.net.servers && t.rpc.net.servers[i] == Some(|s.instances|)
            && |t.instances| == |s.instances| + 1 && s.instances <= t.instances
            && s.stores <= t.stores && t.rpc.reqs == s.rpc.reqs
            && var made := t.instances[|s.instances|];
               && made.me == i && i < |t.saved| && t.saved[i] == Some(made.persister)
               && |s.stores| <= made.persister < |t.stores| && t.stores[made.persister] == made.given
               && (if s.saved[i].Some? then
                     s.saved[i].value < |s.stores| && made.given == s.stores[s.saved[i].value]
                   else made.given == Store(Contents([], []), []))
  {
    var store := SavedStoreOrEmpty(s, i);
    run := StartReachesMake(s, i, store);
    var t := Exec(s, run).value;
    StartEnds(s, t, i, store);
    t := GoOn(s, t, i, run);
    run := run + [Harness(i)];
    t := GoOn(s, t, i, run);
    run := run + [Harness(i)];
  }
}
