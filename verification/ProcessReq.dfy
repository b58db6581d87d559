// Network.processReq of lab3/labrpc/labrpc.go as a step system. Any number of requests are
// in flight; every atomic section, channel hand-over and random choice is one step, and the
// harness may rewrite the network's tables between any two steps.
module ProcessReq {
  import opened Util
  import opened Labrpc

  datatype ReplyMsg = ReplyMsg(ok: bool, reply: seq<byte>)

  /** What readEndnameInfo found when it found a live server. */
  datatype Target = Target(servername: ServerName, server: ServerRef, reliable: bool, longReordering: bool)

  /** Where the goroutine running processReq stands. */
  datatype Phase =
    | Taken                     // received from endCh by the network's loop
    | Tallied                   // count added
    | Accepted                  // argument bytes added, processReq started
    | Targeted                  // the end-point leads to a live server
    | Waiting                   // in the loop around select
    | Answered(reply: seq<byte>) // replyOK
    | GaveUp                    // the loop saw the server dead
    | Granted(reply: seq<byte>) // the final liveness check passed
    | Delayed(reply: seq<byte>) // a timer will send the reply
    | Counted(reply: seq<byte>) // reply bytes counted, reply not yet sent
    | Denied                    // will send replyMsg{false, nil}
    | Replied(msg: ReplyMsg)

  /** Where the goroutine running server.dispatch stands. */
  datatype Handler =
    | NotSpawned
    | Spawned
    | Running
    | Returned(reply: seq<byte>)
    | Delivered(reply: seq<byte>)

  /** sent counts messages on replyCh and dispatched counts entries to server.dispatch. */
  datatype Req = Req(
    endname: EndName,
    args: seq<byte>,
    to: Option<Target>,
    phase: Phase,
    handler: Handler,
    sent: nat,
    dispatched: nat)

  /** count and bytes are the network's statistics; served holds each Server's count. */
  datatype Rpc = Rpc(net: Net, reqs: seq<Req>, count: nat, bytes: nat, served: map<ServerRef, nat>)

  /** The steps of one request's goroutines. */
  datatype Move =
    | AddCount
    | AddBytes
    | Lookup
    | DropRequest
    | Spawn
    | Dispatch
    | Return(reply: seq<byte>)
    | Receive
    | Timeout
    | Drain
    | FinalCheck
    | DropReply
    | Delay
    | CountReply
    | Send

  datatype Action =
    | Tables(net: Net)                     // the harness changes the network's tables
    | Accept(endname: EndName, args: seq<byte>)
    | Request(k: nat, move: Move)

  function Init(net: Net): Rpc {
    Rpc(net, [], 0, 0, map[])
  }

  function Served(s: Rpc, r: ServerRef): nat {
    if r in s.served then s.served[r] else 0
  }

  function LookupReq(net: Net, q: Req): Req {
    var info := EndnameInfo(net, q.endname);
    if info.enabled && info.servername.Some? && info.server.Some? then
      q.(phase := Targeted,
         to := Some(Target(info.servername.value, info.server.value, info.reliable, info.longReordering)))
    else
      q.(phase := Denied)
  }

  predicate Dead(net: Net, q: Req)
    requires q.to.Some?
  {
    ServerDead(net, q.endname, q.to.value.servername, q.to.value.server)
  }

  /** One step of one request; None when the step is not possible there. */
  function ReqStep(net: Net, q: Req, move: Move): Option<Req> {
    match move
    case AddCount => if q.phase.Taken? then Some(q.(phase := Tallied)) else None
    case AddBytes => if q.phase.Tallied? then Some(q.(phase := Accepted)) else None
    case Lookup => if q.phase.Accepted? then Some(LookupReq(net, q)) else None
    case DropRequest =>
      if q.phase.Targeted? && q.to.Some? && !q.to.value.reliable then Some(q.(phase := Denied)) else None
    case Spawn => if q.phase.Targeted? then Some(q.(phase := Waiting, handler := Spawned)) else None
    case Dispatch =>
      if q.handler.Spawned? && q.to.Some? then Some(q.(handler := Running, dispatched := q.dispatched + 1)) else None
    case Return(reply) => if q.handler.Running? then Some(q.(handler := Returned(reply))) else None
    case Receive =>
      if q.phase.Waiting? && q.handler.Returned? then
        Some(q.(phase := Answered(q.handler.reply), handler := Delivered(q.handler.reply)))
      else None
    case Timeout =>
      if q.phase.Waiting? && q.to.Some? then Some(if Dead(net, q) then q.(phase := GaveUp) else q) else None
    case Drain =>
      if q.handler.Returned? && !q.phase.Waiting? then Some(q.(handler := Delivered(q.handler.reply))) else None
    case FinalCheck =>
      if (q.phase.Answered? || q.phase.GaveUp?) && q.to.Some? then
        Some(q.(phase := if q.phase.GaveUp? || Dead(net, q) then Denied else Granted(q.phase.reply)))
      else None
    case DropReply =>
      if q.phase.Granted? && q.to.Some? && !q.to.value.reliable then Some(q.(phase := Denied)) else None
    case Delay =>
      if q.phase.Granted? && q.to.Some? && q.to.value.longReordering then
        Some(q.(phase := Delayed(q.phase.reply)))
      else None
    case CountReply =>
      if q.phase.Granted? || q.phase.Delayed? then Some(q.(phase := Counted(q.phase.reply))) else None
    case Send =>
      if q.phase.Denied? then Some(q.(phase := Replied(ReplyMsg(false, [])), sent := q.sent + 1))
      else if q.phase.Counted? then Some(q.(phase := Replied(ReplyMsg(true, q.phase.reply)), sent := q.sent + 1))
      else None
  }

  /** The network's loop takes one request at a time. */
  predicate LoopBusy(reqs: seq<Req>) {
    reqs != [] && Unstarted(reqs[|reqs| - 1].phase)
  }

  function Fresh(endname: EndName, args: seq<byte>): Req {
    Req(endname, args, None, Taken, NotSpawned, 0, 0)
  }

  function Step(s: Rpc, a: Action): Option<Rpc> {
    match a
    case Tables(net) => Some(s.(net := net))
    case Accept(endname, args) =>
      if LoopBusy(s.reqs) then None else Some(s.(reqs := s.reqs + [Fresh(endname, args)]))
    case Request(k, move) =>
      if k >= |s.reqs| then None else
      var q := s.reqs[k];
      var q' := ReqStep(s.net, q, move);
      if q'.None? then None else
      var t := s.(reqs := s.reqs[k := q'.value]);
      if move.AddCount? then Some(t.(count := s.count + 1))
      else if move.AddBytes? then Some(t.(bytes := s.bytes + |q.args|))
      else if move.CountReply? then Some(t.(bytes := s.bytes + |q.phase.reply|))
      else if move.Dispatch? then
        Some(t.(served := s.served[q.to.value.server := Served(s, q.to.value.server) + 1]))
      else Some(t)
  }

  function Exec(s: Rpc, run: seq<Action>): Option<Rpc> {
    if run == [] then Some(s) else
    var t := Exec(s, run[..|run| - 1]);
    if t.None? then None else Step(t.value, run[|run| - 1])
  }

  // ---------- what every step keeps ----------

  /** The reply bytes a request is carrying to its client. */
  function ReplyInHand(q: Req): Option<seq<byte>> {
    match q.phase
    case Answered(r) => Some(r)
    case Granted(r) => Some(r)
    case Delayed(r) => Some(r)
    case Counted(r) => Some(r)
    case Replied(m) => if m.ok then Some(m.reply) else None
    case _ => None
  }

  /** Still with the network's loop. */
  predicate Unstarted(p: Phase) {
    p.Taken? || p.Tallied?
  }

  predicate ReqInv(q: Req) {
    && q.sent == (if q.phase.Replied? then 1 else 0)
    && q.dispatched == (if q.handler.NotSpawned? || q.handler.Spawned? then 0 else 1)
    && (Unstarted(q.phase) || q.phase.Accepted? || q.phase.Targeted? ==> q.handler.NotSpawned?)
    && (Unstarted(q.phase) || q.phase.Accepted? ==> q.to.None?)
    && (q.phase.Waiting? ==> !q.handler.NotSpawned? && !q.handler.Delivered?)
    && (ReplyInHand(q).Some? ==> q.handler == Delivered(ReplyInHand(q).value))
    && (q.phase.Targeted? || q.phase.Waiting? || q.phase.GaveUp? || ReplyInHand(q).Some? ==> q.to.Some?)
    && (!q.handler.NotSpawned? ==> q.to.Some?)
    && (q.phase.Replied? && !q.phase.msg.ok ==> q.phase.msg.reply == [])
  }

  /** What the network has counted of this request: the request, its argument bytes and its
      reply bytes. */
  function Requests(q: Req): nat {
    if q.phase.Taken? then 0 else 1
  }

  function ArgBytes(q: Req): nat {
    if Unstarted(q.phase) then 0 else |q.args|
  }

  function OkBytes(q: Req): nat {
    match q.phase
    case Counted(r) => |r|
    case Replied(m) => if m.ok then |m.reply| else 0
    case _ => 0
  }

  function DispatchedTo(r: ServerRef): Req -> nat {
    (q: Req) => if q.to.Some? && q.to.value.server == r then q.dispatched else 0
  }

  ghost predicate Inv(s: Rpc) {
    && (forall k :: 0 <= k < |s.reqs| ==> ReqInv(s.reqs[k]))
    && s.count == Sum(Requests, s.reqs)
    && s.bytes == Sum(ArgBytes, s.reqs) + Sum(OkBytes, s.reqs)
    && (forall r :: Served(s, r) == Sum(DispatchedTo(r), s.reqs))
  }

  lemma SumKeeps(f: Req -> nat, reqs: seq<Req>, q: Req)
    requires f(q) == 0
    ensures Sum(f, reqs + [q]) == Sum(f, reqs)
  {
    SumSnoc(f, reqs, q);
  }

  lemma TakenKeepsServed(s: Rpc, q: Req, r: ServerRef)
    requires Served(s, r) == Sum(DispatchedTo(r), s.reqs) && q.to.None?
    ensures Served(s.(reqs := s.reqs + [q]), r) == Sum(DispatchedTo(r), s.reqs + [q])
  {
    SumKeeps(DispatchedTo(r), s.reqs, q);
  }

  lemma TakenKeepsReqs(reqs: seq<Req>, q: Req)
    requires ReqInv(q) && forall k :: 0 <= k < |reqs| ==> ReqInv(reqs[k])
    ensures forall k :: 0 <= k < |reqs + [q]| ==> ReqInv((reqs + [q])[k])
  {
  }

  lemma AcceptKeepsInv(s: Rpc, endname: EndName, args: seq<byte>)
    requires Inv(s) && Step(s, Accept(endname, args)).Some?
    ensures Inv(Step(s, Accept(endname, args)).value)
  {
    var q := Fresh(endname, args);
    TakenKeepsReqs(s.reqs, q);
    SumKeeps(Requests, s.reqs, q);
    SumKeeps(ArgBytes, s.reqs, q);
    SumKeeps(OkBytes, s.reqs, q);
    forall r: ServerRef ensures Served(s.(reqs := s.reqs + [q]), r) == Sum(DispatchedTo(r), s.reqs + [q]) {
      TakenKeepsServed(s, q, r);
    }
  }

  lemma MoveKeepsReqInv(net: Net, q: Req, move: Move)
    requires ReqInv(q) && ReqStep(net, q, move).Some?
    ensures var q' := ReqStep(net, q, move).value;
            && ReqInv(q') && q'.args == q.args
            && q'.to == (if move.Lookup? then LookupReq(net, q).to else q.to)
            && Requests(q') == Requests(q) + (if move.AddCount? then 1 else 0)
            && ArgBytes(q') == ArgBytes(q) + (if move.AddBytes? then |q.args| else 0)
            && OkBytes(q') == OkBytes(q) + (if move.CountReply? then |q.phase.reply| else 0)
            && q'.dispatched == q.dispatched + (if move.Dispatch? then 1 else 0)
    ensures move.Lookup? ==> q.dispatched == 0
  {
  }

  lemma MoveKeepsServed(s: Rpc, k: nat, move: Move, r: ServerRef)
    requires Inv(s) && Step(s, Request(k, move)).Some?
    ensures var s' := Step(s, Request(k, move)).value; Served(s', r) == Sum(DispatchedTo(r), s'.reqs)
  {
    var q := s.reqs[k];
    var q' := ReqStep(s.net, q, move).value;
    assert ReqInv(q);
    MoveKeepsReqInv(s.net, q, move);
    SumUpdate(DispatchedTo(r), s.reqs, k, q');
    assert Served(s, r) == Sum(DispatchedTo(r), s.reqs);
  }

  lemma StepKeepsInv(s: Rpc, a: Action)
    requires Inv(s) && Step(s, a).Some?
    ensures Inv(Step(s, a).value)
  {
    match a
    case Tables(net) =>
    case Accept(endname, args) => AcceptKeepsInv(s, endname, args);
    case Request(k, move) =>
      var q := s.reqs[k];
      var q' := ReqStep(s.net, q, move).value;
      assert ReqInv(q);
      MoveKeepsReqInv(s.net, q, move);
      SumUpdate(Requests, s.reqs, k, q');
      SumUpdate(ArgBytes, s.reqs, k, q');
      SumUpdate(OkBytes, s.reqs, k, q');
      forall r {
        MoveKeepsServed(s, k, move, r);
      }
  }

  lemma {:induction false} ExecInv(net: Net, run: seq<Action>)
    requires Exec(Init(net), run).Some?
    ensures Inv(Exec(Init(net), run).value)
  {
    if run != [] {
      ExecInv(net, run[..|run| - 1]);
      StepKeepsInv(Exec(Init(net), run[..|run| - 1]).value, run[|run| - 1]);
    }
  }

  // ---------- main results ----------

  /** In every interleaving a request gets at most one message and enters the handler at most
      once; an ok message carries exactly what that one dispatch returned. */
  lemma ExactlyOneReply(net: Net, run: seq<Action>, k: nat)
    requires Exec(Init(net), run).Some?
    requires k < |Exec(Init(net), run).value.reqs|
    ensures var q := Exec(Init(net), run).value.reqs[k];
            && q.sent == (if q.phase.Replied? then 1 else 0)
            && q.dispatched <= 1
            && (q.phase.Replied? && q.phase.msg.ok ==>
                  q.dispatched == 1 && q.handler == Delivered(q.phase.msg.reply))
            && (q.phase.Replied? && !q.phase.msg.ok ==> q.phase.msg.reply == [])
  {
    ExecInv(net, run);
    assert ReqInv(Exec(Init(net), run).value.reqs[k]);
  }

  ghost predicate Quiescent(s: Rpc) {
    forall k :: 0 <= k < |s.reqs| ==> s.reqs[k].phase.Replied?
  }

  lemma HandlerStep(s: Rpc, a: Action, k: nat)
    requires Step(s, a).Some? && k < |Step(s, a).value.reqs|
    ensures var h' := Step(s, a).value.reqs[k].handler;
            h'.Returned? || h'.Delivered? ==>
              || a == Request(k, Return(h'.reply))
              || (k < |s.reqs| && (s.reqs[k].handler.Returned? || s.reqs[k].handler.Delivered?)
                  && s.reqs[k].handler.reply == h'.reply)
  {
  }

  lemma {:induction false} HandlersReturn(net: Net, run: seq<Action>, k: nat)
    requires Exec(Init(net), run).Some? && k < |Exec(Init(net), run).value.reqs|
    ensures var h := Exec(Init(net), run).value.reqs[k].handler;
            h.Returned? || h.Delivered? ==> exists j :: 0 <= j < |run| && run[j] == Request(k, Return(h.reply))
  {
    if run != [] {
      var init, a := run[..|run| - 1], run[|run| - 1];
      var s := Exec(Init(net), init).value;
      var h' := Exec(Init(net), run).value.reqs[k].handler;
      HandlerStep(s, a, k);
      if (h'.Returned? || h'.Delivered?) && a != Request(k, Return(h'.reply)) {
        HandlersReturn(net, init, k);
        var j :| 0 <= j < |init| && init[j] == Request(k, Return(h'.reply));
        assert run[j] == init[j];
      }
    }
  }

  /** The bytes of an ok reply are those that the request's handler returned. */
  lemma ReplyIsTheHandlers(net: Net, run: seq<Action>, k: nat)
    requires Exec(Init(net), run).Some? && k < |Exec(Init(net), run).value.reqs|
    requires var p := Exec(Init(net), run).value.reqs[k].phase; p.Replied? && p.msg.ok
    ensures exists j ::
              0 <= j < |run| && run[j] == Request(k, Return(Exec(Init(net), run).value.reqs[k].phase.msg.reply))
  {
    ExecInv(net, run);
    assert ReqInv(Exec(Init(net), run).value.reqs[k]);
    HandlersReturn(net, run, k);
  }

  /** Accepting takes the request with its end-point and arguments and touches no other. */
  lemma AcceptTakes(s: Rpc, endname: EndName, args: seq<byte>)
    requires Step(s, Accept(endname, args)).Some?
    ensures var s' := Step(s, Accept(endname, args)).value;
            && s'.reqs == s.reqs + [Req(endname, args, None, Taken, NotSpawned, 0, 0)]
            && s'.count == s.count && s'.bytes == s.bytes && s'.served == s.served && s'.net == s.net
  {
  }

  /** A request keeps its end-point and arguments. */
  lemma {:induction false} RequestsKeep(s: Rpc, run: seq<Action>, k: nat)
    requires Exec(s, run).Some? && k < |s.reqs|
    ensures var s' := Exec(s, run).value;
            k < |s'.reqs| && s'.reqs[k].endname == s.reqs[k].endname && s'.reqs[k].args == s.reqs[k].args
  {
    if run != [] {
      RequestsKeep(s, run[..|run| - 1], k);
    }
  }

  lemma ServedIsCount(s: Rpc, r: ServerRef)
    requires Inv(s)
    ensures (if r in s.served then s.served[r] else 0) ==
            |set k: nat | && k < |s.reqs| && s.reqs[k].to.Some? && s.reqs[k].to.value.server == r
                          && !s.reqs[k].handler.NotSpawned? && !s.reqs[k].handler.Spawned?|
  {
    var f := DispatchedTo(r);
    assert Served(s, r) == Sum(f, s.reqs);
    forall k | 0 <= k < |s.reqs|
      ensures f(s.reqs[k]) == if && s.reqs[k].to.Some? && s.reqs[k].to.value.server == r
                                 && !s.reqs[k].handler.NotSpawned? && !s.reqs[k].handler.Spawned?
                              then 1 else 0
    {
      assert ReqInv(s.reqs[k]);
    }
    var counted := SumIsCount(f, s.reqs);
    var entered := set k: nat | && k < |s.reqs| && s.reqs[k].to.Some? && s.reqs[k].to.value.server == r
                                && !s.reqs[k].handler.NotSpawned? && !s.reqs[k].handler.Spawned?;
    assert counted == entered;
  }

  /** Once every request is answered, the statistics account for exactly the accepted requests
      and their arguments and for the replies delivered with ok; sent and delivered name those
      lengths. */
  lemma Conservation(net: Net, run: seq<Action>, sent: Req -> nat, delivered: Req -> nat)
    requires Exec(Init(net), run).Some?
    requires forall k :: 0 <= k < |Exec(Init(net), run).value.reqs| ==>
               Exec(Init(net), run).value.reqs[k].phase.Replied?
    requires forall q: Req :: sent(q) == |q.args|
    requires forall q: Req :: delivered(q) == if q.phase.Replied? && q.phase.msg.ok then |q.phase.msg.reply| else 0
    ensures var s := Exec(Init(net), run).value;
            && s.count == |s.reqs|
            && s.bytes == Sum(sent, s.reqs) + Sum(delivered, s.reqs)
  {
    ExecInv(net, run);
    var s := Exec(Init(net), run).value;
    forall k | 0 <= k < |s.reqs|
      ensures Requests(s.reqs[k]) == 1 && ArgBytes(s.reqs[k]) == sent(s.reqs[k])
      ensures OkBytes(s.reqs[k]) == delivered(s.reqs[k])
    {
      assert s.reqs[k].phase.Replied?;
    }
    SumConstant(Requests, s.reqs, 1);
    SumAgree(ArgBytes, sent, s.reqs);
    SumAgree(OkBytes, delivered, s.reqs);
  }

  /** At every moment a server's count is the number of requests whose handler has been entered. */
  lemma ServerCounts(net: Net, run: seq<Action>, r: ServerRef)
    requires Exec(Init(net), run).Some?
    ensures var s := Exec(Init(net), run).value;
            (if r in s.served then s.served[r] else 0) ==
            |set k: nat | && k < |s.reqs| && s.reqs[k].to.Some? && s.reqs[k].to.value.server == r
                          && !s.reqs[k].handler.NotSpawned? && !s.reqs[k].handler.Spawned?|
  {
    ExecInv(net, run);
    ServedIsCount(Exec(Init(net), run).value, r);
  }

  function PhaseLeft(p: Phase): nat {
    match p
    case Taken => 11
    case Tallied => 10
    case Accepted => 9
    case Targeted => 8
    case Waiting => 7
    case Answered(_) => 6
    case GaveUp => 6
    case Granted(_) => 5
    case Delayed(_) => 4
    case Counted(_) => 3
    case Denied => 3
    case Replied(_) => 0
  }

  function HandlerLeft(h: Handler): nat {
    match h
    case NotSpawned => 4
    case Spawned => 3
    case Running => 2
    case Returned(_) => 1
    case Delivered(_) => 0
  }

  /** An upper bound on the steps that the two goroutines of a request can still take. */
  function StepsLeft(q: Req): nat {
    PhaseLeft(q.phase) + HandlerLeft(q.handler)
  }

  /** The poll of a loop that finds the server still alive. */
  predicate Idle(net: Net, q: Req, move: Move) {
    move.Timeout? && q.to.Some? && !Dead(net, q)
  }

  /** 1 for a step of a request that is not an idle poll. */
  function Busy(s: Rpc, a: Action): nat {
    if a.Request? && a.k < |s.reqs| && !Idle(s.net, s.reqs[a.k], a.move) then 1 else 0
  }

  function BusySteps(s: Rpc, run: seq<Action>): nat {
    if run == [] then 0 else
    var t := Exec(s, run[..|run| - 1]);
    BusySteps(s, run[..|run| - 1]) + (if t.Some? then Busy(t.value, run[|run| - 1]) else 0)
  }

  /** Every step of a request other than an idle poll brings it closer to its end. */
  lemma MoveUsesUp(net: Net, q: Req, move: Move)
    requires ReqInv(q) && ReqStep(net, q, move).Some?
    ensures var q' := ReqStep(net, q, move).value;
            if Idle(net, q, move) then q' == q else StepsLeft(q') < StepsLeft(q)
  {
  }

  lemma StepUsesUp(s: Rpc, a: Action)
    requires Inv(s) && Step(s, a).Some?
    ensures var s' := Step(s, a).value;
            Sum(StepsLeft, s'.reqs) + Busy(s, a) <= Sum(StepsLeft, s.reqs) + 15 * (|s'.reqs| - |s.reqs|)
  {
    match a
    case Tables(net) =>
    case Accept(endname, args) =>
      SumSnoc(StepsLeft, s.reqs, Fresh(endname, args));
    case Request(k, move) =>
      assert ReqInv(s.reqs[k]);
      MoveUsesUp(s.net, s.reqs[k], move);
      SumUpdate(StepsLeft, s.reqs, k, ReqStep(s.net, s.reqs[k], move).value);
  }

  /** No request goes on for ever: over any run the requests together take at most 15 steps
      each, idle polls apart. */
  lemma {:induction false} BoundedWork(net: Net, run: seq<Action>)
    requires Exec(Init(net), run).Some?
    ensures var s := Exec(Init(net), run).value;
            BusySteps(Init(net), run) + Sum(StepsLeft, s.reqs) <= 15 * |s.reqs|
  {
    if run != [] {
      var init := run[..|run| - 1];
      BoundedWork(net, init);
      ExecInv(net, init);
      StepUsesUp(Exec(Init(net), init).value, run[|run| - 1]);
    }
  }

  /** Answered, and no goroutine of the request is left: none is waiting to hand over a reply. */
  predicate Done(q: Req) {
    q.phase.Replied? && (q.handler.NotSpawned? || q.handler.Delivered?)
  }

  function HandlerMove(h: Handler): Move {
    match h
    case NotSpawned => Drain
    case Spawned => Dispatch
    case Running => Return([])
    case Returned(_) => Drain
    case Delivered(_) => Drain
  }

  /** A request that is not done always has a next step that brings it closer to its end. */
  function NextMove(q: Req): Move {
    match q.phase
    case Taken => AddCount
    case Tallied => AddBytes
    case Accepted => Lookup
    case Targeted => Spawn
    case Waiting => if q.handler.Returned? then Receive else HandlerMove(q.handler)
    case Answered(_) => FinalCheck
    case GaveUp => FinalCheck
    case Granted(_) => CountReply
    case Delayed(_) => CountReply
    case Counted(_) => Send
    case Denied => Send
    case Replied(_) => HandlerMove(q.handler)
  }

  lemma NextMovePossible(net: Net, q: Req)
    requires ReqInv(q) && !Done(q)
    ensures ReqStep(net, q, NextMove(q)).Some? && !NextMove(q).Timeout?
  {
  }

  lemma Progress(s: Rpc, k: nat)
    requires Inv(s) && k < |s.reqs| && !Done(s.reqs[k])
    ensures Step(s, Request(k, NextMove(s.reqs[k]))).Some?
    ensures Sum(StepsLeft, Step(s, Request(k, NextMove(s.reqs[k]))).value.reqs) < Sum(StepsLeft, s.reqs)
  {
    assert ReqInv(s.reqs[k]);
    NextMovePossible(s.net, s.reqs[k]);
    StepUsesUp(s, Request(k, NextMove(s.reqs[k])));
  }

  lemma {:induction false} ExecThen(s: Rpc, a: Action, run: seq<Action>)
    requires Step(s, a).Some?
    ensures Exec(s, [a] + run) == Exec(Step(s, a).value, run)
  {
    if run == [] {
      assert ([a] + run)[..0] == [];
    } else {
      var n := |run| - 1;
      ExecThen(s, a, run[..n]);
      assert ([a] + run)[..n + 1] == [a] + run[..n];
    }
  }

  ghost predicate AllDone(s: Rpc) {
    forall k :: 0 <= k < |s.reqs| ==> Done(s.reqs[k])
  }

  /** From every state the requests can all come to their end, as long as the handlers return:
      no branch of processReq forgets to reply, and no dispatch is left with a reply that nobody
      takes. */
  lemma {:induction false} CanQuiesce(s: Rpc) returns (run: seq<Action>)
    requires Inv(s)
    ensures Exec(s, run).Some? && Quiescent(Exec(s, run).value) && AllDone(Exec(s, run).value)
    decreases Sum(StepsLeft, s.reqs)
  {
    if AllDone(s) {
      run := [];
    } else {
      var k :| 0 <= k < |s.reqs| && !Done(s.reqs[k]);
      var a := Request(k, NextMove(s.reqs[k]));
      Progress(s, k);
      StepKeepsInv(s, a);
      var rest := CanQuiesce(Step(s, a).value);
      ExecThen(s, a, rest);
      run := [a] + rest;
    }
  }

  // ---------- what the tables decide ----------

  /** A request goes on exactly when its end-point is enabled and leads to a live server. */
  lemma LookupDecides(net: Net, q: Req)
    requires q.phase.Accepted?
    ensures ReqStep(net, q, Lookup).Some?
    ensures var q' := ReqStep(net, q, Lookup).value;
            if && q.endname in net.enabled && net.enabled[q.endname]
               && q.endname in net.connections && net.connections[q.endname].Some?
               && net.connections[q.endname].value in net.servers
               && net.servers[net.connections[q.endname].value].Some?
            then
              var i := net.connections[q.endname].value;
              q'.phase == Targeted && q'.to == Some(Target(i, net.servers[i].value, net.reliable, net.longReordering))
            else q'.phase == Denied
  {
  }

  /** A reply in hand is let through exactly when the end-point is still enabled and its server
      still the one it was sent to. */
  lemma FinalCheckDecides(net: Net, q: Req)
    requires q.phase.Answered? || q.phase.GaveUp?
    requires q.to.Some?
    ensures ReqStep(net, q, FinalCheck).Some?
    ensures var q' := ReqStep(net, q, FinalCheck).value;
            var i := q.to.value.servername;
            if && q.phase.Answered?
               && q.endname in net.enabled && net.enabled[q.endname]
               && i in net.servers && net.servers[i] == Some(q.to.value.server)
            then q'.phase == Granted(q.phase.reply)
            else q'.phase == Denied
  {
  }

  /** A poll gives up exactly when that no longer holds. */
  lemma PollDecides(net: Net, q: Req)
    requires q.phase.Waiting? && q.to.Some?
    ensures ReqStep(net, q, Timeout).Some?
    ensures var q' := ReqStep(net, q, Timeout).value;
            var i := q.to.value.servername;
            if && q.endname in net.enabled && net.enabled[q.endname]
               && i in net.servers && net.servers[i] == Some(q.to.value.server)
            then q' == q
            else q' == q.(phase := GaveUp)
  {
  }

  /** The final check has not let it through. */
  predicate NotGranted(q: Req) {
    !q.phase.Granted? && !q.phase.Delayed? && !q.phase.Counted? && !(q.phase.Replied? && q.phase.msg.ok)
  }

  lemma StepGrantsNothing(s: Rpc, a: Action, k: nat)
    requires Step(s, a).Some? && k < |s.reqs| && NotGranted(s.reqs[k])
    requires !(s.reqs[k].endname in s.net.enabled && s.net.enabled[s.reqs[k].endname])
    ensures var s' := Step(s, a).value;
            k < |s'.reqs| && NotGranted(s'.reqs[k]) && s'.reqs[k].endname == s.reqs[k].endname
  {
    if a.Request? && a.k == k && a.move.FinalCheck? && s.reqs[k].to.Some? {
      if s.reqs[k].phase.Answered? || s.reqs[k].phase.GaveUp? {
        FinalCheckDecides(s.net, s.reqs[k]);
      }
    }
  }

  /** A request whose end-point is disabled before its final check, and stays so, is never
      answered with ok, however far its handler has come. */
  lemma {:induction false} DisabledBeforeCheck(s: Rpc, run: seq<Action>, k: nat)
    requires Exec(s, run).Some? && k < |s.reqs|
    requires var p := s.reqs[k].phase;
             !p.Granted? && !p.Delayed? && !p.Counted? && !(p.Replied? && p.msg.ok)
    requires var e := s.reqs[k].endname;
             && !(e in s.net.enabled && s.net.enabled[e])
             && forall i :: 0 <= i < |run| && run[i].Tables? ==>
                  !(e in run[i].net.enabled && run[i].net.enabled[e])
    ensures var s' := Exec(s, run).value;
            && k < |s'.reqs| && s'.reqs[k].endname == s.reqs[k].endname && NotGranted(s'.reqs[k])
            && !(s'.reqs[k].phase.Replied? && s'.reqs[k].phase.msg.ok)
            && !(s.reqs[k].endname in s'.net.enabled && s'.net.enabled[s.reqs[k].endname])
  {
    if run != [] {
      var init := run[..|run| - 1];
      DisabledBeforeCheck(s, init, k);
      StepGrantsNothing(Exec(s, init).value, run[|run| - 1], k);
    }
  }

  /** The tables lead end-point e to server number i, object r, over a reliable network without
      reordering. */
  ghost predicate Leads(net: Net, e: EndName, i: ServerName, r: ServerRef) {
    && e in net.enabled && net.enabled[e]
    && e in net.connections && net.connections[e] == Some(i)
    && i in net.servers && net.servers[i] == Some(r)
    && net.reliable && !net.longReordering
  }

  ghost predicate OnItsWay(q: Req, e: EndName, i: ServerName, r: ServerRef) {
    && q.endname == e
    && !q.phase.Denied? && !q.phase.GaveUp? && !q.phase.Delayed? && (q.phase.Replied? ==> q.phase.msg.ok)
    && (q.to.Some? ==> q.to.value == Target(i, r, true, false))
    && (Unstarted(q.phase) || q.phase.Accepted? || q.to.Some?)
  }

  lemma StepOnItsWay(net: Net, q: Req, move: Move, i: ServerName, r: ServerRef)
    requires OnItsWay(q, q.endname, i, r) && Leads(net, q.endname, i, r) && ReqStep(net, q, move).Some?
    ensures OnItsWay(ReqStep(net, q, move).value, q.endname, i, r)
  {
  }

  lemma {:induction false} StaysOnItsWay(s: Rpc, run: seq<Action>, k: nat, i: ServerName, r: ServerRef)
    requires Exec(s, run).Some? && k < |s.reqs| && OnItsWay(s.reqs[k], s.reqs[k].endname, i, r)
    requires Leads(s.net, s.reqs[k].endname, i, r)
    requires forall j :: 0 <= j < |run| && run[j].Tables? ==> Leads(run[j].net, s.reqs[k].endname, i, r)
    ensures var s' := Exec(s, run).value;
            && k < |s'.reqs| && OnItsWay(s'.reqs[k], s.reqs[k].endname, i, r)
            && Leads(s'.net, s.reqs[k].endname, i, r)
  {
    if run != [] {
      var init, a := run[..|run| - 1], run[|run| - 1];
      StaysOnItsWay(s, init, k, i, r);
      var t := Exec(s, init).value;
      if a.Request? && a.k == k {
        StepOnItsWay(t.net, t.reqs[k], a.move, i, r);
      }
    }
  }

  /** Nothing else is lost: over a reliable network, a request whose end-point stays enabled and
      leads to the same live server throughout is answered only with ok, and without reordering
      its reply is never delayed. */
  lemma ReliableAnswers(s: Rpc, run: seq<Action>, k: nat, i: ServerName, r: ServerRef)
    requires Exec(s, run).Some? && k < |s.reqs| && s.reqs[k].phase.Taken? && s.reqs[k].to.None?
    requires forall net: Net :: net == s.net || (exists j :: 0 <= j < |run| && run[j] == Tables(net)) ==>
               var e := s.reqs[k].endname;
               && e in net.enabled && net.enabled[e]
               && e in net.connections && net.connections[e] == Some(i)
               && i in net.servers && net.servers[i] == Some(r)
               && net.reliable && !net.longReordering
    ensures var s' := Exec(s, run).value;
            && k < |s'.reqs| && !s'.reqs[k].phase.Delayed?
            && (s'.reqs[k].phase.Replied? ==> s'.reqs[k].phase.msg.ok)
  {
    forall j | 0 <= j < |run| && run[j].Tables? ensures Leads(run[j].net, s.reqs[k].endname, i, r) {
      assert run[j] == Tables(run[j].net);
    }
    StaysOnItsWay(s, run, k, i, r);
  }

  // ---------- disabled end-points ----------

  /** Never let through: it has only been denied. */
  predicate ShutOut(q: Req) {
    && q.handler.NotSpawned? && q.dispatched == 0
    && (Unstarted(q.phase) || q.phase.Accepted? || q.phase.Denied? || (q.phase.Replied? && !q.phase.msg.ok))
  }

  /** The harness never enables end-point e during the run. */
  predicate StaysDisabled(run: seq<Action>, e: EndName) {
    forall i :: 0 <= i < |run| && run[i].Tables? ==> !EndEnabled(run[i].net, e)
  }

  ghost predicate AllShutOut(s: Rpc, e: EndName, from: nat) {
    && !EndEnabled(s.net, e)
    && |s.reqs| >= from
    && forall k :: from <= k < |s.reqs| && s.reqs[k].endname == e ==> ShutOut(s.reqs[k])
  }

  lemma StepShutsOut(s: Rpc, a: Action, e: EndName, from: nat)
    requires Step(s, a).Some? && AllShutOut(s, e, from) && (a.Tables? ==> !EndEnabled(a.net, e))
    ensures AllShutOut(Step(s, a).value, e, from)
  {
  }

  /** A request sent on an end-point that is disabled and stays so never reaches a server and
      is never answered with ok, whatever else goes on. */
  lemma {:induction false} DisabledNeverDispatched(s: Rpc, run: seq<Action>, e: EndName)
    requires Exec(s, run).Some? && !EndEnabled(s.net, e) && StaysDisabled(run, e)
    ensures AllShutOut(Exec(s, run).value, e, |s.reqs|)
    ensures var reqs := Exec(s, run).value.reqs;
            forall k :: |s.reqs| <= k < |reqs| && reqs[k].endname == e ==>
              && reqs[k].handler.NotSpawned? && reqs[k].dispatched == 0
              && !(reqs[k].phase.Replied? && reqs[k].phase.msg.ok)
  {
    if run != [] {
      DisabledNeverDispatched(s, run[..|run| - 1], e);
      StepShutsOut(Exec(s, run[..|run| - 1]).value, run[|run| - 1], e, |s.reqs|);
    }
  }
}
