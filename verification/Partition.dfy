// The partition controls of lab3/raft/config.go: connect, disconnect, crash1 and start1 as
// methods over the Network of Labrpc, specified by functions on values. Main result: between
// operations the enabled end-points are exactly the connected pairs, and end-points of
// earlier instances stay dead. What crash1 and start1 do to persisters is in Durability.
module Partition {
  import opened Util
  import opened Labrpc
  import R = ProcessReq

  type Row = Option<seq<EndName>>

  /** cfg.net, cfg.connected and cfg.endnames; a row is None before the first start1. */
  datatype Harness = Harness(net: Net, connected: seq<bool>, endnames: seq<Row>)

  function Init(n: nat): Harness {
    Harness(EMPTY_NET, seq(n, _ => false), seq(n, _ => None))
  }

  predicate Shaped(h: Harness) {
    && |h.connected| == |h.endnames|
    && (forall i :: 0 <= i < |h.endnames| && h.endnames[i].Some? ==> |h.endnames[i].value| == |h.endnames|)
    && (forall i :: 0 <= i < |h.endnames| && h.connected[i] ==> h.endnames[i].Some?)
  }

  /** The names in a row for the first upto peers that sel picks. */
  function RowNames(row: Row, sel: seq<bool>, upto: nat): set<EndName>
    requires upto <= |sel| && (row.Some? ==> |row.value| == |sel|)
  {
    if upto == 0 then {} else
    RowNames(row, sel, upto - 1) +
    (if sel[upto - 1] && row.Some? then {row.value[upto - 1]} else {})
  }

  /** The names that the first upto peers picked by sel have for server i. */
  function ColNames(endnames: seq<Row>, i: nat, sel: seq<bool>, upto: nat): set<EndName>
    requires upto <= |sel| == |endnames| && i < |endnames|
    requires forall j :: 0 <= j < |endnames| && endnames[j].Some? ==> |endnames[j].value| == |endnames|
  {
    if upto == 0 then {} else
    ColNames(endnames, i, sel, upto - 1) +
    (if sel[upto - 1] && endnames[upto - 1].Some? then {endnames[upto - 1].value[i]} else {})
  }

  function Names(h: Harness, i: nat, sel: seq<bool>): set<EndName>
    requires Shaped(h) && i < |h.endnames| == |sel|
  {
    RowNames(h.endnames[i], sel, |sel|) + ColNames(h.endnames, i, sel, |sel|)
  }

  function SetAll(enabled: map<EndName, bool>, names: set<EndName>, b: bool): map<EndName, bool> {
    enabled + map e | e in names :: b
  }

  lemma SetAllAdd(enabled: map<EndName, bool>, names: set<EndName>, e: EndName, b: bool)
    ensures SetAll(enabled, names + {e}, b) == SetAll(enabled, names, b)[e := b]
  {
  }

  lemma SetAllTwice(enabled: map<EndName, bool>, a: set<EndName>, c: set<EndName>, b: bool)
    ensures SetAll(SetAll(enabled, a, b), c, b) == SetAll(enabled, a + c, b)
  {
  }

  function Connected(h: Harness, i: nat): Harness
    requires Shaped(h) && i < |h.connected|
  {
    var connected := h.connected[i := true];
    h.(connected := connected,
       net := h.net.(enabled := SetAll(h.net.enabled, Names(h, i, connected), true)))
  }

  function Disconnected(h: Harness, i: nat): Harness
    requires Shaped(h) && i < |h.connected|
  {
    h.(connected := h.connected[i := false],
       net := h.net.(enabled := SetAll(h.net.enabled, Names(h, i, seq(|h.connected|, _ => true)), false)))
  }

  function Crashed(h: Harness, i: nat): Harness
    requires Shaped(h) && i < |h.connected|
  {
    var d := Disconnected(h, i);
    d.(net := d.net.(servers := d.net.servers[i := None]))
  }

  predicate Fresh(names: seq<EndName>, ends: set<EndName>) {
    && (forall j :: 0 <= j < |names| ==> names[j] !in ends)
    && (forall j, k :: 0 <= j < k < |names| ==> names[j] != names[k])
  }

  lemma FreshStep(names: seq<EndName>, ends: set<EndName>, j: nat)
    requires j < |names| && Fresh(names[..j], ends)
    ensures Fresh(names[..j + 1], ends) <==> names[j] !in ends && names[j] !in names[..j]
    ensures Fresh(names, ends) ==> Fresh(names[..j + 1], ends)
  {
    assert names[..j + 1] == names[..j] + [names[j]];
  }

  /** The network with end-points for names, the j-th one leading to server j. */
  function WithEnds(net: Net, names: seq<EndName>): Net {
    if names == [] then net else
    var j := |names| - 1;
    var prev := WithEnds(net, names[..j]);
    prev.(ends := prev.ends + {names[j]},
          enabled := prev.enabled[names[j] := false],
          connections := prev.connections[names[j] := Some(j)])
  }

  function Started(h: Harness, i: nat, names: seq<EndName>, server: ServerRef): Harness
    requires Shaped(h) && i < |h.connected| == |names|
  {
    var c := Crashed(h, i);
    var net := WithEnds(c.net, names);
    c.(endnames := c.endnames[i := Some(names)],
       net := net.(servers := net.servers[i := Some(server)]))
  }

  // ---------- the network calls of each operation, in order ----------

  function RowCalls(row: Row, sel: seq<bool>, upto: nat, b: bool): seq<Call>
    requires upto <= |sel| && (row.Some? ==> |row.value| == |sel|)
  {
    if upto == 0 then [] else
    RowCalls(row, sel, upto - 1, b) +
    (if sel[upto - 1] && row.Some? then [EnableCall(row.value[upto - 1], b)] else [])
  }

  function ColCalls(endnames: seq<Row>, i: nat, sel: seq<bool>, upto: nat, b: bool): seq<Call>
    requires upto <= |sel| == |endnames| && i < |endnames|
    requires forall j :: 0 <= j < |endnames| && endnames[j].Some? ==> |endnames[j].value| == |endnames|
  {
    if upto == 0 then [] else
    ColCalls(endnames, i, sel, upto - 1, b) +
    (if sel[upto - 1] && endnames[upto - 1].Some? then [EnableCall(endnames[upto - 1].value[i], b)] else [])
  }

  function BothCalls(h: Harness, i: nat, sel: seq<bool>, b: bool): seq<Call>
    requires Shaped(h) && i < |h.endnames| == |sel|
  {
    RowCalls(h.endnames[i], sel, |sel|, b) + ColCalls(h.endnames, i, sel, |sel|, b)
  }

  function EndCalls(names: seq<EndName>): seq<Call> {
    if names == [] then [] else
    var j := |names| - 1;
    EndCalls(names[..j]) + [MakeEndCall(names[j]), ConnectCall(names[j], j)]
  }

  lemma EndStep(net: Net, names: seq<EndName>, j: nat)
    requires j < |names|
    ensures WithEnds(net, names[..j + 1]) ==
            Applied(Applied(WithEnds(net, names[..j]), MakeEndCall(names[j])), ConnectCall(names[j], j))
    ensures EndCalls(names[..j + 1]) ==
            EndCalls(names[..j]) + [MakeEndCall(names[j])] + [ConnectCall(names[j], j)]
  {
    assert names[..j + 1][..j] == names[..j];
  }

  function ConnectCalls(h: Harness, i: nat): seq<Call>
    requires Shaped(h) && i < |h.connected|
  {
    BothCalls(h, i, h.connected[i := true], true)
  }

  function DisconnectCalls(h: Harness, i: nat): seq<Call>
    requires Shaped(h) && i < |h.connected|
  {
    BothCalls(h, i, seq(|h.connected|, _ => true), false)
  }

  function CrashCalls(h: Harness, i: nat): seq<Call>
    requires Shaped(h) && i < |h.connected|
  {
    DisconnectCalls(h, i) + [DeleteServerCall(i)]
  }

  function StartCalls(h: Harness, i: nat, names: seq<EndName>, server: ServerRef): seq<Call>
    requires Shaped(h) && i < |h.connected|
  {
    CrashCalls(h, i) + EndCalls(names) + [AddServerCall(i, server)]
  }

  class Cluster {
    const n: nat
    const net: Network
    var connected: seq<bool>
    var endnames: seq<Row>

    ghost function View(): Harness
      reads this, net
    {
      Harness(net.View(), connected, endnames)
    }

    ghost predicate Valid()
      reads this, net
    {
      n == |connected| && Shaped(View())
    }

    constructor (n: nat)
      ensures Valid() && this.n == n && View() == Init(n) && fresh(net)
    {
      this.n := n;
      this.net := new Network();
      connected := seq(n, _ => false);
      endnames := seq(n, _ => None);
    }

    /** The loop over outgoing ClientEnds: row i, for the peers that sel picks. */
    method EnableRow(i: nat, sel: seq<bool>, b: bool)
      requires Valid() && i < n == |sel|
      modifies net
      ensures net.View() == old(net.View()).(enabled := SetAll(old(net.enabled), RowNames(endnames[i], sel, n), b))
      ensures net.calls == old(net.calls) + RowCalls(endnames[i], sel, n, b)
    {
      ghost var was := net.View();
      for j := 0 to n
        invariant net.calls == old(net.calls) + RowCalls(endnames[i], sel, j, b)
        invariant net.View() == was.(enabled := SetAll(was.enabled, RowNames(endnames[i], sel, j), b))
      {
        if sel[j] && endnames[i].Some? {
          SetAllAdd(was.enabled, RowNames(endnames[i], sel, j), endnames[i].value[j], b);
          net.Enable(endnames[i].value[j], b);
        } else {
          assert RowNames(endnames[i], sel, j + 1) == RowNames(endnames[i], sel, j);
        }
      }
    }

    /** The loop over incoming ClientEnds: column i, for the peers that sel picks. */
    method EnableCol(i: nat, sel: seq<bool>, b: bool)
      requires Valid() && i < n == |sel|
      modifies net
      ensures net.View() == old(net.View()).(enabled := SetAll(old(net.enabled), ColNames(endnames, i, sel, n), b))
      ensures net.calls == old(net.calls) + ColCalls(endnames, i, sel, n, b)
    {
      ghost var was := net.View();
      for j := 0 to n
        invariant net.calls == old(net.calls) + ColCalls(endnames, i, sel, j, b)
        invariant net.View() == was.(enabled := SetAll(was.enabled, ColNames(endnames, i, sel, j), b))
      {
        if sel[j] && endnames[j].Some? {
          SetAllAdd(was.enabled, ColNames(endnames, i, sel, j), endnames[j].value[i], b);
          net.Enable(endnames[j].value[i], b);
        } else {
          assert ColNames(endnames, i, sel, j + 1) == ColNames(endnames, i, sel, j);
        }
      }
    }

    method Connect(i: nat)
      requires Valid() && i < n && endnames[i].Some?
      modifies this`connected, net
      ensures Valid() && View() == Connected(old(View()), i)
      ensures net.calls == old(net.calls) + ConnectCalls(old(View()), i)
    {
      connected := connected[i := true];
      EnableRow(i, connected, true);
      EnableCol(i, connected, true);
      SetAllTwice(old(net.enabled), RowNames(endnames[i], connected, n), ColNames(endnames, i, connected, n), true);
    }

    method Disconnect(i: nat)
      requires Valid() && i < n
      modifies this`connected, net
      ensures Valid() && View() == Disconnected(old(View()), i)
      ensures net.calls == old(net.calls) + DisconnectCalls(old(View()), i)
    {
      connected := connected[i := false];
      var all := seq(n, _ => true);
      EnableRow(i, all, false);
      EnableCol(i, all, false);
      SetAllTwice(old(net.enabled), RowNames(endnames[i], all, n), ColNames(endnames, i, all, n), false);
    }

    method Crash1(i: nat)
      requires Valid() && i < n
      modifies this`connected, net
      ensures Valid() && View() == Crashed(old(View()), i)
      ensures net.calls == old(net.calls) + CrashCalls(old(View()), i)
    {
      Disconnect(i);
      net.DeleteServer(i);
    }

    /** One round of start1's loop over the new names. */
    method MakeEndTo(name: EndName, j: nat) returns (fatal: bool)
      modifies net
      ensures fatal == (name in old(net.View()).ends)
      ensures !fatal ==>
                && net.View() == Applied(Applied(old(net.View()), MakeEndCall(name)), ConnectCall(name, j))
                && net.calls == old(net.calls) + [MakeEndCall(name)] + [ConnectCall(name, j)]
    {
      fatal := net.MakeEnd(name);
      if !fatal {
        net.Connect(name, j);
      }
    }

    /** MakeEnd stops the process when a name is taken. */
    method MakeEnds(names: seq<EndName>) returns (fatal: bool)
      requires |names| == n
      modifies net
      ensures fatal == !Fresh(names, old(net.ends))
      ensures !fatal ==> net.View() == WithEnds(old(net.View()), names)
      ensures !fatal ==> net.calls == old(net.calls) + EndCalls(names)
    {
      ghost var was := net.View();
      for j := 0 to n
        invariant net.View() == WithEnds(was, names[..j]) && net.calls == old(net.calls) + EndCalls(names[..j])
        invariant Fresh(names[..j], was.ends)
      {
        EndStep(was, names, j);
        FreshStep(names, was.ends, j);
        WithEndsNames(was, names[..j], names[j]);
        fatal := MakeEndTo(names[j], j);
        if fatal {
          return;
        }
      }
      assert names[..n] == names;
      fatal := false;
    }

    /** names are the random strings. */
    method Start1(i: nat, names: seq<EndName>, server: ServerRef) returns (fatal: bool)
      requires Valid() && i < n && |names| == n
      modifies this, net
      ensures fatal == !Fresh(names, old(net.ends))
      ensures !fatal ==> Valid() && View() == Started(old(View()), i, names, server)
      ensures !fatal ==> net.calls == old(net.calls) + StartCalls(old(View()), i, names, server)
    {
      Crash1(i);
      endnames := endnames[i := Some(names)];
      fatal := MakeEnds(names);
      if !fatal {
        net.AddServer(i, server);
      }
    }
  }

  // ---------- runs ----------

  datatype Op =
    | Start(i: nat, names: seq<EndName>, server: ServerRef)
    | Crash(i: nat)
    | Connect(i: nat)
    | Disconnect(i: nat)

  /** None: the process stopped, because a name was taken or connect came before start1. */
  function Do(h: Harness, op: Op): Option<Harness>
    requires Shaped(h)
  {
    if op.i >= |h.connected| then None else
    match op
    case Start(i, names, server) =>
      if |names| == |h.connected| && Fresh(names, h.net.ends) then Some(Started(h, i, names, server)) else None
    case Crash(i) => Some(Crashed(h, i))
    case Connect(i) => if h.endnames[i].Some? then Some(Connected(h, i)) else None
    case Disconnect(i) => Some(Disconnected(h, i))
  }

  function Run(h: Harness, ops: seq<Op>): (r: Option<Harness>)
    requires Shaped(h)
    ensures r.Some? ==> Shaped(r.value) && |r.value.connected| == |h.connected|
  {
    if ops == [] then Some(h) else
    var t := Run(h, ops[..|ops| - 1]);
    if t.None? then None else Do(t.value, ops[|ops| - 1])
  }

  // ---------- the partition matrix ----------

  predicate InMatrix(h: Harness, i: nat, j: nat)
    requires Shaped(h)
  {
    i < |h.endnames| && j < |h.endnames| && h.endnames[i].Some?
  }

  function NameAt(h: Harness, i: nat, j: nat): EndName
    requires Shaped(h) && InMatrix(h, i, j)
  {
    h.endnames[i].value[j]
  }

  /** Entry (i, j) is enabled exactly when i and j are both connected, and leads to server j. */
  ghost predicate Matrix(h: Harness)
    requires Shaped(h)
  {
    forall i: nat, j: nat :: InMatrix(h, i, j) ==>
      && NameAt(h, i, j) in h.net.ends
      && EndEnabled(h.net, NameAt(h, i, j)) == (h.connected[i] && h.connected[j])
      && ConnectionOf(h.net, NameAt(h, i, j)) == Some(j)
  }

  ghost predicate Distinct(h: Harness)
    requires Shaped(h)
  {
    forall i: nat, j: nat, k: nat, l: nat ::
      InMatrix(h, i, j) && InMatrix(h, k, l) && NameAt(h, i, j) == NameAt(h, k, l) ==> i == k && j == l
  }

  ghost predicate Current(h: Harness, e: EndName)
    requires Shaped(h)
  {
    exists i: nat, j: nat :: InMatrix(h, i, j) && NameAt(h, i, j) == e
  }

  /** A name that is not in the matrix is disabled. */
  ghost predicate OthersDead(h: Harness)
    requires Shaped(h)
  {
    forall e :: EndEnabled(h.net, e) ==> Current(h, e)
  }

  ghost predicate Partitioned(h: Harness) {
    Shaped(h) && Matrix(h) && Distinct(h) && OthersDead(h)
  }

  lemma {:induction false} RowHas(row: Row, sel: seq<bool>, upto: nat, e: EndName)
    requires upto <= |sel| && (row.Some? ==> |row.value| == |sel|)
    ensures e in RowNames(row, sel, upto) <==> row.Some? && exists j :: 0 <= j < upto && sel[j] && row.value[j] == e
  {
    if upto > 0 {
      RowHas(row, sel, upto - 1, e);
    }
  }

  lemma {:induction false} ColHas(endnames: seq<Row>, i: nat, sel: seq<bool>, upto: nat, e: EndName)
    requires upto <= |sel| == |endnames| && i < |endnames|
    requires forall j :: 0 <= j < |endnames| && endnames[j].Some? ==> |endnames[j].value| == |endnames|
    ensures e in ColNames(endnames, i, sel, upto) <==>
            exists j :: 0 <= j < upto && sel[j] && endnames[j].Some? && endnames[j].value[i] == e
  {
    if upto > 0 {
      ColHas(endnames, i, sel, upto - 1, e);
    }
  }

  /** Row i and column i of the matrix, cut down to the picked peers. */
  lemma NamesHas(h: Harness, i: nat, sel: seq<bool>, k: nat, l: nat)
    requires Shaped(h) && Distinct(h) && i < |h.endnames| == |sel| && InMatrix(h, k, l)
    ensures NameAt(h, k, l) in Names(h, i, sel) <==> (k == i && sel[l]) || (l == i && sel[k])
  {
    var e := NameAt(h, k, l);
    RowHas(h.endnames[i], sel, |sel|, e);
    ColHas(h.endnames, i, sel, |sel|, e);
    if h.endnames[i].Some? {
      assert forall j: nat :: j < |sel| ==> InMatrix(h, i, j) && NameAt(h, i, j) == h.endnames[i].value[j];
    }
    assert forall j: nat :: j < |sel| && h.endnames[j].Some? ==>
        InMatrix(h, j, i) && NameAt(h, j, i) == h.endnames[j].value[i];
  }

  lemma NamesCurrent(h: Harness, i: nat, sel: seq<bool>, e: EndName)
    requires Shaped(h) && i < |h.endnames| == |sel| && e in Names(h, i, sel)
    ensures Current(h, e)
  {
    RowHas(h.endnames[i], sel, |sel|, e);
    ColHas(h.endnames, i, sel, |sel|, e);
    if e in RowNames(h.endnames[i], sel, |sel|) {
      var j :| 0 <= j < |sel| && sel[j] && h.endnames[i].value[j] == e;
      assert InMatrix(h, i, j) && NameAt(h, i, j) == e;
    } else {
      var j :| 0 <= j < |sel| && sel[j] && h.endnames[j].Some? && h.endnames[j].value[i] == e;
      assert InMatrix(h, j, i) && NameAt(h, j, i) == e;
    }
  }

  lemma ConnectKeeps(h: Harness, i: nat)
    requires Partitioned(h) && i < |h.connected| && h.endnames[i].Some?
    ensures Partitioned(Connected(h, i))
  {
    var h' := Connected(h, i);
    assert forall k: nat, l: nat :: InMatrix(h', k, l) == InMatrix(h, k, l);
    assert forall k: nat, l: nat :: InMatrix(h, k, l) ==> NameAt(h', k, l) == NameAt(h, k, l);
    forall k: nat, l: nat | InMatrix(h, k, l)
      ensures EndEnabled(h'.net, NameAt(h, k, l)) == (h'.connected[k] && h'.connected[l])
    {
      NamesHas(h, i, h'.connected, k, l);
    }
    forall e | EndEnabled(h'.net, e) ensures Current(h', e) {
      if e in Names(h, i, h'.connected) {
        NamesCurrent(h, i, h'.connected, e);
      } else {
        assert EndEnabled(h.net, e) && Current(h, e);
      }
    }
  }

  lemma DisconnectKeeps(h: Harness, i: nat)
    requires Partitioned(h) && i < |h.connected|
    ensures Partitioned(Disconnected(h, i))
  {
    var h' := Disconnected(h, i);
    var all := seq(|h.connected|, _ => true);
    assert forall k: nat, l: nat :: InMatrix(h', k, l) == InMatrix(h, k, l);
    assert forall k: nat, l: nat :: InMatrix(h, k, l) ==> NameAt(h', k, l) == NameAt(h, k, l);
    forall k: nat, l: nat | InMatrix(h, k, l)
      ensures EndEnabled(h'.net, NameAt(h, k, l)) == (h'.connected[k] && h'.connected[l])
    {
      NamesHas(h, i, all, k, l);
    }
    forall e | EndEnabled(h'.net, e) ensures Current(h', e) {
      assert EndEnabled(h.net, e) && Current(h, e);
    }
  }

  lemma {:induction false} WithEndsAdds(net: Net, names: seq<EndName>)
    requires Fresh(names, net.ends)
    ensures var net' := WithEnds(net, names);
            && (forall e :: e in net'.ends <==> e in net.ends || e in names)
            && (forall j :: 0 <= j < |names| ==>
                  !EndEnabled(net', names[j]) && ConnectionOf(net', names[j]) == Some(j))
            && (forall e :: e !in names ==>
                  EndEnabled(net', e) == EndEnabled(net, e) && ConnectionOf(net', e) == ConnectionOf(net, e))
  {
    if names != [] {
      var n := |names| - 1;
      assert forall e :: e in names <==> e in names[..n] || e == names[n];
      WithEndsAdds(net, names[..n]);
    }
  }

  function NewRow(h: Harness, i: nat, names: seq<EndName>): Harness
    requires Shaped(h) && i < |h.connected| == |names|
  {
    h.(endnames := h.endnames[i := Some(names)], net := WithEnds(h.net, names))
  }

  lemma NewRowNames(h: Harness, i: nat, names: seq<EndName>)
    requires Partitioned(h) && i < |h.connected| == |names| && Fresh(names, h.net.ends)
    ensures var h' := NewRow(h, i, names);
            && Shaped(h')
            && (forall k: nat, l: nat :: InMatrix(h', k, l) && k != i ==>
                  InMatrix(h, k, l) && NameAt(h', k, l) == NameAt(h, k, l) && NameAt(h, k, l) !in names)
            && (forall k: nat, l: nat :: InMatrix(h, k, l) && k != i ==> InMatrix(h', k, l))
            && (forall l: nat :: InMatrix(h', i, l) ==> NameAt(h', i, l) == names[l])
  {
  }

  /** Server i's row is overwritten while server i is disconnected: the old names die. */
  lemma NewRowKeeps(h: Harness, i: nat, names: seq<EndName>)
    requires Partitioned(h) && i < |h.connected| == |names| && !h.connected[i] && Fresh(names, h.net.ends)
    ensures Partitioned(NewRow(h, i, names))
  {
    var h' := NewRow(h, i, names);
    WithEndsAdds(h.net, names);
    NewRowNames(h, i, names);
    assert Distinct(h');
    forall e | EndEnabled(h'.net, e) ensures Current(h', e) {
      assert EndEnabled(h.net, e) && e !in names;
      var k: nat, l: nat :| InMatrix(h, k, l) && NameAt(h, k, l) == e;
      assert EndEnabled(h.net, NameAt(h, k, l));
      assert InMatrix(h', k, l) && NameAt(h', k, l) == e;
    }
  }

  lemma ServersKeep(h: Harness, servers: map<ServerName, Option<ServerRef>>)
    requires Partitioned(h)
    ensures Partitioned(h.(net := h.net.(servers := servers)))
  {
    var h' := h.(net := h.net.(servers := servers));
    assert forall i: nat, j: nat :: InMatrix(h', i, j) == InMatrix(h, i, j);
    assert forall i: nat, j: nat :: InMatrix(h, i, j) ==> NameAt(h', i, j) == NameAt(h, i, j);
    forall e | EndEnabled(h'.net, e) ensures Current(h', e) {
      assert EndEnabled(h.net, e) && Current(h, e);
    }
  }

  lemma DoKeeps(h: Harness, op: Op)
    requires Partitioned(h) && Do(h, op).Some?
    ensures Partitioned(Do(h, op).value)
  {
    match op
    case Connect(i) => ConnectKeeps(h, i);
    case Disconnect(i) => DisconnectKeeps(h, i);
    case Crash(i) =>
      DisconnectKeeps(h, i);
      ServersKeep(Disconnected(h, i), Crashed(h, i).net.servers);
    case Start(i, names, server) =>
      DisconnectKeeps(h, i);
      var c := Crashed(h, i);
      ServersKeep(Disconnected(h, i), c.net.servers);
      NewRowKeeps(c, i, names);
      ServersKeep(NewRow(c, i, names), Started(h, i, names, server).net.servers);
  }

  // ---------- main results ----------

  /** Between operations, in every run: the enabled end-points are exactly those of connected
      pairs, the j-th name of server i leads to server j, all names in use differ, and any
      other name is disabled. */
  lemma {:induction false} PartitionMatrix(n: nat, ops: seq<Op>)
    requires Run(Init(n), ops).Some?
    ensures Partitioned(Run(Init(n), ops).value)
  {
    if ops != [] {
      PartitionMatrix(n, ops[..|ops| - 1]);
      DoKeeps(Run(Init(n), ops[..|ops| - 1]).value, ops[|ops| - 1]);
    }
  }

  // ---------- what the last operations decide ----------

  /** The last of ops that hit picks is number a. */
  predicate LastSuch(ops: seq<Op>, hit: Op -> bool, a: nat) {
    a < |ops| && hit(ops[a]) && forall l :: a < l < |ops| ==> !hit(ops[l])
  }

  ghost predicate LastIs(ops: seq<Op>, hit: Op -> bool, good: Op -> bool) {
    exists a: nat :: LastSuch(ops, hit, a) && good(ops[a])
  }

  lemma LastSuchSnoc(ops: seq<Op>, op: Op, hit: Op -> bool, a: nat)
    ensures LastSuch(ops + [op], hit, a) <==> if hit(op) then a == |ops| else LastSuch(ops, hit, a)
  {
    var s := ops + [op];
    assert forall l :: 0 <= l < |ops| ==> s[l] == ops[l];
    assert s[|ops|] == op;
  }

  lemma LastIsSnoc(ops: seq<Op>, op: Op, hit: Op -> bool, good: Op -> bool)
    ensures LastIs(ops + [op], hit, good) <==> if hit(op) then good(op) else LastIs(ops, hit, good)
  {
    var s := ops + [op];
    LastSuchSnoc(ops, op, hit, |ops|);
    forall a: nat | LastSuch(s, hit, a)
      ensures if hit(op) then s[a] == op else LastSuch(ops, hit, a) && s[a] == ops[a]
    {
      LastSuchSnoc(ops, op, hit, a);
    }
    forall a: nat | LastSuch(ops, hit, a) && !hit(op) ensures LastSuch(s, hit, a) && s[a] == ops[a] {
      LastSuchSnoc(ops, op, hit, a);
    }
  }

  /** The same, read from the end. */
  predicate LastGood(ops: seq<Op>, hit: Op -> bool, good: Op -> bool) {
    ops != [] &&
    var op := ops[|ops| - 1];
    if hit(op) then good(op) else LastGood(ops[..|ops| - 1], hit, good)
  }

  lemma {:induction false} LastGoodIs(ops: seq<Op>, hit: Op -> bool, good: Op -> bool)
    ensures LastGood(ops, hit, good) <==> LastIs(ops, hit, good)
  {
    if ops != [] {
      var init, op := ops[..|ops| - 1], ops[|ops| - 1];
      LastGoodIs(init, hit, good);
      LastIsSnoc(init, op, hit, good);
      assert ops == init + [op];
    }
  }

  function Naming(k: nat): Op -> bool {
    (op: Op) => op.i == k
  }

  function Restarts(k: nat): Op -> bool {
    (op: Op) => op.i == k && (op.Start? || op.Crash?)
  }

  function Starts(k: nat): Op -> bool {
    (op: Op) => op.i == k && op.Start?
  }

  function IsConnect(): Op -> bool {
    (op: Op) => op.Connect?
  }

  function StartsServer(r: ServerRef): Op -> bool {
    (op: Op) => op.Start? && op.server == r
  }

  function StartsNamed(names: seq<EndName>): Op -> bool {
    (op: Op) => op.Start? && op.names == names
  }

  lemma DoConnects(h: Harness, op: Op)
    requires Shaped(h) && Do(h, op).Some?
    ensures var h' := Do(h, op).value;
            |h'.connected| == |h.connected| && h'.connected == h.connected[op.i := op.Connect?]
  {
  }

  lemma ConnectedStep(n: nat, ops: seq<Op>, k: nat)
    requires ops != [] && Run(Init(n), ops).Some? && k < n
    ensures var init, op := ops[..|ops| - 1], ops[|ops| - 1];
            && Run(Init(n), init).Some?
            && Run(Init(n), ops).value.connected[k] ==
               if op.i == k then op.Connect? else Run(Init(n), init).value.connected[k]
  {
    DoConnects(Run(Init(n), ops[..|ops| - 1]).value, ops[|ops| - 1]);
  }

  lemma {:induction false} ConnectedIffLast(n: nat, ops: seq<Op>, k: nat)
    requires Run(Init(n), ops).Some? && k < n
    ensures Run(Init(n), ops).value.connected[k] <==> LastGood(ops, Naming(k), IsConnect())
  {
    if ops != [] {
      ConnectedStep(n, ops, k);
      ConnectedIffLast(n, ops[..|ops| - 1], k);
    }
  }

  /** Over every run, server k is connected if and only if the last operation that names it is
      connect(k), and the end-point from i to j is enabled if and only if the last operations
      that name i and j are both connects. */
  lemma EnabledIffLastConnects(n: nat, ops: seq<Op>, i: nat, j: nat)
    requires Run(Init(n), ops).Some? && i < n && j < n
    ensures var h := Run(Init(n), ops).value;
            && |h.connected| == |h.endnames| == n
            && (h.connected[i] <==>
                  exists a: nat :: a < |ops| && ops[a] == Connect(i) && forall l :: a < l < |ops| ==> ops[l].i != i)
            && (h.endnames[i].Some? ==>
                  && |h.endnames[i].value| == n
                  && var e := h.endnames[i].value[j];
                     && (e in h.net.enabled && h.net.enabled[e] <==>
                           && (exists a: nat ::
                                 a < |ops| && ops[a] == Connect(i) && forall l :: a < l < |ops| ==> ops[l].i != i)
                           && (exists b: nat ::
                                 b < |ops| && ops[b] == Connect(j) && forall l :: b < l < |ops| ==> ops[l].i != j))
                     && e in h.net.connections && h.net.connections[e] == Some(j))
  {
    var h := Run(Init(n), ops).value;
    PartitionMatrix(n, ops);
    LastConnects(n, ops, i);
    LastConnects(n, ops, j);
    if h.endnames[i].Some? {
      assert InMatrix(h, i, j) && NameAt(h, i, j) == h.endnames[i].value[j];
    }
  }

  lemma LastConnects(n: nat, ops: seq<Op>, i: nat)
    requires Run(Init(n), ops).Some? && i < n
    ensures Run(Init(n), ops).value.connected[i] <==>
            exists a: nat :: a < |ops| && ops[a] == Connect(i) && forall l :: a < l < |ops| ==> ops[l].i != i
  {
    ConnectedIffLast(n, ops, i);
    LastGoodIs(ops, Naming(i), IsConnect());
    if LastIs(ops, Naming(i), IsConnect()) {
      var a: nat :| LastSuch(ops, Naming(i), a) && IsConnect()(ops[a]);
      assert ops[a] == Connect(i);
      assert forall l :: a < l < |ops| ==> !Naming(i)(ops[l]);
    }
    forall a: nat | a < |ops| && ops[a] == Connect(i) && forall l :: a < l < |ops| ==> ops[l].i != i
      ensures LastIs(ops, Naming(i), IsConnect())
    {
      assert LastSuch(ops, Naming(i), a) && IsConnect()(ops[a]);
    }
  }

  /** The end-point names in use: all differ, and nothing else is enabled. */
  lemma NamesInUse(n: nat, ops: seq<Op>)
    requires Run(Init(n), ops).Some?
    ensures var h := Run(Init(n), ops).value;
            && |h.endnames| == n
            && (forall i: nat, k: nat, j: nat, l: nat ::
                  (&& i < n && k < n && h.endnames[i].Some? && h.endnames[k].Some?
                   && j < |h.endnames[i].value| && l < |h.endnames[k].value|
                   && h.endnames[i].value[j] == h.endnames[k].value[l]) ==> i == k && j == l)
            && (forall e :: e in h.net.enabled && h.net.enabled[e] ==>
                  exists i: nat, j: nat ::
                    i < n && h.endnames[i].Some? && j < |h.endnames[i].value| && h.endnames[i].value[j] == e)
  {
    var h := Run(Init(n), ops).value;
    PartitionMatrix(n, ops);
    forall i: nat, k: nat, j: nat, l: nat |
        && i < n && k < n && h.endnames[i].Some? && h.endnames[k].Some?
        && j < |h.endnames[i].value| && l < |h.endnames[k].value|
        && h.endnames[i].value[j] == h.endnames[k].value[l]
      ensures i == k && j == l
    {
      assert InMatrix(h, i, j) && InMatrix(h, k, l) && NameAt(h, i, j) == NameAt(h, k, l);
    }
    forall e | e in h.net.enabled && h.net.enabled[e]
      ensures exists i: nat, j: nat ::
                i < n && h.endnames[i].Some? && j < |h.endnames[i].value| && h.endnames[i].value[j] == e
    {
      assert EndEnabled(h.net, e) && Current(h, e);
      var i: nat, j: nat :| InMatrix(h, i, j) && NameAt(h, i, j) == e;
      assert h.endnames[i].value[j] == e;
    }
  }

  // Starts and crashes decide the table of servers, starts the names.

  lemma WithEndsServers(net: Net, names: seq<EndName>)
    ensures WithEnds(net, names).servers == net.servers
    decreases names
  {
    if names != [] {
      WithEndsServers(net, names[..|names| - 1]);
    }
  }

  lemma DoServers(h: Harness, op: Op)
    requires Shaped(h) && Do(h, op).Some?
    ensures var h' := Do(h, op).value;
            && h'.net.servers == (match op
                                  case Start(i, names, server) => h.net.servers[i := Some(server)]
                                  case Crash(i) => h.net.servers[i := None]
                                  case Connect(i) => h.net.servers
                                  case Disconnect(i) => h.net.servers)
            && h'.endnames == (match op
                               case Start(i, names, server) => h.endnames[i := Some(names)]
                               case Crash(i) => h.endnames
                               case Connect(i) => h.endnames
                               case Disconnect(i) => h.endnames)
  {
    match op
    case Start(i, names, server) =>
      WithEndsServers(Crashed(h, i).net, names);
      var off := h.net.servers[i := None];
      assert off[i := Some(server)] == h.net.servers[i := Some(server)];
    case Crash(i) =>
    case Connect(i) =>
    case Disconnect(i) =>
  }

  lemma ServersStep(n: nat, ops: seq<Op>, i: nat, r: ServerRef)
    requires ops != [] && Run(Init(n), ops).Some?
    ensures Run(Init(n), ops[..|ops| - 1]).Some?
    ensures var op, was, now := ops[|ops| - 1], Run(Init(n), ops[..|ops| - 1]).value.net.servers,
                                Run(Init(n), ops).value.net.servers;
            (i in now && now[i] == Some(r)) <==>
            if op.i == i && (op.Start? || op.Crash?) then op.Start? && op.server == r
            else i in was && was[i] == Some(r)
  {
    DoServers(Run(Init(n), ops[..|ops| - 1]).value, ops[|ops| - 1]);
  }

  lemma {:induction false} ServerLast(n: nat, ops: seq<Op>, i: nat, r: ServerRef)
    requires Run(Init(n), ops).Some?
    ensures var servers := Run(Init(n), ops).value.net.servers;
            (i in servers && servers[i] == Some(r)) <==> LastGood(ops, Restarts(i), StartsServer(r))
  {
    if ops != [] {
      ServersStep(n, ops, i, r);
      ServerLast(n, ops[..|ops| - 1], i, r);
    }
  }

  /** Over every run, the table leads to server i, object r, if and only if the last start or
      crash of i is a start with r. */
  lemma ServerIffLastStart(n: nat, ops: seq<Op>, i: nat, r: ServerRef)
    requires Run(Init(n), ops).Some?
    ensures var servers := Run(Init(n), ops).value.net.servers;
            (i in servers && servers[i] == Some(r)) <==>
            exists a: nat ::
              && a < |ops| && ops[a].Start? && ops[a].i == i && ops[a].server == r
              && forall l :: a < l < |ops| ==> !(ops[l].i == i && (ops[l].Start? || ops[l].Crash?))
  {
    ServerLast(n, ops, i, r);
    LastGoodIs(ops, Restarts(i), StartsServer(r));
    if LastIs(ops, Restarts(i), StartsServer(r)) {
      var a: nat :| LastSuch(ops, Restarts(i), a) && StartsServer(r)(ops[a]);
      assert forall l :: a < l < |ops| ==> !Restarts(i)(ops[l]);
    }
    forall a: nat |
        && a < |ops| && ops[a].Start? && ops[a].i == i && ops[a].server == r
        && forall l :: a < l < |ops| ==> !(ops[l].i == i && (ops[l].Start? || ops[l].Crash?))
      ensures LastIs(ops, Restarts(i), StartsServer(r))
    {
      assert LastSuch(ops, Restarts(i), a) && StartsServer(r)(ops[a]);
    }
  }

  lemma {:induction false} NamesLast(n: nat, ops: seq<Op>, i: nat, names: seq<EndName>)
    requires Run(Init(n), ops).Some? && i < n
    ensures Run(Init(n), ops).value.endnames[i] == Some(names) <==> LastGood(ops, Starts(i), StartsNamed(names))
  {
    if ops != [] {
      var init, op := ops[..|ops| - 1], ops[|ops| - 1];
      NamesLast(n, init, i, names);
      DoServers(Run(Init(n), init).value, op);
    }
  }

  /** Over every run, row i holds the names of the last start of i. */
  lemma NamesOfLastStart(n: nat, ops: seq<Op>, i: nat, names: seq<EndName>)
    requires Run(Init(n), ops).Some? && i < n
    ensures Run(Init(n), ops).value.endnames[i] == Some(names) <==>
            exists a: nat ::
              && a < |ops| && ops[a].Start? && ops[a].i == i && ops[a].names == names
              && forall l :: a < l < |ops| ==> !(ops[l].i == i && ops[l].Start?)
  {
    NamesLast(n, ops, i, names);
    LastGoodIs(ops, Starts(i), StartsNamed(names));
    if LastIs(ops, Starts(i), StartsNamed(names)) {
      var a: nat :| LastSuch(ops, Starts(i), a) && StartsNamed(names)(ops[a]);
      assert forall l :: a < l < |ops| ==> !Starts(i)(ops[l]);
    }
    forall a: nat |
        && a < |ops| && ops[a].Start? && ops[a].i == i && ops[a].names == names
        && forall l :: a < l < |ops| ==> !(ops[l].i == i && ops[l].Start?)
      ensures LastIs(ops, Starts(i), StartsNamed(names))
    {
      assert LastSuch(ops, Starts(i), a) && StartsNamed(names)(ops[a]);
    }
  }

  // ---------- which runs go on, and which names they use ----------

  /** Some start among ops made the name e. */
  ghost predicate Made(ops: seq<Op>, e: EndName) {
    exists a: nat :: a < |ops| && ops[a].Start? && e in ops[a].names
  }

  lemma MadeSnoc(ops: seq<Op>, op: Op, e: EndName)
    ensures Made(ops + [op], e) <==> Made(ops, e) || (op.Start? && e in op.names)
  {
    var s := ops + [op];
    assert s[|ops|] == op;
    forall a: nat | a < |ops| && ops[a].Start? && e in ops[a].names ensures Made(s, e) {
      assert s[a] == ops[a];
    }
  }

  lemma {:induction false} WithEndsNames(net: Net, names: seq<EndName>, e: EndName)
    ensures e in WithEnds(net, names).ends <==> e in net.ends || e in names
    decreases names
  {
    if names != [] {
      WithEndsNames(net, names[..|names| - 1], e);
      assert names == names[..|names| - 1] + [names[|names| - 1]];
    }
  }

  lemma DoEnds(h: Harness, op: Op, e: EndName)
    requires Shaped(h) && Do(h, op).Some?
    ensures e in Do(h, op).value.net.ends <==> e in h.net.ends || (op.Start? && e in op.names)
  {
    if op.Start? {
      WithEndsNames(Crashed(h, op.i).net, op.names, e);
    }
  }

  lemma {:induction false} EndsAreMade(n: nat, ops: seq<Op>, e: EndName)
    requires Run(Init(n), ops).Some?
    ensures e in Run(Init(n), ops).value.net.ends <==> Made(ops, e)
  {
    if ops != [] {
      var init, op := ops[..|ops| - 1], ops[|ops| - 1];
      EndsAreMade(n, init, e);
      DoEnds(Run(Init(n), init).value, op, e);
      assert ops == init + [op];
      MadeSnoc(init, op, e);
    }
  }

  /** A run can go on with a crash or disconnect of any server, with connect once the server has
      been started, and with a start whose names are n different ones never used before. */
  lemma GoesOn(n: nat, ops: seq<Op>, op: Op)
    requires Run(Init(n), ops).Some?
    ensures Run(Init(n), ops + [op]).Some? <==>
            && op.i < n
            && (op.Connect? ==> exists a: nat :: a < |ops| && ops[a].Start? && ops[a].i == op.i)
            && (op.Start? ==>
                  && |op.names| == n
                  && (forall j, l :: 0 <= j < l < n ==> op.names[j] != op.names[l])
                  && (forall a: nat, e :: a < |ops| && ops[a].Start? && e in ops[a].names ==> e !in op.names))
  {
    DoGoesOn(n, ops, op);
    if op.i < n && op.Connect? {
      StartedIff(n, ops, op.i);
    } else if op.i < n && op.Start? {
      FreshMeans(n, ops, op.names);
    }
  }

  lemma DoGoesOn(n: nat, ops: seq<Op>, op: Op)
    requires Run(Init(n), ops).Some?
    ensures var h := Run(Init(n), ops).value;
            Run(Init(n), ops + [op]).Some? <==>
            && op.i < n == |h.endnames|
            && (op.Connect? ==> h.endnames[op.i].Some?)
            && (op.Start? ==> |op.names| == n && Fresh(op.names, h.net.ends))
  {
    assert (ops + [op])[..|ops|] == ops;
  }

  lemma FreshMeans(n: nat, ops: seq<Op>, names: seq<EndName>)
    requires Run(Init(n), ops).Some?
    ensures Fresh(names, Run(Init(n), ops).value.net.ends) <==>
            && (forall j, l :: 0 <= j < l < |names| ==> names[j] != names[l])
            && (forall a: nat, e :: a < |ops| && ops[a].Start? && e in ops[a].names ==> e !in names)
  {
    FreshIffNoneMade(n, ops, names);
    NoneMadeMeans(ops, names);
  }

  ghost predicate NoneMade(ops: seq<Op>, names: seq<EndName>) {
    forall e :: e in names ==> !Made(ops, e)
  }

  lemma NoneMadeMeans(ops: seq<Op>, names: seq<EndName>)
    ensures NoneMade(ops, names) <==>
            forall a: nat, e :: a < |ops| && ops[a].Start? && e in ops[a].names ==> e !in names
  {
  }

  lemma FreshIffNoneMade(n: nat, ops: seq<Op>, names: seq<EndName>)
    requires Run(Init(n), ops).Some?
    ensures Fresh(names, Run(Init(n), ops).value.net.ends) <==>
            NoneMade(ops, names) && forall j, l :: 0 <= j < l < |names| ==> names[j] != names[l]
  {
    forall j | 0 <= j < |names|
      ensures names[j] in Run(Init(n), ops).value.net.ends <==> Made(ops, names[j])
    {
      EndsAreMade(n, ops, names[j]);
    }
  }

  lemma {:induction false} StartedIff(n: nat, ops: seq<Op>, i: nat)
    requires Run(Init(n), ops).Some? && i < n
    ensures Run(Init(n), ops).value.endnames[i].Some? <==>
            exists a: nat :: a < |ops| && ops[a].Start? && ops[a].i == i
  {
    if ops != [] {
      var init, op := ops[..|ops| - 1], ops[|ops| - 1];
      StartedIff(n, init, i);
      DoServers(Run(Init(n), init).value, op);
      assert ops[|init|] == op;
      forall a: nat | a < |init| && init[a].Start? && init[a].i == i ensures ops[a].Start? && ops[a].i == i {
        assert ops[a] == init[a];
      }
      forall a: nat | a < |ops| && ops[a].Start? && ops[a].i == i && a != |init|
        ensures init[a].Start? && init[a].i == i
      {
        assert ops[a] == init[a];
      }
    }
  }

  lemma {:induction false} StartsDisjoint(n: nat, ops: seq<Op>, a: nat, c: nat, e: EndName)
    requires Run(Init(n), ops).Some? && a < c < |ops| && ops[a].Start? && ops[c].Start?
    requires e in ops[a].names
    ensures e !in ops[c].names
  {
    var init := ops[..|ops| - 1];
    if c < |ops| - 1 {
      assert init[a] == ops[a] && init[c] == ops[c];
      StartsDisjoint(n, init, a, c, e);
    } else {
      assert init[a] == ops[a] && Made(init, e);
      EndsAreMade(n, init, e);
    }
  }

  /** A name is handed out by one start only. */
  lemma StartsOnce(n: nat, ops: seq<Op>, a: nat, c: nat, e: EndName)
    requires Run(Init(n), ops).Some? && a < |ops| && c < |ops| && ops[a].Start? && ops[c].Start?
    requires e in ops[a].names && e in ops[c].names
    ensures a == c
  {
    if a < c {
      StartsDisjoint(n, ops, a, c, e);
    } else if c < a {
      StartsDisjoint(n, ops, c, a, e);
    }
  }

  lemma LastWithName(n: nat, ops: seq<Op>, e: EndName) returns (c: nat)
    requires Run(Init(n), ops).Some?
    requires var enabled := Run(Init(n), ops).value.net.enabled; e in enabled && enabled[e]
    ensures c < |ops| && ops[c].Start? && e in ops[c].names
    ensures forall l :: c < l < |ops| ==> !(ops[l].i == ops[c].i && ops[l].Start?)
  {
    var h := Run(Init(n), ops).value;
    NamesInUse(n, ops);
    var i: nat, j: nat :|
      i < n && h.endnames[i].Some? && j < |h.endnames[i].value| && h.endnames[i].value[j] == e;
    NamesOfLastStart(n, ops, i, h.endnames[i].value);
    c :| && c < |ops| && ops[c].Start? && ops[c].i == i && ops[c].names == h.endnames[i].value
         && forall l :: c < l < |ops| ==> !(ops[l].i == i && ops[l].Start?);
  }

  /** The names of an instance that has been replaced are disabled for good: once start number
      b follows start number a of the same server, none of the names of a is ever enabled. */
  lemma ReplacedNamesDisabled(n: nat, ops: seq<Op>, a: nat, b: nat, e: EndName)
    requires Run(Init(n), ops).Some? && a < b < |ops| && ops[a].Start? && ops[b].Start? && ops[a].i == ops[b].i
    requires e in ops[a].names
    ensures var enabled := Run(Init(n), ops).value.net.enabled; !(e in enabled && enabled[e])
  {
    var enabled := Run(Init(n), ops).value.net.enabled;
    if e in enabled && enabled[e] {
      var c := LastWithName(n, ops, e);
      StartsOnce(n, ops, a, c, e);
    }
  }

  /** A name handed out once and no longer in the matrix. */
  ghost predicate Retired(h: Harness, e: EndName)
    requires Shaped(h)
  {
    e in h.net.ends && !Current(h, e)
  }

  lemma StartedShape(h: Harness, i: nat, names: seq<EndName>, server: ServerRef)
    requires Shaped(h) && i < |h.connected| == |names|
    ensures var h' := Started(h, i, names, server);
            && Shaped(h') && |h'.endnames| == |h.endnames|
            && h'.endnames == h.endnames[i := Some(names)]
  {
  }

  lemma StartedEnds(h: Harness, i: nat, names: seq<EndName>, server: ServerRef, e: EndName)
    requires Shaped(h) && i < |h.connected| == |names| && Fresh(names, h.net.ends) && e in h.net.ends
    ensures e !in names && e in Started(h, i, names, server).net.ends
  {
    WithEndsAdds(Crashed(h, i).net, names);
  }

  /** A name that no other row holds is not in the matrix after start1 of row i. */
  lemma StartRetiresName(h: Harness, i: nat, names: seq<EndName>, server: ServerRef, e: EndName)
    requires Shaped(h) && i < |h.connected| == |names| && Fresh(names, h.net.ends) && e in h.net.ends
    requires forall k: nat, l: nat :: InMatrix(h, k, l) && k != i ==> NameAt(h, k, l) != e
    ensures Shaped(Started(h, i, names, server)) && Retired(Started(h, i, names, server), e)
  {
    var h' := Started(h, i, names, server);
    StartedShape(h, i, names, server);
    StartedEnds(h, i, names, server, e);
    forall k: nat, l: nat | InMatrix(h', k, l) ensures NameAt(h', k, l) != e {
      if k != i {
        assert InMatrix(h, k, l) && NameAt(h', k, l) == NameAt(h, k, l);
      } else {
        assert NameAt(h', k, l) == names[l];
      }
    }
  }

  /** start1 retires every name of the instance it replaces. */
  lemma StartRetires(h: Harness, i: nat, names: seq<EndName>, server: ServerRef, j: nat)
    requires Partitioned(h) && Do(h, Start(i, names, server)).Some? && InMatrix(h, i, j)
    ensures Shaped(Started(h, i, names, server))
    ensures Retired(Started(h, i, names, server), NameAt(h, i, j))
  {
    StartRetiresName(h, i, names, server, NameAt(h, i, j));
  }

  lemma DoRetires(h: Harness, op: Op, e: EndName)
    requires Partitioned(h) && Do(h, op).Some? && Retired(h, e)
    ensures Retired(Do(h, op).value, e)
  {
    if op.Start? {
      assert forall k: nat, l: nat :: InMatrix(h, k, l) ==> NameAt(h, k, l) != e;
      StartRetiresName(h, op.i, op.names, op.server, e);
    } else {
      var h' := Do(h, op).value;
      assert h'.endnames == h.endnames && h'.net.ends == h.net.ends;
      forall k: nat, l: nat | InMatrix(h', k, l) ensures NameAt(h', k, l) != e {
        assert InMatrix(h, k, l) && NameAt(h', k, l) == NameAt(h, k, l);
      }
    }
  }

  lemma {:induction false} RetiredStays(h: Harness, ops: seq<Op>, e: EndName)
    requires Partitioned(h) && Retired(h, e) && Run(h, ops).Some?
    ensures var h' := Run(h, ops).value; Partitioned(h') && Retired(h', e) && !EndnameInfo(h'.net, e).enabled
  {
    if ops != [] {
      var init := ops[..|ops| - 1];
      RetiredStays(h, init, e);
      DoKeeps(Run(h, init).value, ops[|ops| - 1]);
      DoRetires(Run(h, init).value, ops[|ops| - 1], e);
    }
  }

  /** Once start1 has replaced a server's names, a request sent on an old one finds its
      end-point disabled in every later state: a superseded instance cannot send. */
  lemma RetiredNamesStayDead(n: nat, ops: seq<Op>, more: seq<Op>, e: EndName)
    requires Run(Init(n), ops).Some? && Run(Run(Init(n), ops).value, more).Some?
    requires Retired(Run(Init(n), ops).value, e)
    ensures var h' := Run(Run(Init(n), ops).value, more).value;
            Retired(h', e) && !EndnameInfo(h'.net, e).enabled
  {
    PartitionMatrix(n, ops);
    RetiredStays(Run(Init(n), ops).value, more, e);
  }

  // ---------- while operations are under way ----------

  function Calls(h: Harness, op: Op): seq<Call>
    requires Shaped(h) && op.i < |h.connected|
  {
    match op
    case Start(i, names, server) => StartCalls(h, i, names, server)
    case Crash(i) => CrashCalls(h, i)
    case Connect(i) => ConnectCalls(h, i)
    case Disconnect(i) => DisconnectCalls(h, i)
  }

  /** The calls have set the flags of names to b and have done nothing else. */
  ghost predicate OnlySets(net: Net, calls: seq<Call>, names: set<EndName>, b: bool) {
    SetsTo(net, After(net, calls), names, b)
  }

  ghost predicate SetsTo(net: Net, net': Net, names: set<EndName>, b: bool) {
    net' == net.(enabled := SetAll(net.enabled, names, b))
  }

  lemma EnableAlso(net: Net, mid: Net, names: set<EndName>, e: EndName, b: bool)
    requires SetsTo(net, mid, names, b)
    ensures SetsTo(net, Applied(mid, EnableCall(e, b)), names + {e}, b)
  {
    SetAllAdd(net.enabled, names, e, b);
  }

  lemma {:induction false} RowCallsSet(net: Net, row: Row, sel: seq<bool>, upto: nat, b: bool)
    requires upto <= |sel| && (row.Some? ==> |row.value| == |sel|)
    ensures OnlySets(net, RowCalls(row, sel, upto, b), RowNames(row, sel, upto), b)
  {
    if upto == 0 {
      assert SetAll(net.enabled, {}, b) == net.enabled;
    } else {
      var init, names := RowCalls(row, sel, upto - 1, b), RowNames(row, sel, upto - 1);
      RowCallsSet(net, row, sel, upto - 1, b);
      if sel[upto - 1] && row.Some? {
        AfterSnoc(net, init, EnableCall(row.value[upto - 1], b));
        EnableAlso(net, After(net, init), names, row.value[upto - 1], b);
      } else {
        assert RowCalls(row, sel, upto, b) == init && RowNames(row, sel, upto) == names;
      }
    }
  }

  lemma {:induction false} RowCallsEnable(row: Row, sel: seq<bool>, upto: nat, b: bool)
    requires upto <= |sel| && (row.Some? ==> |row.value| == |sel|)
    ensures forall c :: c in RowCalls(row, sel, upto, b) ==>
              c.EnableCall? && c.b == b && c.e in RowNames(row, sel, upto)
  {
    if upto > 0 {
      RowCallsEnable(row, sel, upto - 1, b);
    }
  }

  lemma {:induction false} ColCallsSet(net: Net, endnames: seq<Row>, i: nat, sel: seq<bool>, upto: nat, b: bool)
    requires upto <= |sel| == |endnames| && i < |endnames|
    requires forall j :: 0 <= j < |endnames| && endnames[j].Some? ==> |endnames[j].value| == |endnames|
    ensures OnlySets(net, ColCalls(endnames, i, sel, upto, b), ColNames(endnames, i, sel, upto), b)
  {
    if upto == 0 {
      assert SetAll(net.enabled, {}, b) == net.enabled;
    } else {
      var init, names := ColCalls(endnames, i, sel, upto - 1, b), ColNames(endnames, i, sel, upto - 1);
      ColCallsSet(net, endnames, i, sel, upto - 1, b);
      if sel[upto - 1] && endnames[upto - 1].Some? {
        AfterSnoc(net, init, EnableCall(endnames[upto - 1].value[i], b));
        EnableAlso(net, After(net, init), names, endnames[upto - 1].value[i], b);
      } else {
        assert ColCalls(endnames, i, sel, upto, b) == init && ColNames(endnames, i, sel, upto) == names;
      }
    }
  }

  lemma {:induction false} ColCallsEnable(endnames: seq<Row>, i: nat, sel: seq<bool>, upto: nat, b: bool)
    requires upto <= |sel| == |endnames| && i < |endnames|
    requires forall j :: 0 <= j < |endnames| && endnames[j].Some? ==> |endnames[j].value| == |endnames|
    ensures forall c :: c in ColCalls(endnames, i, sel, upto, b) ==>
              c.EnableCall? && c.b == b && c.e in ColNames(endnames, i, sel, upto)
  {
    if upto > 0 {
      ColCallsEnable(endnames, i, sel, upto - 1, b);
    }
  }

  lemma BothCallsSet(h: Harness, i: nat, sel: seq<bool>, b: bool)
    requires Shaped(h) && i < |h.endnames| == |sel|
    ensures After(h.net, BothCalls(h, i, sel, b)) ==
            h.net.(enabled := SetAll(h.net.enabled, Names(h, i, sel), b))
    ensures forall c :: c in BothCalls(h, i, sel, b) ==> c.EnableCall? && c.b == b && c.e in Names(h, i, sel)
  {
    var row, col := RowCalls(h.endnames[i], sel, |sel|, b), ColCalls(h.endnames, i, sel, |sel|, b);
    RowCallsSet(h.net, h.endnames[i], sel, |sel|, b);
    RowCallsEnable(h.endnames[i], sel, |sel|, b);
    ColCallsEnable(h.endnames, i, sel, |sel|, b);
    ColCallsSet(After(h.net, row), h.endnames, i, sel, |sel|, b);
    AfterAppend(h.net, row, col);
    SetAllTwice(h.net.enabled, RowNames(h.endnames[i], sel, |sel|), ColNames(h.endnames, i, sel, |sel|), b);
  }

  lemma {:induction false} EndCallsSet(net: Net, names: seq<EndName>)
    ensures After(net, EndCalls(names)) == WithEnds(net, names)
    ensures forall c :: c in EndCalls(names) ==> !c.EnableCall?
  {
    if names != [] {
      var j := |names| - 1;
      EndCallsSet(net, names[..j]);
      var init := EndCalls(names[..j]);
      assert EndCalls(names) == (init + [MakeEndCall(names[j])]) + [ConnectCall(names[j], j)];
      AfterSnoc(net, init, MakeEndCall(names[j]));
      AfterSnoc(net, init + [MakeEndCall(names[j])], ConnectCall(names[j], j));
    }
  }

  lemma CrashCallsSet(h: Harness, i: nat)
    requires Shaped(h) && i < |h.connected|
    ensures After(h.net, CrashCalls(h, i)) == Crashed(h, i).net
    ensures forall c :: c in CrashCalls(h, i) ==> c.EnableCall? ==> !c.b
  {
    BothCallsSet(h, i, seq(|h.connected|, _ => true), false);
    AfterSnoc(h.net, DisconnectCalls(h, i), DeleteServerCall(i));
  }

  lemma StartCallsSet(h: Harness, i: nat, names: seq<EndName>, server: ServerRef)
    requires Shaped(h) && i < |h.connected| == |names|
    ensures After(h.net, StartCalls(h, i, names, server)) == Started(h, i, names, server).net
    ensures forall c :: c in StartCalls(h, i, names, server) ==> c.EnableCall? ==> !c.b
  {
    var crash := CrashCalls(h, i);
    CrashCallsSet(h, i);
    EndCallsSet(After(h.net, crash), names);
    AfterAppend(h.net, crash, EndCalls(names));
    AfterSnoc(h.net, crash + EndCalls(names), AddServerCall(i, server));
  }

  /** The calls of an operation, one after another, do to the tables what the operation does. */
  lemma CallsDo(h: Harness, op: Op)
    requires Shaped(h) && Do(h, op).Some?
    ensures After(h.net, Calls(h, op)) == Do(h, op).value.net
  {
    match op
    case Start(i, names, server) => StartCallsSet(h, i, names, server);
    case Crash(i) => CrashCallsSet(h, i);
    case Connect(i) => BothCallsSet(h, i, h.connected[i := true], true);
    case Disconnect(i) => BothCallsSet(h, i, seq(|h.connected|, _ => true), false);
  }

  /** No operation enables anything but names in the matrix, not even for a moment. */
  lemma CallsEnableCurrent(h: Harness, op: Op, e: EndName)
    requires Shaped(h) && Do(h, op).Some? && EnableCall(e, true) in Calls(h, op)
    ensures Current(h, e)
  {
    match op
    case Start(i, names, server) => StartCallsSet(h, i, names, server);
    case Crash(i) => CrashCallsSet(h, i);
    case Connect(i) =>
      BothCallsSet(h, i, h.connected[i := true], true);
      NamesCurrent(h, i, h.connected[i := true], e);
    case Disconnect(i) => BothCallsSet(h, i, seq(|h.connected|, _ => true), false);
  }

  /** The tables after the first c network calls of operation number m, or the tables at the
      end; Reliable and LongReordering may have been called as well. */
  ghost predicate SeenAt(h: Harness, ops: seq<Op>, m: nat, c: nat, net: Net)
    requires Shaped(h)
  {
    && m < |ops|
    && Run(h, ops[..m]).Some?
    && var now := Run(h, ops[..m]).value;
       && Do(now, ops[m]).Some? && c <= |Calls(now, ops[m])|
       && SameTables(net, After(now.net, Calls(now, ops[m])[..c]))
  }

  predicate SameTables(a: Net, b: Net) {
    a == b.(reliable := a.reliable, longReordering := a.longReordering)
  }

  ghost predicate Seen(h: Harness, ops: seq<Op>, net: Net)
    requires Shaped(h)
  {
    SameTables(net, h.net) || exists m: nat, c: nat :: SeenAt(h, ops, m, c, net)
  }

  lemma SeenDisabled(h: Harness, ops: seq<Op>, e: EndName, net: Net)
    requires Partitioned(h) && Retired(h, e) && Seen(h, ops, net)
    ensures !EndEnabled(net, e)
  {
    RetiredStays(h, [], e);
    if !SameTables(net, h.net) {
      var m: nat, c: nat :| SeenAt(h, ops, m, c, net);
      RetiredStays(h, ops[..m], e);
      var now := Run(h, ops[..m]).value;
      var calls := Calls(now, ops[m]);
      if EndEnabled(net, e) {
        EnabledByCall(now.net, calls[..c], e);
        CallsEnableCurrent(now, ops[m], e);
      }
    }
  }

  /** A superseded instance is cut off from the others: while the harness goes on with any
      operations, each cut at every network call, no request sent on one of its names is
      dispatched or answered with ok. */
  lemma SupersededNeverDispatched(h: Harness, ops: seq<Op>, e: EndName, s: R.Rpc, run: seq<R.Action>)
    requires Partitioned(h) && Retired(h, e)
    requires SameTables(s.net, h.net) && R.Exec(s, run).Some?
    requires forall i :: 0 <= i < |run| && run[i].Tables? ==> Seen(h, ops, run[i].net)
    ensures R.AllShutOut(R.Exec(s, run).value, e, |s.reqs|)
  {
    SeenDisabled(h, ops, e, s.net);
    forall i | 0 <= i < |run| && run[i].Tables? ensures !EndEnabled(run[i].net, e) {
      SeenDisabled(h, ops, e, run[i].net);
    }
    R.DisabledNeverDispatched(s, run, e);
  }
}
