// lab3/raft/persister.go: Persister objects on the heap. Copy shares byte arrays between
// persisters, Save and Read clone them; the second half shows that clients cannot tell the
// sharing from private contents.
module Persisters {
  import opened Util

  datatype Contents = Contents(raftstate: seq<byte>, snapshot: seq<byte>)

  datatype SaveOp = SaveRaft(state: seq<byte>) | SaveBoth(state: seq<byte>, snapshot: seq<byte>)

  /** A save replaces the state, and the snapshot if it brings one. */
  function Saved(c: Contents, op: SaveOp): (r: Contents)
    ensures r.raftstate == op.state
    ensures r.snapshot == if op.SaveBoth? then op.snapshot else c.snapshot
  {
    match op
    case SaveRaft(state) => c.(raftstate := state)
    case SaveBoth(state, snapshot) => Contents(state, snapshot)
  }

  method Clone(orig: array<byte>) returns (x: array<byte>)
    ensures fresh(x) && x[..] == orig[..]
  {
    x := new byte[orig.Length](i requires 0 <= i < orig.Length reads orig => orig[i]);
  }

  /** A nil slice is an array of length 0. */
  class Persister {
    var raftstate: array<byte>
    var snapshot: array<byte>

    ghost function View(): Contents
      reads this, raftstate, snapshot
    {
      Contents(raftstate[..], snapshot[..])
    }

    constructor ()
      ensures View() == Contents([], []) && raftstate.Length == snapshot.Length == 0
      ensures fresh(raftstate) && fresh(snapshot)
    {
      raftstate := new byte[0];
      snapshot := new byte[0];
    }

    /** The copy shares both arrays with the original. */
    method Copy() returns (np: Persister)
      ensures fresh(np) && np.View() == View()
      ensures np.raftstate == raftstate && np.snapshot == snapshot
    {
      np := new Persister();
      np.raftstate := raftstate;
      np.snapshot := snapshot;
    }

    method SaveRaftState(state: array<byte>)
      modifies this`raftstate
      ensures View() == Saved(old(View()), SaveRaft(old(state[..])))
      ensures raftstate[..] == old(state[..]) && snapshot == old(snapshot)
      ensures fresh(raftstate)
    {
      raftstate := Clone(state);
    }

    method SaveStateAndSnapshot(state: array<byte>, snap: array<byte>)
      modifies this
      ensures View() == Saved(old(View()), SaveBoth(old(state[..]), old(snap[..])))
      ensures raftstate[..] == old(state[..]) && snapshot[..] == old(snap[..])
      ensures fresh(raftstate) && fresh(snapshot)
    {
      raftstate := Clone(state);
      snapshot := Clone(snap);
    }

    method ReadRaftState() returns (x: array<byte>)
      ensures fresh(x) && x[..] == raftstate[..]
    {
      x := Clone(raftstate);
    }

    method ReadSnapshot() returns (x: array<byte>)
      ensures fresh(x) && x[..] == snapshot[..]
    {
      x := Clone(snapshot);
    }
  }

  // ---------- a population of persisters and the byte arrays their clients hold ----------

  datatype Op =
    | Make                                      // MakePersister
    | CopyOf(p: nat)
    | SaveRaftFrom(p: nat, b: nat)              // SaveRaftState with client buffer b
    | SaveBothFrom(p: nat, b: nat, c: nat)
    | ReadRaft(p: nat)                          // the result joins the client buffers
    | ReadSnap(p: nat)
    | NewBuffer(data: seq<byte>)
    | WriteBuffer(b: nat, at: nat, x: byte)     // a client writes to an array it holds

  /** The population as values: nothing is shared. */
  datatype World = World(persisters: seq<Contents>, buffers: seq<seq<byte>>)

  predicate CanDo(w: World, op: Op) {
    match op
    case Make => true
    case CopyOf(p) => p < |w.persisters|
    case SaveRaftFrom(p, b) => p < |w.persisters| && b < |w.buffers|
    case SaveBothFrom(p, b, c) => p < |w.persisters| && b < |w.buffers| && c < |w.buffers|
    case ReadRaft(p) => p < |w.persisters|
    case ReadSnap(p) => p < |w.persisters|
    case NewBuffer(_) => true
    case WriteBuffer(b, at, _) => b < |w.buffers| && at < |w.buffers[b]|
  }

  function Done(w: World, op: Op): (r: World)
    requires CanDo(w, op)
    // New persisters are empty or equal to the one copied; a read gives the client an array more.
    ensures op.Make? ==> r.persisters == w.persisters + [Contents([], [])]
    ensures op.CopyOf? ==> r.persisters == w.persisters + [w.persisters[op.p]]
    ensures op.ReadRaft? ==> r.buffers == w.buffers + [w.persisters[op.p].raftstate]
    ensures op.ReadSnap? ==> r.buffers == w.buffers + [w.persisters[op.p].snapshot]
    // A save takes what the client's arrays hold at that moment.
    ensures op.SaveRaftFrom? || op.SaveBothFrom? ==>
              && |r.persisters| == |w.persisters| && r.persisters[op.p].raftstate == w.buffers[op.b]
              && r.persisters[op.p].snapshot ==
                 if op.SaveBothFrom? then w.buffers[op.c] else w.persisters[op.p].snapshot
    // Nothing else changes.
    ensures |r.persisters| >= |w.persisters| && |r.buffers| >= |w.buffers|
    ensures forall i :: && 0 <= i < |w.persisters|
                        && !((op.SaveRaftFrom? || op.SaveBothFrom?) && op.p == i) ==>
                        r.persisters[i] == w.persisters[i]
    ensures forall j :: 0 <= j < |w.buffers| && !(op.WriteBuffer? && op.b == j) ==> r.buffers[j] == w.buffers[j]
    ensures op.WriteBuffer? ==>
              && |r.buffers[op.b]| == |w.buffers[op.b]| && r.buffers[op.b][op.at] == op.x
              && forall k :: 0 <= k < |w.buffers[op.b]| && k != op.at ==> r.buffers[op.b][k] == w.buffers[op.b][k]
  {
    match op
    case Make => w.(persisters := w.persisters + [Contents([], [])])
    case CopyOf(p) => w.(persisters := w.persisters + [w.persisters[p]])
    case SaveRaftFrom(p, b) =>
      w.(persisters := w.persisters[p := Saved(w.persisters[p], SaveRaft(w.buffers[b]))])
    case SaveBothFrom(p, b, c) =>
      w.(persisters := w.persisters[p := Saved(w.persisters[p], SaveBoth(w.buffers[b], w.buffers[c]))])
    case ReadRaft(p) => w.(buffers := w.buffers + [w.persisters[p].raftstate])
    case ReadSnap(p) => w.(buffers := w.buffers + [w.persisters[p].snapshot])
    case NewBuffer(data) => w.(buffers := w.buffers + [data])
    case WriteBuffer(b, at, x) => w.(buffers := w.buffers[b := w.buffers[b][at := x]])
  }

  class Population {
    var ps: seq<Persister>
    var bufs: seq<array<byte>>

    ghost function Held(): set<object>
      reads this, ps
    {
      (set p <- ps :: p.raftstate) + (set p <- ps :: p.snapshot)
    }

    /** No array inside a persister is in a client's hands. */
    ghost predicate Valid()
      reads this, ps
    {
      && (forall i, j :: 0 <= i < j < |ps| ==> ps[i] != ps[j])
      && (forall i, j :: 0 <= i < j < |bufs| ==> bufs[i] != bufs[j])
      && (forall i, j :: 0 <= i < |ps| && 0 <= j < |bufs| ==> ps[i].raftstate != bufs[j])
      && (forall i, j :: 0 <= i < |ps| && 0 <= j < |bufs| ==> ps[i].snapshot != bufs[j])
    }

    ghost function View(): World
      reads this, ps, bufs, Held()
    {
      World(seq(|ps|, i requires 0 <= i < |ps| reads this, ps, Held() => ps[i].View()),
            seq(|bufs|, i requires 0 <= i < |bufs| reads this, bufs => bufs[i][..]))
    }

    constructor ()
      ensures Valid() && View() == World([], [])
    {
      ps, bufs := [], [];
    }

    method Join(np: Persister)
      requires Valid() && np !in ps
      requires np.raftstate !in bufs && np.snapshot !in bufs
      modifies this`ps
      ensures Valid() && ps == old(ps) + [np]
      ensures View() == old(View()).(persisters := old(View()).persisters + [np.View()])
    {
      ps := ps + [np];
    }

    method Hold(x: array<byte>)
      requires Valid() && x !in bufs && x !in Held()
      modifies this`bufs
      ensures Valid() && bufs == old(bufs) + [x]
      ensures View() == old(View()).(buffers := old(View()).buffers + [x[..]])
    {
      bufs := bufs + [x];
    }

    method Save(p: nat, b: nat, snap: Option<nat>)
      requires Valid() && p < |ps| && b < |bufs| && (snap.Some? ==> snap.value < |bufs|)
      modifies ps
      ensures Valid()
      ensures View() == Done(old(View()), if snap.Some? then SaveBothFrom(p, b, snap.value) else SaveRaftFrom(p, b))
    {
      if snap.Some? {
        ps[p].SaveStateAndSnapshot(bufs[b], bufs[snap.value]);
      } else {
        ps[p].SaveRaftState(bufs[b]);
      }
      assert forall j :: 0 <= j < |bufs| ==> bufs[j][..] == old(bufs[j][..]);
      assert forall i :: 0 <= i < |ps| && i != p ==> ps[i] != ps[p];
    }

    method Write(b: nat, at: nat, x: byte)
      requires Valid() && b < |bufs| && at < bufs[b].Length
      modifies bufs
      ensures Valid()
      ensures View() == Done(old(View()), WriteBuffer(b, at, x))
    {
      bufs[b][at] := x;
      assert forall i :: 0 <= i < |ps| ==> ps[i].View() == old(ps[i].View());
      assert forall j :: 0 <= j < |bufs| && j != b ==> bufs[j][..] == old(bufs[j][..]);
    }

    method Add(source: Option<nat>)
      requires Valid() && (source.Some? ==> source.value < |ps|)
      modifies this`ps
      ensures Valid() && |ps| == |old(ps)| + 1 && old(ps) <= ps && fresh(ps[|old(ps)|])
      ensures View() == Done(old(View()), if source.Some? then CopyOf(source.value) else Make)
    {
      var np: Persister;
      if source.Some? {
        np := ps[source.value].Copy();
      } else {
        np := new Persister();
      }
      Join(np);
    }

    method Read(p: nat, snap: bool)
      requires Valid() && p < |ps|
      modifies this`bufs
      ensures Valid() && |bufs| == |old(bufs)| + 1 && old(bufs) <= bufs && fresh(bufs[|old(bufs)|])
      ensures View() == Done(old(View()), if snap then ReadSnap(p) else ReadRaft(p))
    {
      var x: array<byte>;
      if snap {
        x := ps[p].ReadSnapshot();
      } else {
        x := ps[p].ReadRaftState();
      }
      Hold(x);
    }

    method Allocate(data: seq<byte>)
      requires Valid()
      modifies this`bufs
      ensures Valid() && |bufs| == |old(bufs)| + 1 && old(bufs) <= bufs && fresh(bufs[|old(bufs)|])
      ensures View() == Done(old(View()), NewBuffer(data))
    {
      var x := new byte[|data|](i requires 0 <= i < |data| => data[i]);
      assert x[..] == data;
      Hold(x);
    }

    /** The heap with its shared arrays does what the world of private values does. */
    method Do(op: Op)
      requires Valid() && CanDo(View(), op)
      modifies this, ps, bufs
      ensures Valid()
      ensures View() == Done(old(View()), op)
      ensures old(ps) <= ps && forall i :: |old(ps)| <= i < |ps| ==> fresh(ps[i])
      ensures old(bufs) <= bufs && forall j :: |old(bufs)| <= j < |bufs| ==> fresh(bufs[j])
    {
      match op
      case Make => Add(None);
      case CopyOf(p) => Add(Some(p));
      case SaveRaftFrom(p, b) => Save(p, b, None);
      case SaveBothFrom(p, b, c) => Save(p, b, Some(c));
      case ReadRaft(p) => Read(p, false);
      case ReadSnap(p) => Read(p, true);
      case NewBuffer(data) => Allocate(data);
      case WriteBuffer(b, at, x) => Write(b, at, x);
    }

    method DoAll(ops: seq<Op>)
      requires Valid() && Run(View(), ops).Some?
      modifies this, ps, bufs
      ensures Valid()
      ensures View() == Run(old(View()), ops).value
    {
      ghost var w := View();
      assert ops[..|ops|] == ops;
      for k := 0 to |ops|
        invariant Valid() && Run(w, ops).Some?
        invariant Run(w, ops[..k]) == Some(View())
        invariant old(ps) <= ps && forall i :: |old(ps)| <= i < |ps| ==> fresh(ps[i])
        invariant old(bufs) <= bufs && forall j :: |old(bufs)| <= j < |bufs| ==> fresh(bufs[j])
      {
        assert ops[..k + 1][..k] == ops[..k];
        RunPrefix(w, ops, k + 1);
        Do(ops[k]);
      }
    }
  }

  // ---------- isolation over whole runs ----------

  function Run(w: World, ops: seq<Op>): Option<World> {
    if ops == [] then Some(w) else
    var v := Run(w, ops[..|ops| - 1]);
    var op := ops[|ops| - 1];
    if v.None? || !CanDo(v.value, op) then None else Some(Done(v.value, op))
  }

  lemma {:induction false} RunPrefix(w: World, ops: seq<Op>, k: nat)
    requires Run(w, ops).Some? && k <= |ops|
    ensures Run(w, ops[..k]).Some?
  {
    if k == |ops| {
      assert ops[..k] == ops;
    } else {
      var init := ops[..|ops| - 1];
      RunPrefix(w, init, k);
      assert init[..k] == ops[..k];
    }
  }

  /** Whatever clients write to arrays they passed in or got back, and whatever other
      persisters save, a persister's contents change only by its own Save calls. */
  lemma {:induction false} ChangesOnlyByOwnSaves(w: World, ops: seq<Op>, i: nat)
    requires Run(w, ops).Some? && i < |w.persisters|
    requires forall k :: 0 <= k < |ops| ==> !((ops[k].SaveRaftFrom? || ops[k].SaveBothFrom?) && ops[k].p == i)
    ensures i < |Run(w, ops).value.persisters|
    ensures Run(w, ops).value.persisters[i] == w.persisters[i]
  {
    if ops != [] {
      ChangesOnlyByOwnSaves(w, ops[..|ops| - 1], i);
      var last := ops[|ops| - 1];
      assert !((last.SaveRaftFrom? || last.SaveBothFrom?) && last.p == i);
    }
  }

  /** What a persister holds is what its last Save was given, as the client's arrays were at that
      moment: if ops[k] is that save, the arrays of the run up to it. */
  lemma {:induction false} LastSaveIsHeld(w: World, ops: seq<Op>, k: nat)
    requires Run(w, ops).Some? && k < |ops| && (ops[k].SaveRaftFrom? || ops[k].SaveBothFrom?)
    requires forall l :: k < l < |ops| ==> !((ops[l].SaveRaftFrom? || ops[l].SaveBothFrom?) && ops[l].p == ops[k].p)
    ensures Run(w, ops[..k]).Some?
    ensures var before, after := Run(w, ops[..k]).value, Run(w, ops).value;
            && ops[k].b < |before.buffers| && ops[k].p < |after.persisters|
            && after.persisters[ops[k].p].raftstate == before.buffers[ops[k].b]
            && (ops[k].SaveBothFrom? ==>
                  && ops[k].c < |before.buffers|
                  && after.persisters[ops[k].p].snapshot == before.buffers[ops[k].c])
    decreases |ops|
  {
    var n := |ops| - 1;
    if k < n {
      assert ops[..n][..k] == ops[..k];
      LastSaveIsHeld(w, ops[..n], k);
      assert !((ops[n].SaveRaftFrom? || ops[n].SaveBothFrom?) && ops[n].p == ops[k].p);
    }
  }
}
