// checkType of lab3/labgob/labgob.go: a walk over a type graph, possibly cyclic, that
// remembers in a global table which types it has seen.
module Labgob {
  type TypeId = nat

  /** upper: the first letter of the field's name is a capital. */
  datatype Field = Field(upper: bool, ty: TypeId)

  datatype Kind =
    | Struct(fields: seq<Field>)
    | Container(elem: TypeId)             // slice, array or pointer
    | Map(elem: TypeId, key: TypeId)
    | Other

  type Graph = map<TypeId, Kind>

  function Succ(k: Kind): set<TypeId> {
    match k
    case Struct(fields) => set i | 0 <= i < |fields| :: fields[i].ty
    case Container(elem) => {elem}
    case Map(elem, key) => {elem, key}
    case Other => {}
  }

  ghost predicate Closed(g: Graph) {
    forall t :: t in g ==> Succ(g[t]) <= g.Keys
  }

  // ---------- reachability and counting ----------

  ghost predicate Path(g: Graph, p: seq<TypeId>) {
    && p != []
    && (forall i :: 0 <= i < |p| ==> p[i] in g)
    && (forall i :: 0 <= i < |p| - 1 ==> p[i + 1] in Succ(g[p[i]]))
  }

  ghost predicate Connects(g: Graph, p: seq<TypeId>, s: TypeId, t: TypeId) {
    Path(g, p) && p[0] == s && p[|p| - 1] == t
  }

  /** t can be reached from s through field, element and key types. */
  ghost predicate Reaches(g: Graph, s: TypeId, t: TypeId) {
    exists p :: Connects(g, p, s, t)
  }

  ghost predicate LeadsTo(k: Kind, t: TypeId) {
    || (k.Struct? && exists f :: f in k.fields && f.ty == t)
    || (k.Container? && k.elem == t)
    || (k.Map? && (k.elem == t || k.key == t))
  }

  lemma SuccIs(k: Kind, t: TypeId)
    ensures t in Succ(k) <==> LeadsTo(k, t)
  {
    if k.Struct? && exists f :: f in k.fields && f.ty == t {
      var f :| f in k.fields && f.ty == t;
      var i :| 0 <= i < |k.fields| && k.fields[i] == f;
    }
  }

  /** Reachability on the types themselves: p goes from s to t, each time to the type of a field,
      to an element type or to a key type. */
  lemma PathTo(g: Graph, s: TypeId, t: TypeId) returns (p: seq<TypeId>)
    requires Reaches(g, s, t)
    ensures |p| > 0 && p[0] == s && p[|p| - 1] == t
    ensures forall i :: 0 <= i < |p| ==> p[i] in g
    ensures forall i :: 0 <= i < |p| - 1 ==>
              || (g[p[i]].Struct? && exists f :: f in g[p[i]].fields && f.ty == p[i + 1])
              || (g[p[i]].Container? && g[p[i]].elem == p[i + 1])
              || (g[p[i]].Map? && (g[p[i]].elem == p[i + 1] || g[p[i]].key == p[i + 1]))
  {
    p :| Connects(g, p, s, t);
    forall i {:trigger p[i]} | 0 <= i < |p| - 1 ensures LeadsTo(g[p[i]], p[i + 1]) {
      SuccIs(g[p[i]], p[i + 1]);
    }
  }

  /** And every such path leads to what is reachable. */
  lemma PathReaches(g: Graph, p: seq<TypeId>)
    requires |p| > 0
    requires forall i :: 0 <= i < |p| ==> p[i] in g
    requires forall i :: 0 <= i < |p| - 1 ==>
               || (g[p[i]].Struct? && exists f :: f in g[p[i]].fields && f.ty == p[i + 1])
               || (g[p[i]].Container? && g[p[i]].elem == p[i + 1])
               || (g[p[i]].Map? && (g[p[i]].elem == p[i + 1] || g[p[i]].key == p[i + 1]))
    ensures Reaches(g, p[0], p[|p| - 1])
  {
    forall i | 0 <= i < |p| - 1 ensures p[i + 1] in Succ(g[p[i]]) {
      SuccIs(g[p[i]], p[i + 1]);
    }
    assert Connects(g, p, p[0], p[|p| - 1]);
  }

  lemma ReachesSelf(g: Graph, t: TypeId)
    requires t in g
    ensures Reaches(g, t, t)
  {
    assert Connects(g, [t], t, t);
  }

  lemma ReachesThrough(g: Graph, s: TypeId, m: TypeId, t: TypeId)
    requires s in g && m in Succ(g[s]) && Reaches(g, m, t)
    ensures Reaches(g, s, t)
  {
    var p :| Connects(g, p, m, t);
    assert Connects(g, [s] + p, s, t);
  }

  ghost predicate ClosedUnderSucc(g: Graph, s: set<TypeId>) {
    forall x :: x in s && x in g ==> Succ(g[x]) <= s
  }

  lemma {:induction false} PathStays(g: Graph, s: set<TypeId>, p: seq<TypeId>)
    requires Path(g, p) && ClosedUnderSucc(g, s) && p[0] in s
    ensures p[|p| - 1] in s
    decreases |p|
  {
    if |p| > 1 {
      assert p[1] in Succ(g[p[0]]);
      PathStays(g, s, p[1..]);
    }
  }

  /** The lower-case fields of one type. */
  function LowerIn(fields: seq<Field>): nat {
    if fields == [] then 0 else
    LowerIn(fields[..|fields| - 1]) + (if fields[|fields| - 1].upper then 0 else 1)
  }

  lemma FieldsNext(fields: seq<Field>, i: nat)
    requires i < |fields|
    ensures LowerIn(fields[..i + 1]) == LowerIn(fields[..i]) + (if fields[i].upper then 0 else 1)
    ensures fields[i].ty in Succ(Struct(fields))
  {
    assert fields[..i + 1][..i] == fields[..i];
  }

  ghost predicate TypesIn(fields: seq<Field>, i: nat, now: set<TypeId>) {
    forall k :: 0 <= k < i && k < |fields| ==> fields[k].ty in now
  }

  lemma TypesInNext(fields: seq<Field>, i: nat, was: set<TypeId>, now: set<TypeId>)
    requires i < |fields| && TypesIn(fields, i, was) && was <= now && fields[i].ty in now
    ensures TypesIn(fields, i + 1, now)
  {
  }

  lemma FieldsWalked(fields: seq<Field>, now: set<TypeId>)
    requires TypesIn(fields, |fields|, now)
    ensures Succ(Struct(fields)) <= now && fields[..|fields|] == fields
  {
  }

  function Lower(k: Kind): nat {
    if k.Struct? then LowerIn(k.fields) else 0
  }

  /** The lower-case fields of all types in s, each type counted once. */
  ghost function TotalLower(g: Graph, s: set<TypeId>): nat {
    if s == {} then 0 else
    var x :| x in s;
    (if x in g then Lower(g[x]) else 0) + TotalLower(g, s - {x})
  }

  lemma {:induction false} TotalLowerAdd(g: Graph, s: set<TypeId>, t: TypeId)
    requires t !in s && t in g
    ensures TotalLower(g, s + {t}) == TotalLower(g, s) + Lower(g[t])
    decreases s
  {
    var u := s + {t};
    var x :| x in u && TotalLower(g, u) == (if x in g then Lower(g[x]) else 0) + TotalLower(g, u - {x});
    if x == t {
      assert u - {t} == s;
    } else {
      TotalLowerAdd(g, s - {x}, t);
      assert u - {x} == (s - {x}) + {t};
      TotalLowerPick(g, s, x);
    }
  }

  lemma {:induction false} TotalLowerPick(g: Graph, s: set<TypeId>, x: TypeId)
    requires x in s
    ensures TotalLower(g, s) == (if x in g then Lower(g[x]) else 0) + TotalLower(g, s - {x})
    decreases s
  {
    var y :| y in s && TotalLower(g, s) == (if y in g then Lower(g[y]) else 0) + TotalLower(g, s - {y});
    if y != x {
      TotalLowerPick(g, s - {y}, x);
      TotalLowerPick(g, s - {x}, y);
      assert s - {y} - {x} == s - {x} - {y};
    }
  }

  lemma {:induction false} TotalLowerUnion(g: Graph, s: set<TypeId>, t: set<TypeId>)
    requires s !! t
    ensures TotalLower(g, s + t) == TotalLower(g, s) + TotalLower(g, t)
    decreases t
  {
    if t == {} {
      assert s + t == s;
    } else {
      var x :| x in t;
      TotalLowerPick(g, s + t, x);
      TotalLowerPick(g, t, x);
      assert s + t - {x} == s + (t - {x});
      TotalLowerUnion(g, s, t - {x});
    }
  }

  /** The count of lower-case fields, field by field: places are the types and field numbers. */
  lemma {:induction false} TotalLowerCounts(g: Graph, s: set<TypeId>) returns (places: set<(TypeId, nat)>)
    ensures forall p :: p in places <==>
                        && p.0 in s && p.0 in g && g[p.0].Struct?
                        && p.1 < |g[p.0].fields| && !g[p.0].fields[p.1].upper
    ensures TotalLower(g, s) == |places|
    decreases s
  {
    if s == {} {
      places := {};
    } else {
      var t :| t in s;
      TotalLowerPick(g, s, t);
      places := TotalLowerCounts(g, s - {t});
      if t in g && g[t].Struct? {
        var more := LowerCounts(t, g[t].fields);
        assert places !! more;
        places := places + more;
      }
    }
  }

  lemma {:induction false} LowerCounts(t: TypeId, fields: seq<Field>) returns (places: set<(TypeId, nat)>)
    ensures forall p :: p in places <==> p.0 == t && p.1 < |fields| && !fields[p.1].upper
    ensures LowerIn(fields) == |places|
  {
    if fields == [] {
      places := {};
    } else {
      var n := |fields| - 1;
      places := LowerCounts(t, fields[..n]);
      if !fields[n].upper {
        assert (t, n) !in places;
        places := places + {(t, n)};
      }
    }
  }

  // ---------- the walk ----------

  /** Everything that has joined the table since it was c is reachable from root and has been
      walked to the end. */
  ghost predicate Walked(g: Graph, root: TypeId, c: set<TypeId>, now: set<TypeId>) {
    && c <= now <= g.Keys
    && forall x :: x in now - c ==> Succ(g[x]) <= now && Reaches(g, root, x)
  }

  /** And the lower-case fields of what has joined are n. */
  ghost predicate Adds(g: Graph, root: TypeId, c: set<TypeId>, now: set<TypeId>, n: int) {
    Walked(g, root, c, now) && n == TotalLower(g, now - c)
  }

  lemma WalkStarts(g: Graph, root: TypeId, c: set<TypeId>)
    requires c <= g.Keys
    ensures Adds(g, root, c, c, 0)
  {
    assert c - c == {};
  }

  /** A walk from root goes on with a walk from one of its successors. */
  lemma WalkOn(g: Graph, root: TypeId, child: TypeId,
               c: set<TypeId>, mid: set<TypeId>, now: set<TypeId>, m: int, n: int)
    requires root in g && child in Succ(g[root])
    requires Adds(g, root, c, mid, m) && Adds(g, child, mid, now, n)
    ensures Adds(g, root, c, now, m + n)
  {
    forall x | x in now - c ensures Succ(g[x]) <= now && Reaches(g, root, x) {
      if x in now - mid {
        ReachesThrough(g, root, child, x);
      } else {
        assert x in mid - c;
      }
    }
    assert now - c == (mid - c) + (now - mid);
    TotalLowerUnion(g, mid - c, now - mid);
  }

  /** The walk of root itself ends when all its successors are in the table. */
  lemma WalkEnds(g: Graph, root: TypeId, c: set<TypeId>, now: set<TypeId>, n: int)
    requires root in g && root !in c && Adds(g, root, c + {root}, now, n) && Succ(g[root]) <= now
    ensures Adds(g, root, c, now, n + Lower(g[root]))
  {
    ReachesSelf(g, root);
    assert now - c == (now - (c + {root})) + {root};
    TotalLowerAdd(g, now - (c + {root}), root);
  }

  /** The table after complete walks from all of ts. */
  ghost predicate WalkedAll(g: Graph, ts: seq<TypeId>, now: set<TypeId>) {
    && now <= g.Keys && ClosedUnderSucc(g, now)
    && (forall t :: t in ts ==> t in now)
    && forall x :: x in now ==> ReachedFrom(g, ts, x)
  }

  ghost predicate ReachedFrom(g: Graph, ts: seq<TypeId>, x: TypeId) {
    exists k :: 0 <= k < |ts| && Reaches(g, ts[k], x)
  }

  lemma WalkNext(g: Graph, ts: seq<TypeId>, t: TypeId, c: set<TypeId>, now: set<TypeId>, n: int)
    requires WalkedAll(g, ts, c) && t in now && Adds(g, t, c, now, n)
    ensures WalkedAll(g, ts + [t], now)
    ensures TotalLower(g, now) == TotalLower(g, c) + n
  {
    var us := ts + [t];
    forall x | x in now ensures ReachedFrom(g, us, x) {
      if x in c {
        var k :| 0 <= k < |ts| && Reaches(g, ts[k], x);
        assert us[k] == ts[k];
      } else {
        assert x in now - c && us[|ts|] == t;
      }
    }
    forall x | x in now && x in g ensures Succ(g[x]) <= now {
      assert x in c || x in now - c;
    }
    assert now == c + (now - c);
    TotalLowerUnion(g, c, now - c);
  }

  lemma WalkedExactly(g: Graph, ts: seq<TypeId>, now: set<TypeId>)
    requires WalkedAll(g, ts, now)
    ensures forall x :: x in now <==> ReachedFrom(g, ts, x)
  {
    forall x | ReachedFrom(g, ts, x) ensures x in now {
      var k :| 0 <= k < |ts| && Reaches(g, ts[k], x);
      var p :| Connects(g, p, ts[k], x);
      assert ts[k] in ts;
      PathStays(g, now, p);
    }
  }

  /** checked is the table of types seen, which only ever maps to true; both fields are
      global variables in the source. */
  class Checker {
    var checked: set<TypeId>
    var errorCount: nat

    constructor ()
      ensures checked == {} && errorCount == 0
    {
      checked := {};
      errorCount := 0;
    }

    /** Although a call may return while types above it are still being walked, what it adds is
        complete, comes from t only, and is counted exactly once. */
    method CheckType(g: Graph, t: TypeId)
      requires Closed(g) && t in g && checked <= g.Keys
      modifies this
      ensures t in checked && Adds(g, t, old(checked), checked, errorCount - old(errorCount))
      decreases g.Keys - checked, 0
    {
      WalkStarts(g, t, checked);
      if t in checked {
        return;
      }
      checked := checked + {t};
      ghost var start, e := checked, errorCount;
      match g[t] {
      case Struct(fields) =>
        CheckFields(g, t, fields);
      case Container(elem) =>
        WalkStarts(g, t, checked);
        CheckType(g, elem);
        WalkOn(g, t, elem, start, start, checked, 0, errorCount - e);
      case Map(elem, key) =>
        WalkStarts(g, t, checked);
        CheckType(g, elem);
        WalkOn(g, t, elem, start, start, checked, 0, errorCount - e);
        ghost var mid, m := checked, errorCount;
        CheckType(g, key);
        WalkOn(g, t, key, start, mid, checked, m - e, errorCount - m);
      case Other =>
        WalkStarts(g, t, checked);
      }
      WalkEnds(g, t, old(checked), checked, errorCount - e - Lower(g[t]));
    }

    /** The loop over the fields of a struct type. */
    method CheckFields(g: Graph, t: TypeId, fields: seq<Field>)
      requires Closed(g) && t in g && g[t] == Struct(fields) && checked <= g.Keys
      modifies this
      ensures Adds(g, t, old(checked), checked, errorCount - old(errorCount) - Lower(g[t]))
      ensures Succ(g[t]) <= checked
      decreases g.Keys - checked, 1
    {
      WalkStarts(g, t, checked);
      for i := 0 to |fields|
        invariant Adds(g, t, old(checked), checked, errorCount - old(errorCount) - LowerIn(fields[..i]))
        invariant TypesIn(fields, i, checked)
      {
        FieldsNext(fields, i);
        ghost var mid, m := checked, errorCount - old(errorCount) - LowerIn(fields[..i]);
        if !fields[i].upper {
          errorCount := errorCount + 1;
        }
        ghost var before := errorCount;
        CheckType(g, fields[i].ty);
        WalkOn(g, t, fields[i].ty, old(checked), mid, checked, m, errorCount - before);
        TypesInNext(fields, i, mid, checked);
      }
      FieldsWalked(fields, checked);
    }

    /** Any sequence of top-level calls from the empty table leaves in it exactly the types
        reachable from the arguments, and has counted their lower-case fields exactly once. */
    method CheckAll(g: Graph, ts: seq<TypeId>)
      requires Closed(g) && forall k :: 0 <= k < |ts| ==> ts[k] in g
      requires checked == {} && errorCount == 0
      modifies this
      ensures forall x :: x in checked <==> exists k :: 0 <= k < |ts| && Reaches(g, ts[k], x)
      ensures errorCount == TotalLower(g, checked)
    {
      for i := 0 to |ts|
        invariant WalkedAll(g, ts[..i], checked) && errorCount == TotalLower(g, checked)
      {
        ghost var c, e := checked, errorCount;
        CheckType(g, ts[i]);
        assert ts[..i + 1] == ts[..i] + [ts[i]];
        WalkNext(g, ts[..i], ts[i], c, checked, errorCount - e);
      }
      assert ts[..|ts|] == ts;
      WalkedExactly(g, ts, checked);
    }
  }
}
