// checkType of lab3/labgob/labgob.go run by any number of goroutines at once, as encoders do:
// the look at the table with the mark, and each increment of errorCount, are made under the
// mutex, and everything else may interleave. A call may return while another goroutine is
// still walking below the type it found marked.
module ConcurrentWalk {
  import opened Util
  import opened Labgob

  /** What a goroutine has still to do, in order: calls of checkType, and increments of errorCount. */
  datatype Task = Visit(t: TypeId) | Increment

  /** todo[k] belongs to the k-th top-level call, whose argument is in roots. */
  datatype State = State(checked: set<TypeId>, errorCount: nat, todo: seq<seq<Task>>, roots: set<TypeId>)

  datatype Step = Enter(t: TypeId) | Go(k: nat)

  function Init(): State {
    State({}, 0, [], {})
  }

  function FieldTasks(fields: seq<Field>): seq<Task> {
    if fields == [] then [] else
    var f := fields[|fields| - 1];
    FieldTasks(fields[..|fields| - 1]) + (if f.upper then [] else [Increment]) + [Visit(f.ty)]
  }

  /** What a call does after it has marked its type. */
  function Body(k: Kind): seq<Task> {
    match k
    case Struct(fields) => FieldTasks(fields)
    case Container(elem) => [Visit(elem)]
    case Map(elem, key) => [Visit(elem), Visit(key)]
    case Other => []
  }

  function Next(g: Graph, s: State, step: Step): Option<State> {
    match step
    case Enter(t) => if t in g then Some(s.(todo := s.todo + [[Visit(t)]], roots := s.roots + {t})) else None
    case Go(k) =>
      if k >= |s.todo| || s.todo[k] == [] then None else
      var rest := s.todo[k][1..];
      match s.todo[k][0]
      case Increment => Some(s.(errorCount := s.errorCount + 1, todo := s.todo[k := rest]))
      case Visit(t) =>
        if t in s.checked then Some(s.(todo := s.todo[k := rest]))
        else if t in g then Some(s.(checked := s.checked + {t}, todo := s.todo[k := Body(g[t]) + rest]))
        else None
  }

  function Exec(g: Graph, steps: seq<Step>): Option<State> {
    if steps == [] then Some(Init()) else
    var s := Exec(g, steps[..|steps| - 1]);
    if s.None? then None else Next(g, s.value, steps[|steps| - 1])
  }

  // ---------- the tasks of one type ----------

  function Increments(tasks: seq<Task>): nat {
    if tasks == [] then 0 else Increments(tasks[..|tasks| - 1]) + (if tasks[|tasks| - 1].Increment? then 1 else 0)
  }

  lemma {:induction false} IncrementsAppend(s: seq<Task>, t: seq<Task>)
    ensures Increments(s + t) == Increments(s) + Increments(t)
  {
    if t == [] {
      assert s + t == s;
    } else {
      IncrementsAppend(s, t[..|t| - 1]);
      assert (s + t)[..|s + t| - 1] == s + t[..|t| - 1];
    }
  }

  lemma IncrementsFirst(tasks: seq<Task>)
    requires tasks != []
    ensures Increments(tasks) == Increments(tasks[1..]) + (if tasks[0].Increment? then 1 else 0)
  {
    assert tasks == [tasks[0]] + tasks[1..];
    IncrementsAppend([tasks[0]], tasks[1..]);
    assert Increments([tasks[0]]) == Increments([]) + (if tasks[0].Increment? then 1 else 0);
  }

  lemma {:induction false} FieldTasksCount(fields: seq<Field>)
    ensures Increments(FieldTasks(fields)) == LowerIn(fields)
  {
    if fields != [] {
      var init, f := fields[..|fields| - 1], fields[|fields| - 1];
      FieldTasksCount(init);
      var count := if f.upper then [] else [Increment];
      IncrementsAppend(FieldTasks(init), count);
      IncrementsAppend(FieldTasks(init) + count, [Visit(f.ty)]);
      if count != [] {
        IncrementsFirst(count);
      }
      IncrementsFirst([Visit(f.ty)]);
    }
  }

  predicate HasType(fields: seq<Field>, y: TypeId) {
    exists i :: 0 <= i < |fields| && fields[i].ty == y
  }

  lemma HasTypeSnoc(fields: seq<Field>, y: TypeId)
    requires fields != []
    ensures HasType(fields, y) <==> HasType(fields[..|fields| - 1], y) || fields[|fields| - 1].ty == y
  {
    if HasType(fields, y) {
      var i :| 0 <= i < |fields| && fields[i].ty == y;
      assert i < |fields| - 1 ==> fields[..|fields| - 1][i].ty == y;
    }
  }

  lemma {:induction false} FieldTasksVisit(fields: seq<Field>, y: TypeId)
    ensures Visit(y) in FieldTasks(fields) <==> HasType(fields, y)
  {
    if fields != [] {
      FieldTasksVisit(fields[..|fields| - 1], y);
      HasTypeSnoc(fields, y);
    }
  }

  /** A type's tasks count its lower-case fields and visit its successors. */
  lemma BodyRight(k: Kind)
    ensures Increments(Body(k)) == Lower(k)
    ensures forall y: TypeId :: Visit(y) in Body(k) <==> y in Succ(k)
  {
    match k
    case Struct(fields) =>
      FieldTasksCount(fields);
      forall y: TypeId ensures Visit(y) in Body(k) <==> y in Succ(k) {
        FieldTasksVisit(fields, y);
      }
    case Container(elem) => IncrementsFirst([Visit(elem)]);
    case Map(elem, key) =>
      IncrementsFirst([Visit(elem), Visit(key)]);
      IncrementsFirst([Visit(key)]);
    case Other =>
  }

  // ---------- what every step keeps ----------

  ghost predicate FromRoots(g: Graph, roots: set<TypeId>, x: TypeId) {
    exists r :: r in roots && Reaches(g, r, x)
  }

  ghost predicate Pending(todo: seq<seq<Task>>, y: TypeId) {
    exists k :: 0 <= k < |todo| && Visit(y) in todo[k]
  }

  /** Nothing is marked, or about to be visited, that no root reaches. */
  ghost predicate Sound(g: Graph, s: State) {
    && s.checked <= g.Keys && s.roots <= g.Keys
    && (forall x :: x in s.checked ==> FromRoots(g, s.roots, x))
    && (forall k, y: TypeId :: 0 <= k < |s.todo| && Visit(y) in s.todo[k] ==> y in g && FromRoots(g, s.roots, y))
  }

  /** Whatever must be marked is, or somebody is about to visit it. */
  ghost predicate Covered(s: State, y: TypeId) {
    y in s.checked || Pending(s.todo, y)
  }

  ghost predicate Complete(g: Graph, s: State) {
    && (forall r :: r in s.roots ==> Covered(s, r))
    && (forall x, y :: x in s.checked && x in g && y in Succ(g[x]) ==> Covered(s, y))
  }

  /** Each field of a marked type has been counted, or is about to be, once. */
  ghost predicate Counted(g: Graph, s: State) {
    s.errorCount + Sum(Increments, s.todo) == TotalLower(g, s.checked)
  }

  ghost predicate Inv(g: Graph, s: State) {
    Sound(g, s) && Complete(g, s) && Counted(g, s)
  }

  lemma ReachesOn(g: Graph, r: TypeId, x: TypeId, y: TypeId)
    requires Closed(g) && Reaches(g, r, x) && y in Succ(g[x])
    ensures Reaches(g, r, y)
  {
    var p :| Connects(g, p, r, x);
    var q := p + [y];
    forall i | 0 <= i < |q| - 1 ensures q[i + 1] in Succ(g[q[i]]) {
      assert q[i] == p[i] && (i + 1 < |p| ==> q[i + 1] == p[i + 1]);
    }
    assert Connects(g, q, r, y);
  }

  lemma MoreRoots(g: Graph, roots: set<TypeId>, t: TypeId, x: TypeId)
    requires FromRoots(g, roots, x)
    ensures FromRoots(g, roots + {t}, x)
  {
    var r :| r in roots && Reaches(g, r, x);
    assert r in roots + {t};
  }

  lemma EnterSound(g: Graph, s: State, t: TypeId)
    requires Sound(g, s) && t in g
    ensures Sound(g, Next(g, s, Enter(t)).value)
  {
    var s' := Next(g, s, Enter(t)).value;
    ReachesSelf(g, t);
    assert t in s'.roots;
    forall x | x in s'.checked ensures FromRoots(g, s'.roots, x) {
      MoreRoots(g, s.roots, t, x);
    }
    forall k, y: TypeId | 0 <= k < |s'.todo| && Visit(y) in s'.todo[k] ensures y in g && FromRoots(g, s'.roots, y) {
      if k < |s.todo| {
        assert Visit(y) in s.todo[k];
        MoreRoots(g, s.roots, t, y);
      }
    }
  }

  lemma EnterCovers(g: Graph, s: State, t: TypeId, y: TypeId)
    requires t in g && (Covered(s, y) || y == t)
    ensures Covered(Next(g, s, Enter(t)).value, y)
  {
    var s' := Next(g, s, Enter(t)).value;
    if y == t {
      assert Visit(t) in s'.todo[|s.todo|];
    } else if y !in s.checked {
      var k :| 0 <= k < |s.todo| && Visit(y) in s.todo[k];
      assert Visit(y) in s'.todo[k];
    }
  }

  lemma EnterKeeps(g: Graph, s: State, t: TypeId)
    requires Inv(g, s) && t in g
    ensures Inv(g, Next(g, s, Enter(t)).value)
  {
    var s' := Next(g, s, Enter(t)).value;
    EnterSound(g, s, t);
    SumSnoc(Increments, s.todo, [Visit(t)]);
    IncrementsFirst([Visit(t)]);
    forall y | y in s'.roots ensures Covered(s', y) {
      EnterCovers(g, s, t, y);
    }
    forall x, y | x in s'.checked && x in g && y in Succ(g[x]) ensures Covered(s', y) {
      EnterCovers(g, s, t, y);
    }
  }

  lemma BodySound(g: Graph, roots: set<TypeId>, t: TypeId, y: TypeId)
    requires Closed(g) && t in g && FromRoots(g, roots, t) && Visit(y) in Body(g[t])
    ensures y in g && FromRoots(g, roots, y)
  {
    BodyRight(g[t]);
    var r :| r in roots && Reaches(g, r, t);
    ReachesOn(g, r, t, y);
  }

  lemma GoSound(g: Graph, s: State, k: nat)
    requires Closed(g) && Inv(g, s) && Next(g, s, Go(k)).Some?
    ensures Sound(g, Next(g, s, Go(k)).value)
  {
    var s' := Next(g, s, Go(k)).value;
    var head, rest := s.todo[k][0], s.todo[k][1..];
    assert head in s.todo[k];
    forall j, y: TypeId | 0 <= j < |s'.todo| && Visit(y) in s'.todo[j] ensures y in g && FromRoots(g, s.roots, y) {
      if Visit(y) !in s.todo[j] {
        assert j == k && Visit(y) !in rest;
        BodySound(g, s.roots, head.t, y);
      }
    }
  }

  lemma GoCovers(g: Graph, s: State, k: nat, y: TypeId)
    requires Next(g, s, Go(k)).Some? && Covered(s, y)
    ensures Covered(Next(g, s, Go(k)).value, y)
  {
    var s' := Next(g, s, Go(k)).value;
    if y !in s.checked {
      var j :| 0 <= j < |s.todo| && Visit(y) in s.todo[j];
      if j == k {
        assert s.todo[k] == [s.todo[k][0]] + s.todo[k][1..];
        if s.todo[k][0] != Visit(y) {
          assert Visit(y) in s.todo[k][1..] && Visit(y) in s'.todo[k];
        }
      } else {
        assert Visit(y) in s'.todo[j];
      }
    }
  }

  lemma GoComplete(g: Graph, s: State, k: nat)
    requires Closed(g) && Inv(g, s) && Next(g, s, Go(k)).Some?
    ensures Complete(g, Next(g, s, Go(k)).value)
  {
    var s' := Next(g, s, Go(k)).value;
    forall r | r in s'.roots ensures Covered(s', r) {
      GoCovers(g, s, k, r);
    }
    forall x, y | x in s'.checked && x in g && y in Succ(g[x]) ensures Covered(s', y) {
      if x in s.checked {
        GoCovers(g, s, k, y);
      } else {
        BodyRight(g[x]);
        assert Visit(y) in Body(g[x]) && Visit(y) in s'.todo[k];
      }
    }
  }

  lemma GoCounts(g: Graph, s: State, k: nat)
    requires Inv(g, s) && Next(g, s, Go(k)).Some?
    ensures Counted(g, Next(g, s, Go(k)).value)
  {
    var s' := Next(g, s, Go(k)).value;
    var head, rest := s.todo[k][0], s.todo[k][1..];
    IncrementsFirst(s.todo[k]);
    SumUpdate(Increments, s.todo, k, s'.todo[k]);
    if head.Visit? && head.t !in s.checked {
      BodyRight(g[head.t]);
      IncrementsAppend(Body(g[head.t]), rest);
      TotalLowerAdd(g, s.checked, head.t);
    }
  }

  lemma NextKeepsInv(g: Graph, s: State, step: Step)
    requires Closed(g) && Inv(g, s) && Next(g, s, step).Some?
    ensures Inv(g, Next(g, s, step).value)
  {
    match step
    case Enter(t) => EnterKeeps(g, s, t);
    case Go(k) =>
      GoSound(g, s, k);
      GoComplete(g, s, k);
      GoCounts(g, s, k);
  }

  lemma {:induction false} ExecInv(g: Graph, steps: seq<Step>)
    requires Closed(g) && Exec(g, steps).Some?
    ensures Inv(g, Exec(g, steps).value)
  {
    if steps != [] {
      ExecInv(g, steps[..|steps| - 1]);
      NextKeepsInv(g, Exec(g, steps[..|steps| - 1]).value, steps[|steps| - 1]);
    }
  }

  // ---------- main results ----------

  ghost predicate AllReturned(s: State) {
    forall k :: 0 <= k < |s.todo| ==> s.todo[k] == []
  }

  /** In every interleaving, once all calls have returned, the table is exactly the set of types
      that their arguments reach, and every lower-case field of these has been counted once. */
  lemma WalkersTogether(g: Graph, steps: seq<Step>)
    requires Closed(g) && Exec(g, steps).Some? && AllReturned(Exec(g, steps).value)
    ensures var s := Exec(g, steps).value;
            && (forall x :: x in s.checked <==> FromRoots(g, s.roots, x))
            && s.errorCount == TotalLower(g, s.checked)
  {
    ExecInv(g, steps);
    var s := Exec(g, steps).value;
    forall x | FromRoots(g, s.roots, x) ensures x in s.checked {
      var r :| r in s.roots && Reaches(g, r, x);
      var p :| Connects(g, p, r, x);
      assert Covered(s, r);
      forall z | z in s.checked && z in g ensures Succ(g[z]) <= s.checked {
        forall y | y in Succ(g[z]) ensures y in s.checked {
          assert Covered(s, y);
        }
      }
      PathStays(g, s.checked, p);
    }
    forall k | 0 <= k < |s.todo| ensures Increments(s.todo[k]) <= 0 {
    }
    SumBound(Increments, s.todo, 0);
  }

  /** The roots are the arguments of the calls. */
  lemma {:induction false} RootsAre(g: Graph, steps: seq<Step>)
    requires Exec(g, steps).Some?
    ensures forall t: TypeId :: t in Exec(g, steps).value.roots <==> Enter(t) in steps
  {
    if steps != [] {
      var n := |steps| - 1;
      RootsAre(g, steps[..n]);
      assert steps == steps[..n] + [steps[n]];
    }
  }

  /** In terms of the run: when all calls have returned, the table is exactly what the argument of
      some call reaches, and places are the lower-case fields, each counted once. */
  lemma WalkersMarkReachable(g: Graph, steps: seq<Step>) returns (places: set<(TypeId, nat)>)
    requires Closed(g) && Exec(g, steps).Some?
    requires forall k :: 0 <= k < |Exec(g, steps).value.todo| ==> Exec(g, steps).value.todo[k] == []
    ensures var s := Exec(g, steps).value;
            && (forall x :: x in s.checked <==> exists t: TypeId :: Enter(t) in steps && Reaches(g, t, x))
            && (forall p :: p in places <==>
                  && p.0 in s.checked && p.0 in g && g[p.0].Struct?
                  && p.1 < |g[p.0].fields| && !g[p.0].fields[p.1].upper)
            && s.errorCount == |places|
  {
    WalkersTogether(g, steps);
    RootsAre(g, steps);
    var s := Exec(g, steps).value;
    places := TotalLowerCounts(g, s.checked);
    forall x ensures x in s.checked <==> exists t: TypeId :: Enter(t) in steps && Reaches(g, t, x) {
      if x in s.checked {
        var r :| r in s.roots && Reaches(g, r, x);
        assert Enter(r) in steps;
      }
      if t: TypeId :| Enter(t) in steps && Reaches(g, t, x) {
        assert t in s.roots;
      }
    }
  }

  // ---------- the walkers return ----------

  function Length(tasks: seq<Task>): nat {
    |tasks|
  }

  /** The tasks that the types of a set would bring. */
  ghost function TasksOf(g: Graph, s: set<TypeId>): nat {
    if s == {} then 0 else
    var x :| x in s;
    (if x in g then |Body(g[x])| else 0) + TasksOf(g, s - {x})
  }

  lemma {:induction false} TasksOfPick(g: Graph, s: set<TypeId>, x: TypeId)
    requires x in s
    ensures TasksOf(g, s) == (if x in g then |Body(g[x])| else 0) + TasksOf(g, s - {x})
    decreases s
  {
    var y :| y in s && TasksOf(g, s) == (if y in g then |Body(g[y])| else 0) + TasksOf(g, s - {y});
    if y != x {
      TasksOfPick(g, s - {y}, x);
      TasksOfPick(g, s - {x}, y);
      assert s - {y} - {x} == s - {x} - {y};
    }
  }

  /** The tasks at hand, and those that types not yet marked can still bring. */
  ghost function TasksLeft(g: Graph, s: State): nat {
    Sum(Length, s.todo) + TasksOf(g, g.Keys - s.checked)
  }

  /** Every step of a walker uses up exactly one task. */
  lemma GoUsesUp(g: Graph, s: State, k: nat)
    requires Next(g, s, Go(k)).Some?
    ensures TasksLeft(g, Next(g, s, Go(k)).value) == TasksLeft(g, s) - 1
  {
    var s' := Next(g, s, Go(k)).value;
    var head := s.todo[k][0];
    SumUpdate(Length, s.todo, k, s'.todo[k]);
    if head.Visit? && head.t !in s.checked {
      TasksOfPick(g, g.Keys - s.checked, head.t);
      assert g.Keys - s'.checked == g.Keys - s.checked - {head.t};
    }
  }

  function Calls(steps: seq<Step>): nat {
    if steps == [] then 0 else Calls(steps[..|steps| - 1]) + (if steps[|steps| - 1].Enter? then 1 else 0)
  }

  lemma {:induction false} StepsCounted(g: Graph, steps: seq<Step>)
    requires Exec(g, steps).Some?
    ensures |steps| + TasksLeft(g, Exec(g, steps).value) == 2 * Calls(steps) + TasksOf(g, g.Keys)
  {
    if steps == [] {
      assert g.Keys - {} == g.Keys;
    } else {
      var init, step := steps[..|steps| - 1], steps[|steps| - 1];
      StepsCounted(g, init);
      var s := Exec(g, init).value;
      match step
      case Enter(t) => SumSnoc(Length, s.todo, [Visit(t)]);
      case Go(k) => GoUsesUp(g, s, k);
    }
  }

  lemma GoPossible(g: Graph, s: State, k: nat)
    requires Sound(g, s) && k < |s.todo| && s.todo[k] != []
    ensures Next(g, s, Go(k)).Some?
  {
    assert s.todo[k][0] in s.todo[k];
  }

  ghost predicate CanGo(g: Graph, s: State, k: nat) {
    Next(g, s, Go(k)).Some?
  }

  /** All calls return: a run makes at most two steps per call and one per task of a type, and
      it can go on with the calls it has if and only if some call has not returned. */
  lemma WalkersReturn(g: Graph, steps: seq<Step>)
    requires Closed(g) && Exec(g, steps).Some?
    ensures |steps| <= 2 * Calls(steps) + TasksOf(g, g.Keys)
    ensures AllReturned(Exec(g, steps).value) <==> forall k: nat :: !CanGo(g, Exec(g, steps).value, k)
  {
    ExecInv(g, steps);
    StepsCounted(g, steps);
    var s := Exec(g, steps).value;
    if !AllReturned(s) {
      var k: nat :| k < |s.todo| && s.todo[k] != [];
      GoPossible(g, s, k);
      assert CanGo(g, s, k);
    }
  }
}
