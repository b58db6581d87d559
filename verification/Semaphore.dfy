// The counting semaphore of lab0/semaphore.go: Post is one atomic add, Wait is a loop of an
// atomic load and a compare-and-swap. Any number of Wait calls run at once, interleaved at
// every atomic operation.
module Semaphore {
  import opened Util

  /** Where one call of Wait stands. */
  datatype Pc =
    | Looping            // about to poll ctx.Done and load v
    | Loaded(val: int)   // v was val > 0; about to compare and swap
    | Acquired           // returned nil
    | Cancelled          // returned ctx.Err()

  /** failures counts this call's failed swaps; seen is the number of changes of v, so far, at
      its latest load. */
  datatype Call = Call(pc: Pc, failures: nat, seen: nat)

  datatype State = State(v: int, posts: nat, acquired: nat, calls: seq<Call>)

  datatype Step =
    | Post
    | Enter               // a new call of Wait
    | Load(c: nat)        // select takes the default case
    | Swap(c: nat)
    | Cancel(c: nat)      // select takes ctx.Done

  function Init(): State {
    State(0, 0, 0, [])
  }

  /** How often v has changed. */
  function Changes(s: State): nat {
    s.posts + s.acquired
  }

  function Next(s: State, step: Step): Option<State> {
    match step
    case Post => Some(s.(v := s.v + 1, posts := s.posts + 1))
    case Enter => Some(s.(calls := s.calls + [Call(Looping, 0, 0)]))
    case Load(c) =>
      if c < |s.calls| && s.calls[c].pc.Looping? then
        Some(if s.v > 0 then s.(calls := s.calls[c := s.calls[c].(pc := Loaded(s.v), seen := Changes(s))]) else s)
      else None
    case Swap(c) =>
      if c < |s.calls| && s.calls[c].pc.Loaded? then
        var val := s.calls[c].pc.val;
        if s.v == val then
          Some(s.(v := val - 1, acquired := s.acquired + 1, calls := s.calls[c := s.calls[c].(pc := Acquired)]))
        else
          Some(s.(calls := s.calls[c := s.calls[c].(pc := Looping, failures := s.calls[c].failures + 1)]))
      else None
    case Cancel(c) =>
      if c < |s.calls| && s.calls[c].pc.Looping? then
        Some(s.(calls := s.calls[c := s.calls[c].(pc := Cancelled)]))
      else None
  }

  function Exec(steps: seq<Step>): Option<State> {
    if steps == [] then Some(Init()) else
    var s := Exec(steps[..|steps| - 1]);
    if s.None? then None else Next(s.value, steps[|steps| - 1])
  }

  function IsAcquired(c: Call): nat {
    if c.pc.Acquired? then 1 else 0
  }

  function Failures(c: Call): nat {
    c.failures
  }

  /** If v has not changed since the load, it still is what was loaded; every failed swap used
      up a change of v that happened after the load before it. */
  predicate CallInv(c: Call, v: int, changes: nat) {
    && c.failures <= changes
    && (c.pc.Loaded? ==>
          && c.pc.val > 0
          && c.failures <= c.seen <= changes
          && (c.seen == changes ==> c.pc.val == v))
  }

  ghost predicate Inv(s: State) {
    && s.v == s.posts - s.acquired && s.v >= 0
    && s.acquired == Sum(IsAcquired, s.calls)
    && forall c :: 0 <= c < |s.calls| ==> CallInv(s.calls[c], s.v, Changes(s))
  }

  /** A change of v outdates what was loaded before it. */
  lemma Outdated(c: Call, v: int, v': int, changes: nat)
    requires CallInv(c, v, changes)
    ensures CallInv(c, v', changes + 1)
  {
  }

  lemma PostKeepsInv(s: State)
    requires Inv(s)
    ensures Inv(Next(s, Post).value)
  {
    forall c | 0 <= c < |s.calls| ensures CallInv(s.calls[c], s.v + 1, Changes(s) + 1) {
      Outdated(s.calls[c], s.v, s.v + 1, Changes(s));
    }
  }

  lemma AcquireKeepsInv(s: State, c: nat)
    requires Inv(s) && c < |s.calls| && s.calls[c].pc.Loaded? && s.calls[c].pc.val == s.v
    ensures Inv(Next(s, Swap(c)).value)
  {
    var s' := Next(s, Swap(c)).value;
    assert CallInv(s.calls[c], s.v, Changes(s));
    SumUpdate(IsAcquired, s.calls, c, s'.calls[c]);
    forall d | 0 <= d < |s.calls| ensures CallInv(s'.calls[d], s'.v, Changes(s')) {
      if d != c {
        Outdated(s.calls[d], s.v, s'.v, Changes(s));
      }
    }
  }

  /** Any other step changes one call and leaves v alone. */
  lemma UpdateKeepsInv(s: State, c: nat, to: Call)
    requires Inv(s) && c < |s.calls| && IsAcquired(to) == IsAcquired(s.calls[c]) && CallInv(to, s.v, Changes(s))
    ensures Inv(s.(calls := s.calls[c := to]))
  {
    SumUpdate(IsAcquired, s.calls, c, to);
    var calls := s.calls[c := to];
    forall d | 0 <= d < |calls| ensures CallInv(calls[d], s.v, Changes(s)) {
      assert CallInv(s.calls[d], s.v, Changes(s));
    }
  }

  lemma EnterKeepsInv(s: State)
    requires Inv(s)
    ensures Inv(Next(s, Enter).value)
  {
    var entered := Call(Looping, 0, 0);
    var calls := s.calls + [entered];
    SumSnoc(IsAcquired, s.calls, entered);
    forall c | 0 <= c < |calls| ensures CallInv(calls[c], s.v, Changes(s)) {
      if c < |s.calls| {
        assert CallInv(s.calls[c], s.v, Changes(s));
      }
    }
  }

  lemma LoadKeepsInv(s: State, c: nat)
    requires Inv(s) && Next(s, Load(c)).Some?
    ensures Inv(Next(s, Load(c)).value)
  {
    assert CallInv(s.calls[c], s.v, Changes(s));
    if s.v > 0 {
      UpdateKeepsInv(s, c, s.calls[c].(pc := Loaded(s.v), seen := Changes(s)));
    }
  }

  lemma SwapKeepsInv(s: State, c: nat)
    requires Inv(s) && Next(s, Swap(c)).Some?
    ensures Inv(Next(s, Swap(c)).value)
  {
    assert CallInv(s.calls[c], s.v, Changes(s));
    if s.v == s.calls[c].pc.val {
      AcquireKeepsInv(s, c);
    } else {
      UpdateKeepsInv(s, c, s.calls[c].(pc := Looping, failures := s.calls[c].failures + 1));
    }
  }

  lemma CancelKeepsInv(s: State, c: nat)
    requires Inv(s) && Next(s, Cancel(c)).Some?
    ensures Inv(Next(s, Cancel(c)).value)
  {
    assert CallInv(s.calls[c], s.v, Changes(s));
    UpdateKeepsInv(s, c, s.calls[c].(pc := Cancelled));
  }

  lemma NextKeepsInv(s: State, step: Step)
    requires Inv(s) && Next(s, step).Some?
    ensures Inv(Next(s, step).value)
  {
    match step
    case Post => PostKeepsInv(s);
    case Enter => EnterKeepsInv(s);
    case Load(c) => LoadKeepsInv(s, c);
    case Swap(c) => SwapKeepsInv(s, c);
    case Cancel(c) => CancelKeepsInv(s, c);
  }

  lemma {:induction false} ExecInv(steps: seq<Step>)
    requires Exec(steps).Some?
    ensures Inv(Exec(steps).value)
  {
    if steps != [] {
      ExecInv(steps[..|steps| - 1]);
      NextKeepsInv(Exec(steps[..|steps| - 1]).value, steps[|steps| - 1]);
    }
  }

  /** In every interleaving v is posts minus successful waits and never negative, although v
      may change and change back between a load and its swap. */
  lemma SemaphoreSafe(steps: seq<Step>)
    requires Exec(steps).Some?
    ensures var s := Exec(steps).value;
            && s.v == s.posts - Sum(IsAcquired, s.calls)
            && s.v >= 0
  {
    ExecInv(steps);
  }

  /** In terms of the run: posted are the posts so far, and holders the calls that have returned
      nil; v is the difference, and never more calls return than posts were made. */
  lemma PermitsBalance(steps: seq<Step>) returns (posted: set<nat>, holders: set<nat>)
    requires Exec(steps).Some?
    ensures forall j: nat :: j in posted <==> j < |steps| && steps[j].Post?
    ensures var calls := Exec(steps).value.calls;
            forall c: nat :: c in holders <==> c < |calls| && calls[c].pc.Acquired?
    ensures Exec(steps).value.v == |posted| - |holders| && |holders| <= |posted|
  {
    ExecInv(steps);
    posted := PostsCounted(steps);
    holders := SumIsCount(IsAcquired, Exec(steps).value.calls);
  }

  /** Every call of the run is there, and those cancelled are the ones that took ctx.Done. */
  lemma {:induction false} CallsEntered(steps: seq<Step>) returns (entered: set<nat>)
    requires Exec(steps).Some?
    ensures forall j: nat :: j in entered <==> j < |steps| && steps[j].Enter?
    ensures |Exec(steps).value.calls| == |entered|
  {
    if steps == [] {
      entered := {};
    } else {
      var n := |steps| - 1;
      entered := CallsEntered(steps[..n]);
      if steps[n].Enter? {
        entered := entered + {n};
      }
    }
  }

  lemma NextCancels(s: State, step: Step, c: nat)
    requires Next(s, step).Some? && c < |Next(s, step).value.calls|
    ensures Next(s, step).value.calls[c].pc.Cancelled? <==>
            step == Cancel(c) || (c < |s.calls| && s.calls[c].pc.Cancelled?)
    ensures c >= |s.calls| ==> step.Enter?
  {
  }

  lemma {:induction false} CancelledIffDone(steps: seq<Step>, c: nat)
    requires Exec(steps).Some? && (c < |Exec(steps).value.calls| || Cancel(c) in steps)
    ensures c < |Exec(steps).value.calls| && (Exec(steps).value.calls[c].pc.Cancelled? <==> Cancel(c) in steps)
  {
    if steps != [] {
      var n := |steps| - 1;
      assert steps == steps[..n] + [steps[n]];
      if c < |Exec(steps[..n]).value.calls| || Cancel(c) in steps[..n] {
        CancelledIffDone(steps[..n], c);
      }
      NextCancels(Exec(steps[..n]).value, steps[n], c);
    }
  }

  lemma StepCounts(s: State, step: Step)
    requires Next(s, step).Some?
    ensures var s' := Next(s, step).value;
            && s'.posts == s.posts + (if step.Post? then 1 else 0)
            && s'.acquired + Sum(Failures, s'.calls) ==
               s.acquired + Sum(Failures, s.calls) + (if step.Swap? then 1 else 0)
  {
    match step
    case Post =>
    case Enter => SumSnoc(Failures, s.calls, Call(Looping, 0, 0));
    case Load(c) => SumUpdate(Failures, s.calls, c, s.calls[c].(pc := Loaded(s.v), seen := Changes(s)));
    case Swap(c) => SumUpdate(Failures, s.calls, c, Next(s, step).value.calls[c]);
    case Cancel(c) => SumUpdate(Failures, s.calls, c, s.calls[c].(pc := Cancelled));
  }

  /** posts counts the posts of the run. */
  lemma {:induction false} PostsCounted(steps: seq<Step>) returns (posted: set<nat>)
    requires Exec(steps).Some?
    ensures forall j: nat :: j in posted <==> j < |steps| && steps[j].Post?
    ensures Exec(steps).value.posts == |posted|
  {
    if steps == [] {
      posted := {};
    } else {
      var n := |steps| - 1;
      posted := PostsCounted(steps[..n]);
      StepCounts(Exec(steps[..n]).value, steps[n]);
      if steps[n].Post? {
        posted := posted + {n};
      }
    }
  }

  /** Every swap has succeeded or failed. */
  lemma {:induction false} SwapsCounted(steps: seq<Step>) returns (swaps: set<nat>)
    requires Exec(steps).Some?
    ensures forall j: nat :: j in swaps <==> j < |steps| && steps[j].Swap?
    ensures Exec(steps).value.acquired + Sum(Failures, Exec(steps).value.calls) == |swaps|
  {
    if steps == [] {
      swaps := {};
    } else {
      var n := |steps| - 1;
      swaps := SwapsCounted(steps[..n]);
      StepCounts(Exec(steps[..n]).value, steps[n]);
      if steps[n].Swap? {
        swaps := swaps + {n};
      }
    }
  }

  // ---------- contention ----------

  /** A call of Wait that has not returned. */
  function IsWaiting(c: Call): nat {
    if c.pc.Looping? || c.pc.Loaded? then 1 else 0
  }

  /** A call about to swap although v has changed since its load. */
  function Stale(changes: nat): Call -> nat {
    (c: Call) => if c.pc.Loaded? && c.seen < changes then 1 else 0
  }

  /** The most calls that were waiting at once so far. */
  function Peak(steps: seq<Step>): nat {
    if steps == [] || Exec(steps).None? then 0 else
    var now := Sum(IsWaiting, Exec(steps).value.calls);
    var before := Peak(steps[..|steps| - 1]);
    if now > before then now else before
  }

  /** Failed swaps, and those still to come, for each change of v are at most w. */
  ghost predicate Paid(s: State, w: nat) {
    Sum(Failures, s.calls) + Sum(Stale(Changes(s)), s.calls) <= w * Changes(s)
  }

  lemma OneMore(w: nat, changes: nat)
    ensures w * (changes + 1) == w * changes + w
  {
  }

  /** A change of v makes stale at most the calls that are waiting. */
  lemma ChangePays(s: State, s': State, w: nat)
    requires Paid(s, w) && Sum(IsWaiting, s'.calls) <= w
    requires Changes(s') == Changes(s) + 1 && Sum(Failures, s'.calls) == Sum(Failures, s.calls)
    ensures Paid(s', w)
  {
    SumAtMost(Stale(Changes(s')), IsWaiting, s'.calls);
    OneMore(w, Changes(s));
  }

  /** Any other step of call c: a failed swap uses up its own staleness. */
  lemma UpdatePays(s: State, c: nat, to: Call, w: nat)
    requires Paid(s, w) && c < |s.calls|
    requires Failures(to) + Stale(Changes(s))(to) <= Failures(s.calls[c]) + Stale(Changes(s))(s.calls[c])
    ensures Paid(s.(calls := s.calls[c := to]), w)
  {
    SumUpdate(Failures, s.calls, c, to);
    SumUpdate(Stale(Changes(s)), s.calls, c, to);
  }

  lemma NextPays(s: State, step: Step, w: nat)
    requires Inv(s) && Paid(s, w) && Next(s, step).Some?
    requires Sum(IsWaiting, Next(s, step).value.calls) <= w
    ensures Paid(Next(s, step).value, w)
  {
    var s' := Next(s, step).value;
    match step
    case Post => ChangePays(s, s', w);
    case Enter =>
      SumSnoc(Failures, s.calls, Call(Looping, 0, 0));
      SumSnoc(Stale(Changes(s)), s.calls, Call(Looping, 0, 0));
    case Load(c) =>
      if s' != s {
        UpdatePays(s, c, s'.calls[c], w);
      }
    case Swap(c) =>
      assert CallInv(s.calls[c], s.v, Changes(s));
      if s.v == s.calls[c].pc.val {
        SumUpdate(Failures, s.calls, c, s'.calls[c]);
        ChangePays(s, s', w);
      } else {
        UpdatePays(s, c, s'.calls[c], w);
      }
    case Cancel(c) => UpdatePays(s, c, s'.calls[c], w);
  }

  lemma {:induction false} ExecPays(steps: seq<Step>, w: nat)
    requires Exec(steps).Some? && Peak(steps) <= w
    ensures Paid(Exec(steps).value, w)
  {
    if steps != [] {
      var init := steps[..|steps| - 1];
      ExecPays(init, w);
      ExecInv(init);
      NextPays(Exec(init).value, steps[|steps| - 1], w);
    }
  }

  lemma {:induction false} PeakAtMostCalls(steps: seq<Step>)
    requires Exec(steps).Some?
    ensures Peak(steps) <= |Exec(steps).value.calls|
  {
    if steps != [] {
      PeakAtMostCalls(steps[..|steps| - 1]);
      SumBound(IsWaiting, Exec(steps).value.calls, 1);
    }
  }

  /** All failed swaps together, and the stale calls that may fail next, are at most the
      number of calls that ever waited at once times the number of posts and successful waits:
      a swap fails only because somebody else made progress. */
  lemma ContentionBound(steps: seq<Step>)
    requires Exec(steps).Some?
    ensures var s := Exec(steps).value;
            Sum(Failures, s.calls) + Sum(Stale(Changes(s)), s.calls) <=
            Peak(steps) * (s.posts + Sum(IsAcquired, s.calls))
    ensures Peak(steps) <= |Exec(steps).value.calls|
  {
    ExecPays(steps, Peak(steps));
    ExecInv(steps);
    PeakAtMostCalls(steps);
  }

  /** The peak is the number of calls waiting after some t steps. */
  lemma {:induction false} PeakReached(steps: seq<Step>) returns (t: nat, waiting: set<nat>)
    requires Exec(steps).Some?
    ensures t <= |steps| && Exec(steps[..t]).Some?
    ensures var calls := Exec(steps[..t]).value.calls;
            forall c: nat :: c in waiting <==> c < |calls| && (calls[c].pc.Looping? || calls[c].pc.Loaded?)
    ensures |waiting| == Peak(steps)
  {
    if steps == [] {
      t, waiting := 0, {};
    } else {
      var n := |steps| - 1;
      t, waiting := PeakReached(steps[..n]);
      assert steps[..n][..t] == steps[..t] && steps[..|steps|] == steps;
      if Sum(IsWaiting, Exec(steps).value.calls) > |waiting| {
        t := |steps|;
        waiting := SumIsCount(IsWaiting, Exec(steps).value.calls);
      }
    }
  }

  /** The bound in terms of the run: of all swaps, those that did not let a call return are at
      most the calls waiting at some one moment times the posts and returns together. */
  lemma FailedSwapsBounded(steps: seq<Step>)
    returns (swaps: set<nat>, posted: set<nat>, holders: set<nat>, t: nat, waiting: set<nat>)
    requires Exec(steps).Some?
    ensures forall j: nat :: j in swaps <==> j < |steps| && steps[j].Swap?
    ensures forall j: nat :: j in posted <==> j < |steps| && steps[j].Post?
    ensures var calls := Exec(steps).value.calls;
            forall c: nat :: c in holders <==> c < |calls| && calls[c].pc.Acquired?
    ensures t <= |steps| && Exec(steps[..t]).Some?
    ensures var calls := Exec(steps[..t]).value.calls;
            forall c: nat :: c in waiting <==> c < |calls| && (calls[c].pc.Looping? || calls[c].pc.Loaded?)
    ensures |swaps| - |holders| <= |waiting| * (|posted| + |holders|)
  {
    ContentionBound(steps);
    ExecInv(steps);
    posted := PostsCounted(steps);
    swaps := SwapsCounted(steps);
    holders := SumIsCount(IsAcquired, Exec(steps).value.calls);
    t, waiting := PeakReached(steps);
  }

  /** No post is lost: whenever v > 0, any call still looping acquires by its own next two
      steps if nobody interferes; and while v is 0 no call can get past its load. */
  lemma WaiterCanAcquire(steps: seq<Step>, c: nat)
    requires Exec(steps).Some?
    requires c < |Exec(steps).value.calls| && Exec(steps).value.calls[c].pc.Looping?
    ensures var s := Exec(steps).value;
            && (s.v > 0 ==>
                  && Exec(steps + [Load(c), Swap(c)]).Some?
                  && Exec(steps + [Load(c), Swap(c)]).value.calls[c].pc.Acquired?)
            && (s.v == 0 ==> Exec(steps + [Load(c)]) == Some(s))
  {
    var s := Exec(steps).value;
    assert (steps + [Load(c), Swap(c)])[..|steps| + 1] == steps + [Load(c)];
    assert (steps + [Load(c)])[..|steps|] == steps;
  }
}
