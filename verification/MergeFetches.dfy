// MergeFetches of lab0/merge_channels.go: two workers, a WaitGroup and the goroutine that
// closes the output, interleaved step by step.
module MergeFetches {
  import opened Util
  import M = MergeChannels

  datatype Pc<T> = Fetching | Sending(data: T) | Ending | Gone

  /** pos values fetched so far; saidFalse once Fetch has returned false; lateFetches counts
      calls of Fetch made after that. */
  datatype Worker<T> = Worker(pos: nat, pc: Pc<T>, saidFalse: bool, lateFetches: nat)

  /** wg is the WaitGroup's counter, which must not go below zero; closes counts close(out);
      lateSends counts sends on a closed channel. */
  datatype State<T> = State(a: Worker<T>, b: Worker<T>, wg: int, out: seq<T>, closes: nat, lateSends: nat)

  datatype Step = FetchStep(side: M.Side) | SendStep(side: M.Side) | DoneStep(side: M.Side) | CloseStep

  function Init<T>(): State<T> {
    var w := Worker(0, Fetching, false, 0);
    State(w, w, 2, [], 0, 0)
  }

  function At<T>(s: State<T>, side: M.Side): Worker<T> {
    if side.A? then s.a else s.b
  }

  function With<T>(s: State<T>, side: M.Side, w: Worker<T>): State<T> {
    if side.A? then s.(a := w) else s.(b := w)
  }

  function Fetched<T>(src: seq<T>, w: Worker<T>): Worker<T> {
    var late := if w.saidFalse then 1 else 0;
    if w.pos < |src| then
      w.(pos := w.pos + 1, pc := Sending(src[w.pos]), lateFetches := w.lateFetches + late)
    else
      w.(pc := Ending, saidFalse := true, lateFetches := w.lateFetches + late)
  }

  function Next<T>(a: seq<T>, b: seq<T>, s: State<T>, step: Step): Option<State<T>> {
    match step
    case FetchStep(side) =>
      var w := At(s, side);
      if w.pc.Fetching? then Some(With(s, side, Fetched(if side.A? then a else b, w))) else None
    case SendStep(side) =>
      var w := At(s, side);
      if w.pc.Sending? then
        Some(With(s, side, w.(pc := Fetching)).(out := s.out + [w.pc.data],
                                                lateSends := s.lateSends + (if s.closes > 0 then 1 else 0)))
      else None
    case DoneStep(side) =>
      var w := At(s, side);
      if w.pc.Ending? then Some(With(s, side, w.(pc := Gone)).(wg := s.wg - 1)) else None
    case CloseStep =>
      // wg.Wait has returned; the deferred close runs once, on the way out
      if s.wg == 0 && s.closes == 0 then Some(s.(closes := 1)) else None
  }

  function Exec<T>(a: seq<T>, b: seq<T>, steps: seq<Step>): Option<State<T>> {
    if steps == [] then Some(Init()) else
    var s := Exec(a, b, steps[..|steps| - 1]);
    if s.None? then None else Next(a, b, s.value, steps[|steps| - 1])
  }

  /** The values this worker has put on the output. */
  function SentBy<T>(w: Worker<T>): nat {
    if w.pc.Sending? && w.pos > 0 then w.pos - 1 else w.pos
  }

  ghost predicate WorkerInv<T>(src: seq<T>, w: Worker<T>) {
    && w.pos <= |src| && w.lateFetches == 0
    && (w.saidFalse <==> w.pc.Ending? || w.pc.Gone?)
    && (w.saidFalse ==> w.pos == |src|)
    && (w.pc.Sending? ==> w.pos > 0 && w.pc.data == src[w.pos - 1])
  }

  ghost predicate Inv<T>(a: seq<T>, b: seq<T>, s: State<T>) {
    && WorkerInv(a, s.a) && WorkerInv(b, s.b)
    && s.wg == (if s.a.pc.Gone? then 0 else 1) + (if s.b.pc.Gone? then 0 else 1)
    && s.closes <= 1 && (s.closes == 1 ==> s.wg == 0)
    && s.lateSends == 0
    && M.Interleaves(a[..SentBy(s.a)], b[..SentBy(s.b)], s.out)
  }

  lemma SendKeeps<T>(a: seq<T>, b: seq<T>, s: State<T>, side: M.Side)
    requires Inv(a, b, s) && At(s, side).pc.Sending?
    ensures Inv(a, b, Next(a, b, s, SendStep(side)).value)
  {
    var s' := Next(a, b, s, SendStep(side)).value;
    assert s'.out[..|s.out|] == s.out;
    if side.A? {
      assert a[..s.a.pos][..s.a.pos - 1] == a[..s.a.pos - 1];
    } else {
      assert b[..s.b.pos][..s.b.pos - 1] == b[..s.b.pos - 1];
    }
  }

  lemma NextKeeps<T>(a: seq<T>, b: seq<T>, s: State<T>, step: Step)
    requires Inv(a, b, s) && Next(a, b, s, step).Some?
    ensures Inv(a, b, Next(a, b, s, step).value)
  {
    match step
    case SendStep(side) => SendKeeps(a, b, s, side);
    case FetchStep(side) => FetchKeeps(a, b, s, side);
    case DoneStep(side) =>
    case CloseStep =>
  }

  lemma FetchKeeps<T>(a: seq<T>, b: seq<T>, s: State<T>, side: M.Side)
    requires Inv(a, b, s) && At(s, side).pc.Fetching?
    ensures Inv(a, b, Next(a, b, s, FetchStep(side)).value)
  {
    var s' := Next(a, b, s, FetchStep(side)).value;
    assert SentBy(s'.a) == SentBy(s.a) && SentBy(s'.b) == SentBy(s.b);
  }

  lemma {:induction false} ExecInv<T>(a: seq<T>, b: seq<T>, steps: seq<Step>)
    requires Exec(a, b, steps).Some?
    ensures Inv(a, b, Exec(a, b, steps).value)
  {
    if steps != [] {
      ExecInv(a, b, steps[..|steps| - 1]);
      NextKeeps(a, b, Exec(a, b, steps[..|steps| - 1]).value, steps[|steps| - 1]);
    }
  }

  /** In every interleaving: no send after close, no Fetch after false, at most one close, the
      WaitGroup never negative; and when the output is closed it is a full interleaving. */
  lemma FetchesSafe<T>(a: seq<T>, b: seq<T>, steps: seq<Step>)
    requires Exec(a, b, steps).Some?
    ensures var s := Exec(a, b, steps).value;
            && s.lateSends == 0 && s.a.lateFetches == 0 && s.b.lateFetches == 0
            && s.closes <= 1 && s.wg >= 0
            && (s.closes == 1 ==> M.Interleaves(a, b, s.out))
  {
    ExecInv(a, b, steps);
    assert a[..|a|] == a && b[..|b|] == b;
  }

  /** The calls of Fetch that a worker has made. */
  function FetchesBy<T>(w: Worker<T>): nat {
    w.pos + (if w.saidFalse then 1 else 0)
  }

  lemma FetchCounts<T>(a: seq<T>, b: seq<T>, s: State<T>, step: Step, side: M.Side)
    requires WorkerInv(a, s.a) && WorkerInv(b, s.b) && Next(a, b, s, step).Some?
    ensures FetchesBy(At(Next(a, b, s, step).value, side)) ==
            FetchesBy(At(s, side)) + (if step == FetchStep(side) then 1 else 0)
  {
  }

  lemma WorkersKeep<T>(a: seq<T>, b: seq<T>, steps: seq<Step>)
    requires Exec(a, b, steps).Some?
    ensures var s := Exec(a, b, steps).value; WorkerInv(a, s.a) && WorkerInv(b, s.b)
  {
    ExecInv(a, b, steps);
  }

  lemma {:induction false} FetchesCounted<T>(a: seq<T>, b: seq<T>, steps: seq<Step>, side: M.Side)
    returns (calls: set<nat>)
    requires Exec(a, b, steps).Some?
    ensures forall j: nat :: j in calls <==> j < |steps| && steps[j] == FetchStep(side)
    ensures |calls| == FetchesBy(At(Exec(a, b, steps).value, side))
  {
    if steps == [] {
      calls := {};
    } else {
      var n := |steps| - 1;
      WorkersKeep(a, b, steps[..n]);
      FetchCounts(a, b, Exec(a, b, steps[..n]).value, steps[n], side);
      calls := FetchesCounted(a, b, steps[..n], side);
      if steps[n] == FetchStep(side) {
        calls := calls + {n};
      }
    }
  }

  /** In terms of the run: calls are a worker's calls of Fetch, one for every value and the one
      that returned false; none is made after it. */
  lemma FetchCalls<T>(a: seq<T>, b: seq<T>, steps: seq<Step>, side: M.Side) returns (calls: set<nat>)
    requires Exec(a, b, steps).Some?
    ensures forall j: nat :: j in calls <==> j < |steps| && steps[j] == FetchStep(side)
    ensures var w := At(Exec(a, b, steps).value, side); |calls| == w.pos + (if w.saidFalse then 1 else 0)
    ensures |calls| <= |if side.A? then a else b| + 1
  {
    WorkersKeep(a, b, steps);
    calls := FetchesCounted(a, b, steps, side);
  }

  /** The steps a worker has taken. */
  function Taken<T>(w: Worker<T>): int {
    match w.pc
    case Fetching => 2 * w.pos
    case Sending(_) => 2 * w.pos - 1
    case Ending => 2 * w.pos + 1
    case Gone => 2 * w.pos + 2
  }

  lemma OneTaken<T>(a: seq<T>, b: seq<T>, s: State<T>, step: Step)
    requires Next(a, b, s, step).Some?
    ensures var s' := Next(a, b, s, step).value;
            Taken(s'.a) + Taken(s'.b) + s'.closes == Taken(s.a) + Taken(s.b) + s.closes + 1
  {
  }

  lemma {:induction false} StepsTaken<T>(a: seq<T>, b: seq<T>, steps: seq<Step>)
    requires Exec(a, b, steps).Some?
    ensures var s := Exec(a, b, steps).value; |steps| == Taken(s.a) + Taken(s.b) + s.closes
  {
    if steps != [] {
      StepsTaken(a, b, steps[..|steps| - 1]);
      OneTaken(a, b, Exec(a, b, steps[..|steps| - 1]).value, steps[|steps| - 1]);
    }
  }

  /** No run gets stuck or goes on for ever: it takes at most 2 * (|a| + |b|) + 5 steps, and it
      can go on if and only if the output is not closed yet. */
  lemma FetchesFinish<T>(a: seq<T>, b: seq<T>, steps: seq<Step>)
    requires Exec(a, b, steps).Some?
    ensures |steps| <= 2 * (|a| + |b|) + 5
    ensures Exec(a, b, steps).value.closes == 1 <==> forall step :: Next(a, b, Exec(a, b, steps).value, step).None?
  {
    ExecInv(a, b, steps);
    StepsTaken(a, b, steps);
    var s := Exec(a, b, steps).value;
    if s.closes == 0 {
      var step := NextStep(s);
      assert Next(a, b, s, step).Some?;
    }
  }

  lemma {:induction false} ExecPrefix<T>(a: seq<T>, b: seq<T>, steps: seq<Step>, k: nat)
    requires Exec(a, b, steps).Some? && k <= |steps|
    ensures Exec(a, b, steps[..k]).Some?
    decreases |steps|
  {
    if k == |steps| {
      assert steps[..k] == steps;
    } else {
      var init := steps[..|steps| - 1];
      ExecPrefix(a, b, init, k);
      assert init[..k] == steps[..k];
    }
  }

  lemma StepAfter<T>(a: seq<T>, b: seq<T>, steps: seq<Step>, j: nat)
    requires Exec(a, b, steps).Some? && j < |steps|
    ensures Exec(a, b, steps[..j]).Some? && Next(a, b, Exec(a, b, steps[..j]).value, steps[j]).Some?
    ensures Exec(a, b, steps[..j + 1]) == Next(a, b, Exec(a, b, steps[..j]).value, steps[j])
  {
    ExecPrefix(a, b, steps, j + 1);
    assert steps[..j + 1][..j] == steps[..j];
  }

  /** Closing is the last step of a run: nothing is sent, fetched or closed after it. */
  lemma CloseIsLast<T>(a: seq<T>, b: seq<T>, steps: seq<Step>, j: nat)
    requires Exec(a, b, steps).Some? && j < |steps| && steps[j].CloseStep?
    ensures j == |steps| - 1
  {
    StepAfter(a, b, steps, j);
    if j + 1 < |steps| {
      StepAfter(a, b, steps, j + 1);
      FetchesFinish(a, b, steps[..j + 1]);
    }
  }

  function NextStep<T>(s: State<T>): Step {
    match s.a.pc
    case Fetching => FetchStep(M.A)
    case Sending(_) => SendStep(M.A)
    case Ending => DoneStep(M.A)
    case Gone =>
      match s.b.pc
      case Fetching => FetchStep(M.B)
      case Sending(_) => SendStep(M.B)
      case Ending => DoneStep(M.B)
      case Gone => CloseStep
  }

  function Between<T>(i: nat, j: nat, out: seq<T>): State<T> {
    State(Worker(i, Fetching, false, 0), Worker(j, Fetching, false, 0), 2, out, 0, 0)
  }

  lemma TwoMore<T>(a: seq<T>, b: seq<T>, steps: seq<Step>, x: Step, y: Step)
    requires Exec(a, b, steps).Some? && Next(a, b, Exec(a, b, steps).value, x).Some?
    ensures Exec(a, b, steps + [x, y]) == Next(a, b, Next(a, b, Exec(a, b, steps).value, x).value, y)
  {
    assert (steps + [x, y])[..|steps| + 1] == steps + [x];
    assert (steps + [x])[..|steps|] == steps;
  }

  lemma {:induction false} ReachPrefix<T>(a: seq<T>, b: seq<T>, i: nat, j: nat, out: seq<T>) returns (steps: seq<Step>)
    requires i <= |a| && j <= |b| && M.Interleaves(a[..i], b[..j], out)
    ensures Exec(a, b, steps) == Some(Between(i, j, out))
    decreases |out|
  {
    if out == [] {
      steps := [];
    } else {
      var n := |out| - 1;
      assert out == out[..n] + [out[n]];
      if i > 0 && a[i - 1] == out[n] && M.Interleaves(a[..i - 1], b[..j], out[..n]) {
        var t := ReachPrefix(a, b, i - 1, j, out[..n]);
        TwoMore(a, b, t, FetchStep(M.A), SendStep(M.A));
        steps := t + [FetchStep(M.A), SendStep(M.A)];
      } else {
        assert i > 0 ==> a[..i][..i - 1] == a[..i - 1];
        assert b[..j][..j - 1] == b[..j - 1];
        var t := ReachPrefix(a, b, i, j - 1, out[..n]);
        TwoMore(a, b, t, FetchStep(M.B), SendStep(M.B));
        steps := t + [FetchStep(M.B), SendStep(M.B)];
      }
    }
  }

  /** Every interleaving is the closed output of some run. */
  lemma FetchesComplete<T>(a: seq<T>, b: seq<T>, out: seq<T>) returns (steps: seq<Step>)
    requires M.Interleaves(a, b, out)
    ensures Exec(a, b, steps).Some? && Exec(a, b, steps).value.closes == 1 && Exec(a, b, steps).value.out == out
  {
    assert a[..|a|] == a && b[..|b|] == b;
    var t := ReachPrefix(a, b, |a|, |b|, out);
    TwoMore(a, b, t, FetchStep(M.A), DoneStep(M.A));
    var u := t + [FetchStep(M.A), DoneStep(M.A)];
    TwoMore(a, b, u, FetchStep(M.B), DoneStep(M.B));
    var v := u + [FetchStep(M.B), DoneStep(M.B)];
    steps := v + [CloseStep];
    assert steps[..|v|] == v;
  }

  ghost predicate FetchesCanOutput<T>(a: seq<T>, b: seq<T>, out: seq<T>) {
    exists steps: seq<Step> :: Exec(a, b, steps).Some? && Exec(a, b, steps).value.closes == 1 &&
                               Exec(a, b, steps).value.out == out
  }

  ghost predicate ChannelsCanOutput<T>(a: seq<T>, b: seq<T>, out: seq<T>) {
    exists turns: seq<M.Side> :: M.Exec(a, b, turns).Some? && M.Returned(M.Exec(a, b, turns).value) &&
                                 M.Exec(a, b, turns).value.out == out
  }

  /** The two-worker form and the select form have exactly the same final outputs. */
  lemma SameOutputs<T>(a: seq<T>, b: seq<T>, out: seq<T>)
    ensures FetchesCanOutput(a, b, out) <==> ChannelsCanOutput(a, b, out)
    ensures FetchesCanOutput(a, b, out) <==> M.Interleaves(a, b, out)
  {
    forall steps: seq<Step> | Exec(a, b, steps).Some? && Exec(a, b, steps).value.closes == 1 &&
                              Exec(a, b, steps).value.out == out
      ensures M.Interleaves(a, b, out)
    {
      FetchesSafe(a, b, steps);
    }
    forall turns: seq<M.Side> | M.Exec(a, b, turns).Some? && M.Returned(M.Exec(a, b, turns).value) &&
                                M.Exec(a, b, turns).value.out == out
      ensures M.Interleaves(a, b, out)
    {
      M.MergeSound(a, b, turns);
    }
    if M.Interleaves(a, b, out) {
      var steps := FetchesComplete(a, b, out);
      var turns := M.MergeComplete(a, b, out);
    }
  }
}
