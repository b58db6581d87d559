// The atomic counters of lab1/video_rec_service/server_lib/server_lib.go under any number of
// concurrent GetTopVideos requests, interleaved at every atomic add.
module RequestCounters {
  import opened Util

  /** How far one request has come with the counters. */
  datatype Pc =
    | Begun          // totalRequests added
    | Active         // activeRequests added
    | UserCounted    // user service failed: totalErrors added
    | UserFailed     // and userServiceErrors added
    | VideoCounted   // video service failed: totalErrors added
    | VideoFailed    // and videoServiceErrors added
    | Stale          // falling back: staleResponses added
    // the deferred add has taken activeRequests back
    | Clean          // after no error
    | UserEnded      // after a user error
    | VideoEnded     // after a video error, without falling back
    | StaleEnded     // after falling back

  /** requests[k] is request k; the deferred decrement of activeRequests goes below zero only
      if it ran without its increment. */
  datatype State = State(
    requests: seq<Pc>,
    totalRequests: nat,
    activeRequests: int,
    totalErrors: nat,
    userServiceErrors: nat,
    videoServiceErrors: nat,
    staleResponses: nat)

  /** A new request arrives and adds to totalRequests, or request k does its next add. */
  datatype Step = Arrive | Add(k: nat, to: Pc)

  function Init(): State {
    State([], 0, 0, 0, 0, 0, 0)
  }

  /** The adds that can follow one another in GetTopVideos. */
  predicate Follows(from: Pc, to: Pc, disableFallback: bool) {
    match to
    case Begun => false
    case Active => from.Begun?
    case UserCounted => from.Active?
    case UserFailed => from.UserCounted?
    case VideoCounted => from.Active?
    case VideoFailed => from.VideoCounted?
    case Stale => from.VideoFailed? && !disableFallback
    case Clean => from.Active?
    case UserEnded => from.UserFailed?
    case VideoEnded => from.VideoFailed? && disableFallback
    case StaleEnded => from.Stale?
  }

  /** The counter that an add changes. */
  function Counted(s: State, to: Pc): State {
    match to
    case Begun => s
    case Active => s.(activeRequests := s.activeRequests + 1)
    case UserCounted => s.(totalErrors := s.totalErrors + 1)
    case UserFailed => s.(userServiceErrors := s.userServiceErrors + 1)
    case VideoCounted => s.(totalErrors := s.totalErrors + 1)
    case VideoFailed => s.(videoServiceErrors := s.videoServiceErrors + 1)
    case Stale => s.(staleResponses := s.staleResponses + 1)
    case Clean => s.(activeRequests := s.activeRequests - 1)
    case UserEnded => s.(activeRequests := s.activeRequests - 1)
    case VideoEnded => s.(activeRequests := s.activeRequests - 1)
    case StaleEnded => s.(activeRequests := s.activeRequests - 1)
  }

  function Next(s: State, step: Step, disableFallback: bool): Option<State> {
    match step
    case Arrive => Some(s.(requests := s.requests + [Begun], totalRequests := s.totalRequests + 1))
    case Add(k, to) =>
      if k < |s.requests| && Follows(s.requests[k], to, disableFallback) then
        Some(Counted(s.(requests := s.requests[k := to]), to))
      else None
  }

  function Exec(steps: seq<Step>, disableFallback: bool): Option<State> {
    if steps == [] then Some(Init()) else
    var s := Exec(steps[..|steps| - 1], disableFallback);
    if s.None? then None else Next(s.value, steps[|steps| - 1], disableFallback)
  }

  // ---------- what each request has contributed ----------

  predicate Finished(pc: Pc) {
    pc.Clean? || pc.UserEnded? || pc.VideoEnded? || pc.StaleEnded?
  }

  function InFlight(pc: Pc): nat {
    if pc.Begun? || Finished(pc) then 0 else 1
  }

  /** Between the two adds of an error. */
  function BetweenAdds(pc: Pc): nat {
    if pc.UserCounted? || pc.VideoCounted? then 1 else 0
  }

  function UserErrors(pc: Pc): nat {
    if pc.UserFailed? || pc.UserEnded? then 1 else 0
  }

  function VideoErrors(pc: Pc): nat {
    if pc.VideoFailed? || pc.VideoEnded? || pc.Stale? || pc.StaleEnded? then 1 else 0
  }

  function Errors(pc: Pc): nat {
    BetweenAdds(pc) + UserErrors(pc) + VideoErrors(pc)
  }

  function Stales(pc: Pc): nat {
    if pc.Stale? || pc.StaleEnded? then 1 else 0
  }

  ghost predicate Inv(s: State, disableFallback: bool) {
    && s.totalRequests == |s.requests|
    && s.activeRequests == Sum(InFlight, s.requests)
    && s.totalErrors == Sum(Errors, s.requests)
    && s.userServiceErrors == Sum(UserErrors, s.requests)
    && s.videoServiceErrors == Sum(VideoErrors, s.requests)
    && s.staleResponses == Sum(Stales, s.requests)
    && (forall k :: 0 <= k < |s.requests| ==>
          if disableFallback then Stales(s.requests[k]) == 0 else !s.requests[k].VideoEnded?)
  }

  /** Every add changes its counter by exactly what it changes in the request's own account. */
  lemma CountedRight(s: State, from: Pc, to: Pc, disableFallback: bool)
    requires Follows(from, to, disableFallback)
    ensures var t := Counted(s, to);
            && t.requests == s.requests && t.totalRequests == s.totalRequests
            && t.activeRequests == s.activeRequests + InFlight(to) - InFlight(from)
            && t.totalErrors == s.totalErrors + Errors(to) - Errors(from)
            && t.userServiceErrors == s.userServiceErrors + UserErrors(to) - UserErrors(from)
            && t.videoServiceErrors == s.videoServiceErrors + VideoErrors(to) - VideoErrors(from)
            && t.staleResponses == s.staleResponses + Stales(to) - Stales(from)
    ensures if disableFallback then Stales(to) == 0 || Stales(from) == 1 else !to.VideoEnded?
  {
  }

  lemma AddKeeps(s: State, k: nat, to: Pc, disableFallback: bool)
    requires Inv(s, disableFallback) && Next(s, Add(k, to), disableFallback).Some?
    ensures Inv(Next(s, Add(k, to), disableFallback).value, disableFallback)
  {
    var mid := s.(requests := s.requests[k := to]);
    CountedRight(mid, s.requests[k], to, disableFallback);
    SumUpdate(InFlight, s.requests, k, to);
    SumUpdate(Errors, s.requests, k, to);
    SumUpdate(UserErrors, s.requests, k, to);
    SumUpdate(VideoErrors, s.requests, k, to);
    SumUpdate(Stales, s.requests, k, to);
  }

  lemma ArriveKeeps(s: State, disableFallback: bool)
    requires Inv(s, disableFallback)
    ensures Inv(Next(s, Arrive, disableFallback).value, disableFallback)
  {
    SumSnoc(InFlight, s.requests, Begun);
    SumSnoc(Errors, s.requests, Begun);
    SumSnoc(UserErrors, s.requests, Begun);
    SumSnoc(VideoErrors, s.requests, Begun);
    SumSnoc(Stales, s.requests, Begun);
  }

  lemma NextKeepsInv(s: State, step: Step, disableFallback: bool)
    requires Inv(s, disableFallback) && Next(s, step, disableFallback).Some?
    ensures Inv(Next(s, step, disableFallback).value, disableFallback)
  {
    match step
    case Arrive => ArriveKeeps(s, disableFallback);
    case Add(k, to) => AddKeeps(s, k, to, disableFallback);
  }

  lemma {:induction false} ExecInv(steps: seq<Step>, disableFallback: bool)
    requires Exec(steps, disableFallback).Some?
    ensures Inv(Exec(steps, disableFallback).value, disableFallback)
  {
    if steps != [] {
      ExecInv(steps[..|steps| - 1], disableFallback);
      NextKeepsInv(Exec(steps[..|steps| - 1], disableFallback).value, steps[|steps| - 1], disableFallback);
    }
  }

  // ---------- main results ----------

  /** At every moment of every run: activeRequests counts the requests in flight, no request is
      counted as an error twice, stale responses are video errors, and totalErrors runs ahead
      of the two error counters by exactly the requests between the two adds. */
  lemma CountersConsistent(steps: seq<Step>, disableFallback: bool)
    requires Exec(steps, disableFallback).Some?
    ensures var s := Exec(steps, disableFallback).value;
            && s.activeRequests == Sum(InFlight, s.requests)
            && s.totalErrors <= s.totalRequests
            && s.staleResponses <= s.videoServiceErrors
            && s.totalErrors == Sum(BetweenAdds, s.requests) + s.userServiceErrors + s.videoServiceErrors
  {
    ExecInv(steps, disableFallback);
    var s := Exec(steps, disableFallback).value;
    SumBound(Errors, s.requests, 1);
    SumAtMost(Stales, VideoErrors, s.requests);
    SumSplits(Errors, BetweenAdds, UserErrors, VideoErrors, s.requests);
  }

  /** When every request has finished, nothing is active, the error counters add up, and every
      video error was answered stale, or none was if fallback is disabled. */
  lemma CountersAtQuiescence(steps: seq<Step>, disableFallback: bool)
    requires Exec(steps, disableFallback).Some?
    requires forall k :: 0 <= k < |Exec(steps, disableFallback).value.requests| ==>
               Finished(Exec(steps, disableFallback).value.requests[k])
    ensures var s := Exec(steps, disableFallback).value;
            && s.activeRequests == 0
            && s.totalErrors == s.userServiceErrors + s.videoServiceErrors
            && s.staleResponses == (if disableFallback then 0 else s.videoServiceErrors)
  {
    CountersConsistent(steps, disableFallback);
    ExecInv(steps, disableFallback);
    var s := Exec(steps, disableFallback).value;
    SumBound(InFlight, s.requests, 0);
    SumBound(BetweenAdds, s.requests, 0);
    if disableFallback {
      SumBound(Stales, s.requests, 0);
    } else {
      SumAgree(Stales, VideoErrors, s.requests);
    }
  }

  /** In terms of the run: totalRequests counts the arrivals. */
  lemma {:induction false} ArrivalsCounted(steps: seq<Step>, disableFallback: bool) returns (arrivals: set<nat>)
    requires Exec(steps, disableFallback).Some?
    ensures forall j: nat :: j in arrivals <==> j < |steps| && steps[j].Arrive?
    ensures Exec(steps, disableFallback).value.totalRequests == |arrivals|
  {
    if steps == [] {
      arrivals := {};
    } else {
      var n := |steps| - 1;
      arrivals := ArrivalsCounted(steps[..n], disableFallback);
      if steps[n].Arrive? {
        arrivals := arrivals + {n};
      }
    }
  }

  /** And in terms of the requests: the other counters count those that have got so far. */
  lemma RequestsCounted(steps: seq<Step>, disableFallback: bool)
    returns (active: set<nat>, failed: set<nat>, user: set<nat>, video: set<nat>, stale: set<nat>)
    requires Exec(steps, disableFallback).Some?
    ensures var rs := Exec(steps, disableFallback).value.requests;
            && (forall k: nat :: k in active <==>
                  && k < |rs| && !rs[k].Begun?
                  && !rs[k].Clean? && !rs[k].UserEnded? && !rs[k].VideoEnded? && !rs[k].StaleEnded?)
            && (forall k: nat :: k in failed <==> k < |rs| && !rs[k].Begun? && !rs[k].Active? && !rs[k].Clean?)
            && (forall k: nat :: k in user <==> k < |rs| && (rs[k].UserFailed? || rs[k].UserEnded?))
            && (forall k: nat :: k in video <==>
                  k < |rs| && (rs[k].VideoFailed? || rs[k].VideoEnded? || rs[k].Stale? || rs[k].StaleEnded?))
            && (forall k: nat :: k in stale <==> k < |rs| && (rs[k].Stale? || rs[k].StaleEnded?))
    ensures var s := Exec(steps, disableFallback).value;
            && s.activeRequests == |active| && s.totalErrors == |failed| && s.userServiceErrors == |user|
            && s.videoServiceErrors == |video| && s.staleResponses == |stale|
  {
    ExecInv(steps, disableFallback);
    var rs := Exec(steps, disableFallback).value.requests;
    active := SumIsCount(InFlight, rs);
    failed := SumIsCount(Errors, rs);
    user := SumIsCount(UserErrors, rs);
    video := SumIsCount(VideoErrors, rs);
    stale := SumIsCount(Stales, rs);
  }

  /** A request is where its latest add, if it has made one, has brought it: after the first upto
      steps that is step last. */
  lemma {:induction false} WhereRequestIs(steps: seq<Step>, upto: nat, disableFallback: bool, k: nat)
    returns (last: Option<nat>)
    requires upto <= |steps| && Exec(steps[..upto], disableFallback).Some?
    requires k < |Exec(steps[..upto], disableFallback).value.requests|
    ensures last.None? ==>
              && Exec(steps[..upto], disableFallback).value.requests[k] == Begun
              && forall j :: 0 <= j < upto ==> !(steps[j].Add? && steps[j].k == k)
    ensures last.Some? ==>
              && last.value < upto
              && steps[last.value] == Add(k, Exec(steps[..upto], disableFallback).value.requests[k])
              && forall j :: last.value < j < upto ==> !(steps[j].Add? && steps[j].k == k)
  {
    var n := upto - 1;
    assert steps[..upto][..n] == steps[..n];
    if steps[n].Add? && steps[n].k == k {
      last := Some(n);
    } else if k < |Exec(steps[..n], disableFallback).value.requests| {
      last := WhereRequestIs(steps, n, disableFallback, k);
    } else {
      NoAddYet(steps, n, disableFallback, k);
      last := None;
    }
  }

  lemma {:induction false} NoAddYet(steps: seq<Step>, upto: nat, disableFallback: bool, k: nat)
    requires upto <= |steps| && Exec(steps[..upto], disableFallback).Some?
    requires k >= |Exec(steps[..upto], disableFallback).value.requests|
    ensures forall j :: 0 <= j < upto ==> !(steps[j].Add? && steps[j].k == k)
  {
    if upto > 0 {
      assert steps[..upto][..upto - 1] == steps[..upto - 1];
      NoAddYet(steps, upto - 1, disableFallback, k);
    }
  }

  lemma ExecSnoc(steps: seq<Step>, step: Step, disableFallback: bool)
    ensures Exec(steps + [step], disableFallback) ==
            var s := Exec(steps, disableFallback); if s.None? then None else Next(s.value, step, disableFallback)
  {
    assert (steps + [step])[..|steps|] == steps;
  }

  lemma AddGoes(steps: seq<Step>, k: nat, to: Pc, disableFallback: bool) returns (more: seq<Step>)
    requires Exec(steps, disableFallback).Some? && k < |Exec(steps, disableFallback).value.requests|
    requires Follows(Exec(steps, disableFallback).value.requests[k], to, disableFallback)
    ensures more == steps + [Add(k, to)] && Exec(more, disableFallback).Some?
    ensures |Exec(more, disableFallback).value.requests| == |Exec(steps, disableFallback).value.requests|
    ensures Exec(more, disableFallback).value.requests[k] == to
  {
    ExecSnoc(steps, Add(k, to), disableFallback);
    more := steps + [Add(k, to)];
  }

  lemma Arrives(steps: seq<Step>, disableFallback: bool) returns (more: seq<Step>)
    requires Exec(steps, disableFallback).Some?
    ensures var k := |Exec(steps, disableFallback).value.requests|;
            && more == steps + [Arrive, Add(k, Active)] && Exec(more, disableFallback).Some?
            && |Exec(more, disableFallback).value.requests| == k + 1
            && Exec(more, disableFallback).value.requests[k] == Active
  {
    var k := |Exec(steps, disableFallback).value.requests|;
    ExecSnoc(steps, Arrive, disableFallback);
    more := AddGoes(steps + [Arrive], k, Active, disableFallback);
    assert more == steps + [Arrive, Add(k, Active)];
  }

  // Whatever has happened, a new request can go each of the ways of GetTopVideos.

  lemma CleanWay(steps: seq<Step>, disableFallback: bool)
    requires Exec(steps, disableFallback).Some?
    ensures var k := |Exec(steps, disableFallback).value.requests|;
            Exec(steps + [Arrive, Add(k, Active)] + [Add(k, Clean)], disableFallback).Some?
  {
    var k := |Exec(steps, disableFallback).value.requests|;
    var run := Arrives(steps, disableFallback);
    run := AddGoes(run, k, Clean, disableFallback);
  }

  lemma UserErrorWay(steps: seq<Step>, disableFallback: bool)
    requires Exec(steps, disableFallback).Some?
    ensures var k := |Exec(steps, disableFallback).value.requests|;
            Exec(steps + [Arrive, Add(k, Active)] + [Add(k, UserCounted)] + [Add(k, UserFailed)] + [Add(k, UserEnded)],
                 disableFallback).Some?
  {
    var k := |Exec(steps, disableFallback).value.requests|;
    var run := Arrives(steps, disableFallback);
    run := AddGoes(run, k, UserCounted, disableFallback);
    run := AddGoes(run, k, UserFailed, disableFallback);
    run := AddGoes(run, k, UserEnded, disableFallback);
  }

  lemma VideoErrorWay(steps: seq<Step>, disableFallback: bool)
    requires Exec(steps, disableFallback).Some?
    ensures var k := |Exec(steps, disableFallback).value.requests|;
            var run := steps + [Arrive, Add(k, Active)] + [Add(k, VideoCounted)] + [Add(k, VideoFailed)];
            if disableFallback then Exec(run + [Add(k, VideoEnded)], disableFallback).Some?
            else Exec(run + [Add(k, Stale)] + [Add(k, StaleEnded)], disableFallback).Some?
  {
    var k := |Exec(steps, disableFallback).value.requests|;
    var run := Arrives(steps, disableFallback);
    run := AddGoes(run, k, VideoCounted, disableFallback);
    run := AddGoes(run, k, VideoFailed, disableFallback);
    if disableFallback {
      run := AddGoes(run, k, VideoEnded, disableFallback);
    } else {
      run := AddGoes(run, k, Stale, disableFallback);
      run := AddGoes(run, k, StaleEnded, disableFallback);
    }
  }
}
