// The online monitor of committed entries in lab3/raft/config.go: checkLogs and applier, and
// the readers nCommitted and one, which take the lock once per server. Appliers of all servers
// run concurrently; as checkLogs holds cfg.mu, a run is one stream of messages.
module ApplyMonitor {
  import opened Util

  /** Commands are values compared with ==. */
  type Command = int

  datatype ApplyMsg = ApplyMsg(valid: bool, command: Command, index: int)

  /** applier(server, ..) receives msg. */
  datatype Event = Event(server: nat, msg: ApplyMsg)

  type Log = map<int, Command>

  /** cfg.logs and cfg.maxIndex. */
  datatype Monitor = Monitor(logs: seq<Log>, maxIndex: int)

  datatype Mismatch = Mismatch(index: int, server: nat, command: Command, other: nat, held: Command)

  function Init(n: nat): Monitor {
    Monitor(seq(n, _ => map[]), 0)
  }

  predicate Conflicts(log: Log, m: ApplyMsg) {
    m.index in log && log[m.index] != m.command
  }

  function Recorded(mon: Monitor, i: nat, m: ApplyMsg): Monitor
    requires i < |mon.logs|
  {
    Monitor(mon.logs[i := mon.logs[i][m.index := m.command]],
            if m.index > mon.maxIndex then m.index else mon.maxIndex)
  }

  predicate Allowed(mon: Monitor, e: Event)
    requires e.server < |mon.logs|
  {
    e.msg.valid ==>
      && (forall j :: 0 <= j < |mon.logs| ==> !Conflicts(mon.logs[j], e.msg))
      && (e.msg.index > 1 ==> e.msg.index - 1 in mon.logs[e.server])
  }

  /** The monitor after a stream of messages; None once log.Fatalf has stopped the process. */
  function Exec(n: nat, stream: seq<Event>): (r: Option<Monitor>)
    ensures r.Some? ==> |r.value.logs| == n
  {
    if stream == [] then Some(Init(n)) else
    var t := Exec(n, stream[..|stream| - 1]);
    var e := stream[|stream| - 1];
    if t.None? || e.server >= n || !Allowed(t.value, e) then None
    else if e.msg.valid then Some(Recorded(t.value, e.server, e.msg))
    else t
  }

  class Config {
    var logs: seq<Log>
    var maxIndex: int

    ghost function View(): Monitor
      reads this
    {
      Monitor(logs, maxIndex)
    }

    constructor (n: nat)
      ensures View() == Init(n)
    {
      logs := seq(n, _ => map[]);
      maxIndex := 0;
    }

    /** The error names the last log that disagrees. The message is recorded either way. */
    method CheckLogs(i: nat, m: ApplyMsg) returns (err: Option<Mismatch>, prevok: bool)
      requires i < |logs|
      modifies this
      ensures View() == Recorded(old(View()), i, m)
      ensures logs == old(logs)[i := old(logs)[i][m.index := m.command]]
      ensures maxIndex == if m.index > old(maxIndex) then m.index else old(maxIndex)
      ensures prevok == (m.index - 1 in old(logs)[i])
      ensures err.None? <==> forall j :: 0 <= j < |old(logs)| ==> !Conflicts(old(logs)[j], m)
      ensures err.None? <==>
              forall j :: 0 <= j < |old(logs)| && m.index in old(logs)[j] ==> old(logs)[j][m.index] == m.command
      ensures err.Some? ==>
        && err.value.other < |old(logs)| && Conflicts(old(logs)[err.value.other], m)
        && err.value == Mismatch(m.index, i, m.command, err.value.other, old(logs)[err.value.other][m.index])
        && forall j :: err.value.other < j < |old(logs)| ==> !Conflicts(old(logs)[j], m)
    {
      err := None;
      var v := m.command;
      for j := 0 to |logs|
        modifies {}
        invariant err.None? <==> forall k :: 0 <= k < j ==> !Conflicts(logs[k], m)
        invariant err.Some? ==>
          && err.value.other < j && Conflicts(logs[err.value.other], m)
          && err.value == Mismatch(m.index, i, v, err.value.other, logs[err.value.other][m.index])
          && forall k :: err.value.other < k < j ==> !Conflicts(logs[k], m)
      {
        if m.index in logs[j] && logs[j][m.index] != v {
          assert Conflicts(logs[j], m);
          err := Some(Mismatch(m.index, i, v, j, logs[j][m.index]));
        }
      }
      prevok := m.index - 1 in logs[i];
      logs := logs[i := logs[i][m.index := v]];
      if m.index > maxIndex {
        maxIndex := m.index;
      }
    }

    /** One round of applier's loop; fatal means log.Fatalf. */
    method Apply(i: nat, m: ApplyMsg) returns (fatal: bool)
      requires i < |logs|
      modifies this
      ensures fatal == !Allowed(old(View()), Event(i, m))
      ensures View() == if m.valid then Recorded(old(View()), i, m) else old(View())
    {
      fatal := false;
      if m.valid {
        var err, prevok := CheckLogs(i, m);
        fatal := err.Some? || (m.index > 1 && !prevok);
      }
    }

    /** All appliers, in the order in which they take cfg.mu. */
    method Appliers(stream: seq<Event>) returns (accepted: bool)
      requires View() == Init(|logs|) && forall k :: 0 <= k < |stream| ==> stream[k].server < |logs|
      modifies this
      ensures accepted == Good(stream)
      ensures accepted <==>
              forall k :: 0 <= k < |stream| && stream[k].msg.valid ==>
                && (forall j :: 0 <= j < k && stream[j].msg.valid && stream[j].msg.index == stream[k].msg.index ==>
                      stream[j].msg.command == stream[k].msg.command)
                && (stream[k].msg.index > 1 ==>
                      exists j :: && 0 <= j < k && stream[j].msg.valid && stream[j].server == stream[k].server
                                  && stream[j].msg.index == stream[k].msg.index - 1)
      ensures accepted ==> Exec(|old(logs)|, stream) == Some(View())
    {
      ghost var n := |logs|;
      for k := 0 to |stream|
        invariant |logs| == n && Exec(n, stream[..k]) == Some(View())
      {
        assert stream[..k + 1][..k] == stream[..k];
        var fatal := Apply(stream[k].server, stream[k].msg);
        if fatal {
          assert Exec(n, stream[..k + 1]).None?;
          ExecPrefix(n, stream, k + 1);
          AcceptsIffGood(n, stream);
          GoodMeans(stream);
          return false;
        }
      }
      assert stream[..|stream|] == stream;
      AcceptsIffGood(n, stream);
      GoodMeans(stream);
      accepted := true;
    }
  }

  // ---------- the monitor is exact ----------

  /** Message k agrees with all earlier ones on its index, and an index above 1 follows its
      predecessor on the same server. */
  predicate GoodAt(stream: seq<Event>, k: nat)
    requires k < |stream|
  {
    var e := stream[k];
    e.msg.valid ==>
      && (forall j :: 0 <= j < k && stream[j].msg.valid && stream[j].msg.index == e.msg.index ==>
            stream[j].msg.command == e.msg.command)
      && (e.msg.index > 1 ==> exists j :: 0 <= j < k && Says(stream[j], e.server, e.msg.index - 1))
  }

  predicate Good(stream: seq<Event>) {
    forall k :: 0 <= k < |stream| ==> GoodAt(stream, k)
  }

  lemma GoodMeans(stream: seq<Event>)
    ensures Good(stream) <==>
            forall k :: 0 <= k < |stream| && stream[k].msg.valid ==>
              && (forall j :: 0 <= j < k && stream[j].msg.valid && stream[j].msg.index == stream[k].msg.index ==>
                    stream[j].msg.command == stream[k].msg.command)
              && (stream[k].msg.index > 1 ==>
                    exists j :: && 0 <= j < k && stream[j].msg.valid && stream[j].server == stream[k].server
                                && stream[j].msg.index == stream[k].msg.index - 1)
  {
    forall k | 0 <= k < |stream| && stream[k].msg.valid
      ensures GoodAt(stream, k) <==>
              && (forall j :: 0 <= j < k && stream[j].msg.valid && stream[j].msg.index == stream[k].msg.index ==>
                    stream[j].msg.command == stream[k].msg.command)
              && (stream[k].msg.index > 1 ==>
                    exists j :: && 0 <= j < k && stream[j].msg.valid && stream[j].server == stream[k].server
                                && stream[j].msg.index == stream[k].msg.index - 1)
    {
      forall j | 0 <= j < k
        ensures Says(stream[j], stream[k].server, stream[k].msg.index - 1) <==>
                && stream[j].msg.valid && stream[j].server == stream[k].server
                && stream[j].msg.index == stream[k].msg.index - 1
      {
      }
    }
  }

  predicate Says(e: Event, server: nat, index: int) {
    e.msg.valid && e.server == server && e.msg.index == index
  }

  /** A log holds exactly what the stream said to its server. */
  ghost predicate Mirrors(mon: Monitor, stream: seq<Event>) {
    && (forall k :: 0 <= k < |stream| && stream[k].msg.valid ==>
          && stream[k].server < |mon.logs|
          && stream[k].msg.index in mon.logs[stream[k].server]
          && mon.logs[stream[k].server][stream[k].msg.index] == stream[k].msg.command)
    && (forall i, x :: 0 <= i < |mon.logs| && x in mon.logs[i] ==>
          exists k :: 0 <= k < |stream| && Says(stream[k], i, x))
  }

  lemma {:induction false} ExecMirrors(n: nat, stream: seq<Event>)
    requires Exec(n, stream).Some?
    ensures Mirrors(Exec(n, stream).value, stream)
  {
    if stream != [] {
      var init := stream[..|stream| - 1];
      ExecMirrors(n, init);
      var mon := Exec(n, init).value;
      var mon' := Exec(n, stream).value;
      forall i, x | 0 <= i < n && x in mon'.logs[i]
        ensures exists k :: 0 <= k < |stream| && Says(stream[k], i, x)
      {
        if x in mon.logs[i] {
          var k :| 0 <= k < |init| && Says(init[k], i, x);
          assert Says(stream[k], i, x);
        } else {
          assert Says(stream[|stream| - 1], i, x);
        }
      }
    }
  }

  lemma AllowedIffGoodAt(n: nat, stream: seq<Event>, e: Event)
    requires Exec(n, stream).Some? && e.server < n
    ensures Allowed(Exec(n, stream).value, e) <==> GoodAt(stream + [e], |stream|)
  {
    ExecMirrors(n, stream);
    var mon := Exec(n, stream).value;
    if Allowed(mon, e) && e.msg.valid {
      forall j | 0 <= j < |stream| && stream[j].msg.valid && stream[j].msg.index == e.msg.index
        ensures stream[j].msg.command == e.msg.command
      {
        assert !Conflicts(mon.logs[stream[j].server], e.msg);
      }
      if e.msg.index > 1 {
        var j :| 0 <= j < |stream| && Says(stream[j], e.server, e.msg.index - 1);
        assert Says((stream + [e])[j], e.server, e.msg.index - 1);
      }
    }
    if GoodAt(stream + [e], |stream|) && e.msg.valid {
      forall j | 0 <= j < n ensures !Conflicts(mon.logs[j], e.msg) {
        if e.msg.index in mon.logs[j] {
          var k :| 0 <= k < |stream| && Says(stream[k], j, e.msg.index);
          assert (stream + [e])[k] == stream[k];
        }
      }
      if e.msg.index > 1 {
        var j :| 0 <= j < |stream| && Says((stream + [e])[j], e.server, e.msg.index - 1);
        assert (stream + [e])[j] == stream[j];
      }
    }
  }

  lemma GoodPrefix(stream: seq<Event>, e: Event)
    ensures Good(stream + [e]) <==> Good(stream) && GoodAt(stream + [e], |stream|)
  {
    var s := stream + [e];
    forall k | 0 <= k < |stream| ensures GoodAt(stream, k) <==> GoodAt(s, k) {
      assert s[k] == stream[k];
      assert forall j :: 0 <= j < k ==> s[j] == stream[j];
    }
  }

  /** A stream is accepted if and only if messages with one index carry one command, and every
      index above 1 follows its predecessor on its server. */
  lemma {:induction false} AcceptsIffGood(n: nat, stream: seq<Event>)
    requires forall k :: 0 <= k < |stream| ==> stream[k].server < n
    ensures Exec(n, stream).Some? <==> Good(stream)
  {
    if stream != [] {
      var init := stream[..|stream| - 1];
      var e := stream[|stream| - 1];
      assert stream == init + [e];
      AcceptsIffGood(n, init);
      GoodPrefix(init, e);
      if Exec(n, init).Some? {
        AllowedIffGoodAt(n, init, e);
      }
    }
  }

  lemma {:induction false} ExecPrefix(n: nat, stream: seq<Event>, k: nat)
    requires k <= |stream| && Exec(n, stream[..k]).None?
    ensures Exec(n, stream).None?
    decreases |stream|
  {
    if k == |stream| {
      assert stream[..k] == stream;
    } else {
      var init := stream[..|stream| - 1];
      assert init[..k] == stream[..k];
      ExecPrefix(n, init, k);
    }
  }

  /** The logs after the first t messages of an accepted stream. */
  function LogsAt(n: nat, stream: seq<Event>, t: nat): (logs: seq<Log>)
    requires t <= |stream| && Exec(n, stream).Some?
    ensures |logs| == n
  {
    if Exec(n, stream[..t]).None? then seq(n, _ => map[]) else Exec(n, stream[..t]).value.logs
  }

  predicate Holds(log: Log, index: int, c: Command) {
    index in log && log[index] == c
  }

  lemma PrefixAccepted(n: nat, stream: seq<Event>, t: nat)
    requires t <= |stream| && Exec(n, stream).Some?
    ensures Exec(n, stream[..t]).Some?
  {
    if Exec(n, stream[..t]).None? {
      ExecPrefix(n, stream, t);
    }
  }

  /** The logs in terms of the messages: after t of them server i's log has an entry at index
      exactly if one of them was for it, and the entry is its command. */
  lemma LogsAre(n: nat, stream: seq<Event>, t: nat, i: nat, index: int)
    requires t <= |stream| && Exec(n, stream).Some? && i < n
    ensures index in LogsAt(n, stream, t)[i] <==>
            exists k :: && 0 <= k < t && stream[k].msg.valid && stream[k].server == i && stream[k].msg.index == index
    ensures forall k :: 0 <= k < t && stream[k].msg.valid && stream[k].server == i && stream[k].msg.index == index ==>
                        index in LogsAt(n, stream, t)[i] && LogsAt(n, stream, t)[i][index] == stream[k].msg.command
  {
    PrefixAccepted(n, stream, t);
    ExecMirrors(n, stream[..t]);
    if index in LogsAt(n, stream, t)[i] {
      var k :| 0 <= k < t && Says(stream[..t][k], i, index);
      assert stream[k].server == i;
    }
    forall k | 0 <= k < t && stream[k].msg.valid && stream[k].server == i && stream[k].msg.index == index
      ensures index in LogsAt(n, stream, t)[i] && LogsAt(n, stream, t)[i][index] == stream[k].msg.command
    {
      assert stream[..t][k] == stream[k];
    }
  }

  lemma StepWritesOnce(n: nat, stream: seq<Event>, u: nat, i: nat, index: int)
    requires u < |stream| && Exec(n, stream).Some? && i < n
    requires index in LogsAt(n, stream, u)[i]
    ensures Holds(LogsAt(n, stream, u + 1)[i], index, LogsAt(n, stream, u)[i][index])
  {
    PrefixAccepted(n, stream, u);
    PrefixAccepted(n, stream, u + 1);
    assert stream[..u + 1][..u] == stream[..u];
    var mon := Exec(n, stream[..u]).value;
    assert stream[u].msg.valid ==> !Conflicts(mon.logs[i], stream[u].msg);
  }

  /** Accepted logs are write-once. */
  lemma {:induction false} WriteOnce(n: nat, stream: seq<Event>, t: nat, u: nat, i: nat, index: int)
    requires t <= u <= |stream| && Exec(n, stream).Some? && i < n
    requires index in LogsAt(n, stream, t)[i]
    ensures Holds(LogsAt(n, stream, u)[i], index, LogsAt(n, stream, t)[i][index])
    decreases u
  {
    if t < u {
      WriteOnce(n, stream, t, u - 1, i, index);
      StepWritesOnce(n, stream, u - 1, i, index);
    }
  }

  lemma AgreeAtEnd(n: nat, stream: seq<Event>, i: nat, j: nat, index: int)
    requires Exec(n, stream).Some? && i < n && j < n
    requires index in Exec(n, stream).value.logs[i] && index in Exec(n, stream).value.logs[j]
    ensures Exec(n, stream).value.logs[i][index] == Exec(n, stream).value.logs[j][index]
  {
    ExecMirrors(n, stream);
    var k :| 0 <= k < |stream| && Says(stream[k], i, index);
    var l :| 0 <= l < |stream| && Says(stream[l], j, index);
    ServersInRange(n, stream);
    AcceptsIffGood(n, stream);
    assert GoodAt(stream, k) && GoodAt(stream, l);
  }

  /** Accepted logs agree: across servers and across time, an index has one command. */
  lemma Agree(n: nat, stream: seq<Event>, t: nat, u: nat, i: nat, j: nat, index: int)
    requires t <= |stream| && u <= |stream| && Exec(n, stream).Some? && i < n && j < n
    requires index in LogsAt(n, stream, t)[i] && index in LogsAt(n, stream, u)[j]
    ensures LogsAt(n, stream, t)[i][index] == LogsAt(n, stream, u)[j][index]
  {
    var m := |stream|;
    WriteOnce(n, stream, t, m, i, index);
    WriteOnce(n, stream, u, m, j, index);
    assert stream[..m] == stream;
    AgreeAtEnd(n, stream, i, j, index);
  }

  lemma {:induction false} ServersInRange(n: nat, stream: seq<Event>)
    requires Exec(n, stream).Some?
    ensures forall k :: 0 <= k < |stream| ==> stream[k].server < n
  {
    if stream != [] {
      ServersInRange(n, stream[..|stream| - 1]);
    }
  }

  /** An accepted log has no gap above index 1, and maxIndex is the largest index so far. */
  lemma {:induction false} ClosedDownward(n: nat, stream: seq<Event>)
    requires Exec(n, stream).Some?
    ensures var mon := Exec(n, stream).value;
            && (forall i, x :: 0 <= i < n && x in mon.logs[i] && x > 1 ==> x - 1 in mon.logs[i])
            && mon.maxIndex >= 0
            && (forall i, x :: 0 <= i < n && x in mon.logs[i] ==> x <= mon.maxIndex)
            && (mon.maxIndex > 0 ==> exists i :: 0 <= i < n && mon.maxIndex in mon.logs[i])
  {
    if stream != [] {
      ClosedDownward(n, stream[..|stream| - 1]);
      var mon := Exec(n, stream[..|stream| - 1]).value;
      var mon' := Exec(n, stream).value;
      var e := stream[|stream| - 1];
      if mon'.maxIndex > 0 {
        if mon'.maxIndex == mon.maxIndex {
          var i :| 0 <= i < n && mon.maxIndex in mon.logs[i];
          assert mon'.maxIndex in mon'.logs[i];
        } else {
          assert mon'.maxIndex in mon'.logs[e.server];
        }
      }
    }
  }

  /** A log that holds index holds everything from 1 up to it. */
  lemma {:induction false} HoldsAllBelow(n: nat, stream: seq<Event>, i: nat, index: int, x: int)
    requires Exec(n, stream).Some? && i < n
    requires index in Exec(n, stream).value.logs[i] && 1 <= x <= index
    ensures x in Exec(n, stream).value.logs[i]
    decreases index - x
  {
    if x < index {
      HoldsAllBelow(n, stream, i, index, x + 1);
      ClosedDownward(n, stream);
    }
  }

  // ---------- nCommitted and one ----------

  /** How many of the first upto logs have an entry at index. */
  function Count(logs: seq<Log>, index: int, upto: nat): nat
    requires upto <= |logs|
  {
    if upto == 0 then 0 else
    Count(logs, index, upto - 1) + (if index in logs[upto - 1] then 1 else 0)
  }

  function CountHolding(logs: seq<Log>, index: int, c: Command, upto: nat): nat
    requires upto <= |logs|
  {
    if upto == 0 then 0 else
    CountHolding(logs, index, c, upto - 1) + (if Holds(logs[upto - 1], index, c) then 1 else 0)
  }

  /** The counts as sets of servers. */
  lemma {:induction false} CountIs(logs: seq<Log>, index: int, upto: nat) returns (who: set<nat>)
    requires upto <= |logs|
    ensures forall i: nat :: i in who <==> i < upto && index in logs[i]
    ensures |who| == Count(logs, index, upto)
  {
    if upto == 0 {
      who := {};
    } else {
      who := CountIs(logs, index, upto - 1);
      if index in logs[upto - 1] {
        who := who + {upto - 1};
      }
    }
  }

  lemma {:induction false} CountHoldingIs(logs: seq<Log>, index: int, c: Command, upto: nat) returns (who: set<nat>)
    requires upto <= |logs|
    ensures forall i: nat :: i in who <==> i < upto && index in logs[i] && logs[i][index] == c
    ensures |who| == CountHolding(logs, index, c, upto)
  {
    if upto == 0 {
      who := {};
    } else {
      who := CountHoldingIs(logs, index, c, upto - 1);
      if index in logs[upto - 1] && logs[upto - 1][index] == c {
        who := who + {upto - 1};
      }
    }
  }

  /** Server i's log is read after at[i] messages, all between t0 and t1: appliers go on while
      nCommitted is between two servers. */
  ghost predicate ReadTimes(at: seq<nat>, n: nat, t0: nat, t1: nat) {
    |at| == n && t0 <= t1 && forall i :: 0 <= i < n ==> t0 <= at[i] <= t1
  }

  /** How many of the first upto reads found an entry. */
  function Found(n: nat, stream: seq<Event>, at: seq<nat>, index: int, upto: nat): nat
    requires Exec(n, stream).Some? && |at| == n && upto <= n
    requires forall i :: 0 <= i < n ==> at[i] <= |stream|
  {
    if upto == 0 then 0 else
    Found(n, stream, at, index, upto - 1) +
    (if index in LogsAt(n, stream, at[upto - 1])[upto - 1] then 1 else 0)
  }

  /** The number of reads that found an entry lies between the counts at the two ends. */
  lemma {:induction false} FoundAtLeast(n: nat, stream: seq<Event>, at: seq<nat>, index: int,
                                        t0: nat, t1: nat, upto: nat)
    requires Exec(n, stream).Some? && ReadTimes(at, n, t0, t1) && t1 <= |stream| && upto <= n
    ensures Count(LogsAt(n, stream, t0), index, upto) <= Found(n, stream, at, index, upto)
  {
    if upto > 0 {
      FoundAtLeast(n, stream, at, index, t0, t1, upto - 1);
      if index in LogsAt(n, stream, t0)[upto - 1] {
        WriteOnce(n, stream, t0, at[upto - 1], upto - 1, index);
      }
    }
  }

  lemma {:induction false} FoundAtMost(n: nat, stream: seq<Event>, at: seq<nat>, index: int,
                                       t0: nat, t1: nat, upto: nat)
    requires Exec(n, stream).Some? && ReadTimes(at, n, t0, t1) && t1 <= |stream| && upto <= n
    ensures Found(n, stream, at, index, upto) <= Count(LogsAt(n, stream, t1), index, upto)
  {
    if upto > 0 {
      FoundAtMost(n, stream, at, index, t0, t1, upto - 1);
      if index in LogsAt(n, stream, at[upto - 1])[upto - 1] {
        WriteOnce(n, stream, at[upto - 1], t1, upto - 1, index);
      }
    }
  }

  /** When one read found c, every log that has the index at the end holds c there. */
  lemma {:induction false} AllHold(n: nat, stream: seq<Event>, t: nat, i: nat, t1: nat,
                                   index: int, c: Command, upto: nat)
    requires Exec(n, stream).Some? && t <= |stream| && t1 <= |stream| && i < n && upto <= n
    requires Holds(LogsAt(n, stream, t)[i], index, c)
    ensures forall j :: 0 <= j < upto && index in LogsAt(n, stream, t1)[j] ==> Holds(LogsAt(n, stream, t1)[j], index, c)
    ensures CountHolding(LogsAt(n, stream, t1), index, c, upto) == Count(LogsAt(n, stream, t1), index, upto)
  {
    if upto > 0 {
      AllHold(n, stream, t, i, t1, index, c, upto - 1);
      if index in LogsAt(n, stream, t1)[upto - 1] {
        Agree(n, stream, t, t1, i, upto - 1, index);
      }
    }
  }

  // checkLogs records a message that it finds wrong, and applier calls log.Fatalf only after
  // releasing cfg.mu; until the process is gone, logs can be read that were never accepted.

  /** The monitor when nothing stops the process. */
  function Raw(n: nat, stream: seq<Event>): (mon: Monitor)
    ensures |mon.logs| == n
  {
    if stream == [] then Init(n) else
    var mon := Raw(n, stream[..|stream| - 1]);
    var e := stream[|stream| - 1];
    if e.server < n && e.msg.valid then Recorded(mon, e.server, e.msg) else mon
  }

  lemma {:induction false} RawIsExec(n: nat, stream: seq<Event>)
    requires Exec(n, stream).Some?
    ensures Raw(n, stream) == Exec(n, stream).value
  {
    if stream != [] {
      RawIsExec(n, stream[..|stream| - 1]);
    }
  }

  /** What nCommitted reads of each server. */
  function Reads(n: nat, stream: seq<Event>, at: seq<nat>): (logs: seq<Log>)
    requires |at| == n && forall i :: 0 <= i < n ==> at[i] <= |stream|
    ensures |logs| == n
  {
    seq(n, i requires 0 <= i < n => Raw(n, stream[..at[i]]).logs[i])
  }

  /** Two of the logs have different commands at index. */
  ghost predicate Disagree(logs: seq<Log>, index: int) {
    exists i, j :: 0 <= i < j < |logs| && Differ(logs[i], logs[j], index)
  }

  predicate Differ(a: Log, b: Log, index: int) {
    index in a && index in b && a[index] != b[index]
  }

  lemma AcceptedReads(n: nat, stream: seq<Event>, at: seq<nat>, i: nat)
    requires Exec(n, stream).Some? && |at| == n && i < n && forall i :: 0 <= i < n ==> at[i] <= |stream|
    ensures Reads(n, stream, at)[i] == LogsAt(n, stream, at[i])[i]
  {
    PrefixAccepted(n, stream, at[i]);
    RawIsExec(n, stream[..at[i]]);
  }

  /** Accepted logs never disagree, whenever each of them is read. */
  lemma ReadsAgree(n: nat, stream: seq<Event>, at: seq<nat>, index: int)
    requires Exec(n, stream).Some? && |at| == n && forall i :: 0 <= i < n ==> at[i] <= |stream|
    ensures !Disagree(Reads(n, stream, at), index)
  {
    var seen := Reads(n, stream, at);
    forall i, j | 0 <= i < j < n ensures !Differ(seen[i], seen[j], index) {
      AcceptedReads(n, stream, at, i);
      AcceptedReads(n, stream, at, j);
      if index in seen[i] && index in seen[j] {
        Agree(n, stream, at[i], at[j], i, j, index);
      }
    }
  }

  lemma DisagreeOnlyAfterError(n: nat, stream: seq<Event>, at: seq<nat>, index: int, t1: nat)
    requires |at| == n && t1 <= |stream| && forall i :: 0 <= i < n ==> at[i] <= t1
    requires Disagree(Reads(n, stream, at), index)
    ensures Exec(n, stream[..t1]).None?
  {
    if Exec(n, stream[..t1]).Some? {
      forall i | 0 <= i < n ensures Reads(n, stream[..t1], at)[i] == Reads(n, stream, at)[i] {
        assert stream[..t1][..at[i]] == stream[..at[i]];
      }
      assert Reads(n, stream[..t1], at) == Reads(n, stream, at);
      ReadsAgree(n, stream[..t1], at, index);
    }
  }

  /** It can happen: two servers report different commands at index 1, the second message is
      rejected, and both logs are read before the process is gone. */
  lemma DisagreePossible()
    ensures var stream := [Event(0, ApplyMsg(true, 7, 1)), Event(1, ApplyMsg(true, 8, 1))];
            && Exec(2, stream[..1]).Some? && Exec(2, stream).None?
            && Disagree(Reads(2, stream, [2, 2]), 1)
  {
    var stream := [Event(0, ApplyMsg(true, 7, 1)), Event(1, ApplyMsg(true, 8, 1))];
    assert stream[..2] == stream && stream[..1][..0] == [] && stream[..2][..1] == stream[..1];
    assert stream[..1][0] == stream[0];
    assert Init(2) == Monitor([map[], map[]], 0) && Raw(2, []) == Init(2);
    var one := Raw(2, stream[..1]);
    assert one.logs[0] == map[1 := 7] && one.logs[1] == map[];
    RawIsExec(2, stream[..1]);
    assert Conflicts(one.logs[0], stream[1].msg);
    var seen := Reads(2, stream, [2, 2]);
    assert Differ(seen[0], seen[1], 1);
  }

  /** The loop of nCommitted, over what it reads of each server. */
  method Tally(logs: seq<Log>, index: int) returns (count: nat, cmd: Option<Command>, fatal: bool)
    ensures fatal <==> Disagree(logs, index)
    ensures fatal <==>
            exists i, j :: && 0 <= i < j < |logs| && index in logs[i] && index in logs[j]
                           && logs[i][index] != logs[j][index]
    ensures count > 0 <==> cmd.Some?
    ensures cmd.Some? ==> exists i :: 0 <= i < |logs| && Holds(logs[i], index, cmd.value)
    ensures !fatal ==> count == Count(logs, index, |logs|)
    ensures !fatal && cmd.Some? ==> forall i :: 0 <= i < |logs| && index in logs[i] ==> logs[i][index] == cmd.value
  {
    count, cmd, fatal := 0, None, false;
    ghost var first := 0;
    for i := 0 to |logs|
      invariant count == Count(logs, index, i)
      invariant count > 0 <==> cmd.Some?
      invariant cmd.Some? ==> first < i && Holds(logs[first], index, cmd.value)
      invariant forall j :: 0 <= j < i && index in logs[j] ==> cmd == Some(logs[j][index])
    {
      if index in logs[i] {
        var cmd1 := logs[i][index];
        if count > 0 && cmd != Some(cmd1) {
          assert Differ(logs[first], logs[i], index);
          return count, cmd, true;
        }
        count := count + 1;
        first := i;
        cmd := Some(cmd1);
      }
    }
  }

  lemma {:induction false} FoundIsCount(n: nat, stream: seq<Event>, at: seq<nat>, index: int, logs: seq<Log>, upto: nat)
    requires Exec(n, stream).Some? && |at| == |logs| == n && upto <= n && forall i :: 0 <= i < n ==> at[i] <= |stream|
    requires forall i :: 0 <= i < n ==> logs[i] == LogsAt(n, stream, at[i])[i]
    ensures Found(n, stream, at, index, upto) == Count(logs, index, upto)
  {
    if upto > 0 {
      FoundIsCount(n, stream, at, index, logs, upto - 1);
    }
  }

  /** Counts correctly although the logs move under it: at least the count when it began, at
      most the count when it ended, always the one agreed command. It takes its fatal branch
      exactly when it reads two commands at one index, and that is possible only after a message
      has been rejected. */
  method NCommitted(n: nat, stream: seq<Event>, at: seq<nat>, index: int, ghost t0: nat, ghost t1: nat)
    returns (count: nat, cmd: Option<Command>, fatal: bool)
    requires ReadTimes(at, n, t0, t1) && t1 <= |stream|
    ensures fatal <==> Disagree(Reads(n, stream, at), index)
    ensures fatal ==> Exec(n, stream[..t1]).None?
    ensures count > 0 <==> cmd.Some?
    ensures !fatal ==> count == Count(Reads(n, stream, at), index, n)
    ensures !fatal && cmd.Some? ==> forall i :: 0 <= i < n && index in Reads(n, stream, at)[i] ==>
                                      Reads(n, stream, at)[i][index] == cmd.value
    ensures Exec(n, stream).Some? ==>
      && !fatal && count == Found(n, stream, at, index, n)
      && Count(LogsAt(n, stream, t0), index, n) <= count <= Count(LogsAt(n, stream, t1), index, n)
    ensures Exec(n, stream).Some? && cmd.Some? ==>
      && count <= CountHolding(LogsAt(n, stream, t1), index, cmd.value, n)
      && (exists i :: 0 <= i < n && Holds(LogsAt(n, stream, at[i])[i], index, cmd.value))
      && forall i :: 0 <= i < n && index in LogsAt(n, stream, t1)[i] ==>
           Holds(LogsAt(n, stream, t1)[i], index, cmd.value)
  {
    count, cmd, fatal := Tally(Reads(n, stream, at), index);
    if fatal {
      DisagreeOnlyAfterError(n, stream, at, index, t1);
    }
    if Exec(n, stream).Some? {
      ReadsAgree(n, stream, at, index);
      forall i | 0 <= i < n ensures Reads(n, stream, at)[i] == LogsAt(n, stream, at[i])[i] {
        AcceptedReads(n, stream, at, i);
      }
      FoundIsCount(n, stream, at, index, Reads(n, stream, at), n);
      ghost var first: nat := 0;
      if cmd.Some? {
        first :| first < n && Holds(Reads(n, stream, at)[first], index, cmd.value);
      }
      AcceptedCount(n, stream, at, index, t0, t1, first, cmd);
    }
  }

  lemma AcceptedCount(n: nat, stream: seq<Event>, at: seq<nat>, index: int, t0: nat, t1: nat,
                      first: nat, cmd: Option<Command>)
    requires Exec(n, stream).Some? && ReadTimes(at, n, t0, t1) && t1 <= |stream|
    requires cmd.Some? ==> first < n && Holds(Reads(n, stream, at)[first], index, cmd.value)
    ensures Count(LogsAt(n, stream, t0), index, n) <= Found(n, stream, at, index, n)
    ensures Found(n, stream, at, index, n) <= Count(LogsAt(n, stream, t1), index, n)
    ensures cmd.Some? ==>
      && CountHolding(LogsAt(n, stream, t1), index, cmd.value, n) == Count(LogsAt(n, stream, t1), index, n)
      && Holds(LogsAt(n, stream, at[first])[first], index, cmd.value)
      && forall i :: 0 <= i < n && index in LogsAt(n, stream, t1)[i] ==>
           Holds(LogsAt(n, stream, t1)[i], index, cmd.value)
  {
    FoundAtLeast(n, stream, at, index, t0, t1, n);
    FoundAtMost(n, stream, at, index, t0, t1, n);
    if cmd.Some? {
      AcceptedReads(n, stream, at, first);
      AllHold(n, stream, at[first], first, t1, index, cmd.value, n);
    }
  }

  lemma {:induction false} HoldingGrows(n: nat, stream: seq<Event>, t: nat, u: nat, index: int, c: Command, upto: nat)
    requires t <= u <= |stream| && Exec(n, stream).Some? && upto <= n
    ensures CountHolding(LogsAt(n, stream, t), index, c, upto) <= CountHolding(LogsAt(n, stream, u), index, c, upto)
  {
    if upto > 0 {
      HoldingGrows(n, stream, t, u, index, c, upto - 1);
      if Holds(LogsAt(n, stream, t)[upto - 1], index, c) {
        WriteOnce(n, stream, t, u, upto - 1, index);
      }
    }
  }

  /** One call of nCommitted made by one: the server read times it happens to get. */
  type Poll = seq<nat>

  /** One attempt: what Start returned (None: no server claimed to be leader), and the polls
      made before giving up on it. */
  datatype Attempt = Attempt(index: Option<int>, polls: seq<Poll>)

  ghost predicate PollsIn(attempts: seq<Attempt>, n: nat, stream: seq<Event>) {
    forall a, p :: 0 <= a < |attempts| && 0 <= p < |attempts[a].polls| ==>
      ReadTimes(attempts[a].polls[p], n, 0, |stream|)
  }

  /** At least expected logs, and at least one, hold cmd at index now and ever after. */
  ghost predicate Agreed(n: nat, stream: seq<Event>, index: int, cmd: Command, expected: nat, now: nat)
    requires now <= |stream| && Exec(n, stream).Some?
  {
    forall u :: now <= u <= |stream| ==>
      var held := CountHolding(LogsAt(n, stream, u), index, cmd, n);
      held > 0 && held >= expected
  }

  ghost function LastRead(at: seq<nat>): (t: nat)
    ensures forall i :: 0 <= i < |at| ==> at[i] <= t
    ensures t == 0 || t in at
  {
    if at == [] then 0 else
    var t := LastRead(at[..|at| - 1]);
    if at[|at| - 1] > t then at[|at| - 1] else t
  }

  /** A poll that lets one return: enough logs answered, with our command. */
  ghost predicate Reached(n: nat, stream: seq<Event>, at: Poll, index: int, cmd: Command, expected: nat)
    requires Exec(n, stream).Some? && ReadTimes(at, n, 0, |stream|)
  {
    && Found(n, stream, at, index, n) > 0
    && Found(n, stream, at, index, n) >= expected
    && exists i :: 0 <= i < n && Holds(LogsAt(n, stream, at[i])[i], index, cmd)
  }

  ghost predicate Wins(n: nat, stream: seq<Event>, attempt: Attempt, cmd: Command, expected: nat)
    requires Exec(n, stream).Some?
  {
    && attempt.index.Some?
    && exists p :: 0 <= p < |attempt.polls| && ReadTimes(attempt.polls[p], n, 0, |stream|) &&
                   Reached(n, stream, attempt.polls[p], attempt.index.value, cmd, expected)
  }

  lemma FoundIs(n: nat, stream: seq<Event>, at: seq<nat>, index: int) returns (who: set<nat>)
    requires Exec(n, stream).Some? && |at| == n
    requires forall i :: 0 <= i < n ==> at[i] <= |stream|
    ensures forall i: nat :: i in who <==> i < n && index in LogsAt(n, stream, at[i])[i]
    ensures |who| == Found(n, stream, at, index, n)
  {
    var seen := Reads(n, stream, at);
    forall i | 0 <= i < n ensures seen[i] == LogsAt(n, stream, at[i])[i] {
      AcceptedReads(n, stream, at, i);
    }
    FoundIsCount(n, stream, at, index, seen, n);
    who := CountIs(seen, index, n);
  }

  /** What agreement is, in terms of the messages: at every moment u from then on, at least
      expected servers, and at least one, have been sent cmd at index. */
  lemma AgreedMeans(n: nat, stream: seq<Event>, index: int, cmd: Command, expected: nat, now: nat, u: nat)
    returns (who: set<nat>)
    requires now <= u <= |stream| && Exec(n, stream).Some? && Agreed(n, stream, index, cmd, expected, now)
    ensures forall i: nat :: i in who <==>
              i < n && exists k :: && 0 <= k < u && stream[k].msg.valid && stream[k].server == i
                                   && stream[k].msg.index == index && stream[k].msg.command == cmd
    ensures |who| > 0 && |who| >= expected
  {
    who := CountHoldingIs(LogsAt(n, stream, u), index, cmd, n);
    forall i: nat | i < n
      ensures (index in LogsAt(n, stream, u)[i] && LogsAt(n, stream, u)[i][index] == cmd) <==>
              exists k :: && 0 <= k < u && stream[k].msg.valid && stream[k].server == i
                          && stream[k].msg.index == index && stream[k].msg.command == cmd
    {
      LogsAre(n, stream, u, i, index);
    }
  }

  /** What a poll must see: who are the servers that had been sent index when they were read. */
  lemma ReachedMeans(n: nat, stream: seq<Event>, at: Poll, index: int, cmd: Command, expected: nat)
    returns (who: set<nat>)
    requires Exec(n, stream).Some? && ReadTimes(at, n, 0, |stream|)
    ensures forall i: nat :: i in who <==>
              i < n && exists k :: && 0 <= k < at[i] && stream[k].msg.valid && stream[k].server == i
                                   && stream[k].msg.index == index
    ensures Reached(n, stream, at, index, cmd, expected) <==>
              && |who| > 0 && |who| >= expected
              && exists i :: 0 <= i < n && HasBeenSent(stream, at[i], i, index, cmd)
  {
    who := FoundIs(n, stream, at, index);
    forall i: nat | i < n
      ensures index in LogsAt(n, stream, at[i])[i] <==>
              exists k :: && 0 <= k < at[i] && stream[k].msg.valid && stream[k].server == i
                          && stream[k].msg.index == index
      ensures Holds(LogsAt(n, stream, at[i])[i], index, cmd) <==> HasBeenSent(stream, at[i], i, index, cmd)
    {
      LogsAre(n, stream, at[i], i, index);
      if Holds(LogsAt(n, stream, at[i])[i], index, cmd) {
        var k :| && 0 <= k < at[i] && stream[k].msg.valid && stream[k].server == i && stream[k].msg.index == index;
        assert stream[k].msg.command == cmd;
      }
    }
  }

  ghost predicate HasBeenSent(stream: seq<Event>, t: nat, i: nat, index: int, cmd: Command)
    requires t <= |stream|
  {
    exists k :: && 0 <= k < t && stream[k].msg.valid && stream[k].server == i
                && stream[k].msg.index == index && stream[k].msg.command == cmd
  }

  /** Without retry, the first claimed leadership is the only one tried. */
  predicate Tried(attempts: seq<Attempt>, a: nat, retry: bool)
    requires a <= |attempts|
  {
    retry || forall b :: 0 <= b < a ==> attempts[b].index.None?
  }

  /** One poll of one. */
  method PollOnce(n: nat, stream: seq<Event>, at: Poll, index: int, cmd: Command, expected: nat)
    returns (agreed: bool)
    requires Exec(n, stream).Some? && ReadTimes(at, n, 0, |stream|)
    ensures agreed == Reached(n, stream, at, index, cmd, expected)
    ensures agreed ==> Agreed(n, stream, index, cmd, expected, LastRead(at))
  {
    ghost var t1 := LastRead(at);
    var nd, cmd1, _ := NCommitted(n, stream, at, index, 0, t1);
    agreed := nd > 0 && nd >= expected && cmd1 == Some(cmd);
    forall i, j | 0 <= i < n && 0 <= j < n && Holds(LogsAt(n, stream, at[i])[i], index, cmd) &&
                  cmd1.Some? && Holds(LogsAt(n, stream, at[j])[j], index, cmd1.value)
      ensures cmd1 == Some(cmd)
    {
      Agree(n, stream, at[i], at[j], i, j, index);
    }
    if agreed {
      forall u | t1 <= u <= |stream|
        ensures CountHolding(LogsAt(n, stream, u), index, cmd, n) >= nd
      {
        HoldingGrows(n, stream, t1, u, index, cmd, n);
      }
    }
  }

  /** The polls of one attempt, up to the first that reaches agreement. */
  method PollAll(n: nat, stream: seq<Event>, attempt: Attempt, cmd: Command, expected: nat)
    returns (agreed: bool, ghost done: nat)
    requires Exec(n, stream).Some? && attempt.index.Some?
    requires forall p :: 0 <= p < |attempt.polls| ==> ReadTimes(attempt.polls[p], n, 0, |stream|)
    ensures agreed == Wins(n, stream, attempt, cmd, expected)
    ensures done <= |stream|
    ensures agreed ==> Agreed(n, stream, attempt.index.value, cmd, expected, done)
  {
    done := 0;
    for p := 0 to |attempt.polls|
      invariant forall q :: 0 <= q < p ==> !Reached(n, stream, attempt.polls[q], attempt.index.value, cmd, expected)
    {
      agreed := PollOnce(n, stream, attempt.polls[p], attempt.index.value, cmd, expected);
      if agreed {
        return true, LastRead(attempt.polls[p]);
      }
    }
    agreed, done := false, 0;
  }

  /** one with its timeouts replaced by finitely many attempts and polls; None is t.Fatalf.
      It returns an index exactly when some poll of a tried attempt reached agreement, and
      then that agreement holds at the moment of the poll's last read and ever after. */
  method One(n: nat, stream: seq<Event>, cmd: Command, expected: nat, retry: bool, attempts: seq<Attempt>)
    returns (r: Option<int>, ghost done: nat)
    requires Exec(n, stream).Some? && PollsIn(attempts, n, stream)
    ensures done <= |stream|
    ensures r.Some? ==> Agreed(n, stream, r.value, cmd, expected, done)
    ensures r.Some? ==>
              exists a, p ::
                && 0 <= a < |attempts| && attempts[a].index == r && 0 <= p < |attempts[a].polls|
                && (retry || forall b :: 0 <= b < a ==> attempts[b].index.None?)
                && Reached(n, stream, attempts[a].polls[p], r.value, cmd, expected)
    ensures r.None? ==>
              forall a, p ::
                && 0 <= a < |attempts| && attempts[a].index.Some? && 0 <= p < |attempts[a].polls|
                && (retry || forall b :: 0 <= b < a ==> attempts[b].index.None?)
                ==> !Reached(n, stream, attempts[a].polls[p], attempts[a].index.value, cmd, expected)
  {
    for a := 0 to |attempts|
      invariant Tried(attempts, a, retry)
      invariant forall b :: 0 <= b < a ==> !Wins(n, stream, attempts[b], cmd, expected)
    {
      if attempts[a].index.Some? {
        var agreed, t := PollAll(n, stream, attempts[a], cmd, expected);
        if agreed {
          return attempts[a].index, t;
        }
        if !retry {
          return None, 0;
        }
      }
    }
    return None, 0;
  }
}
