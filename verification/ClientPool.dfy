// getNextUserClient and getNextVideoClient of lab1/video_rec_service/server_lib/server_lib.go:
// round-robin picks from a pool of clients, each pick under a lock.
module ClientPool {
  /** idx is userServiceIdx or videoServiceIdx; clients are numbered from 0. */
  class Pool {
    const size: nat
    var idx: nat

    ghost predicate Valid()
      reads this
    {
      idx < size
    }

    constructor (size: nat)
      requires size > 0
      ensures Valid() && this.size == size && idx == 0
    {
      this.size := size;
      idx := 0;
    }

    method GetNext() returns (client: nat)
      requires Valid()
      modifies this
      ensures Valid()
      ensures client == old(idx) && idx == (old(idx) + 1) % size
    {
      client := idx;
      idx := (idx + 1) % size;
    }

    /** k picks in a row, by any callers. */
    method Picks(k: nat) returns (picked: seq<nat>)
      requires Valid()
      modifies this
      ensures Valid() && idx == (old(idx) + k) % size
      ensures picked == PickSeq(old(idx), k, size)
      ensures |picked| == k && forall i :: 0 <= i < k ==> picked[i] == (old(idx) + i) % size
    {
      picked := [];
      ghost var start := idx;
      NextPick(start, 0, size);
      for i := 0 to k
        invariant Valid() && picked == PickSeq(start, i, size)
        invariant idx == (start + i) % size
        invariant |picked| == i && forall j :: 0 <= j < i ==> picked[j] == (start + j) % size
      {
        var c := GetNext();
        picked := picked + [c];
        NextPick(start, i, size);
      }
    }
  }

  lemma NextPick(start: nat, i: nat, size: nat)
    requires start < size
    ensures start % size == start
    ensures ((start + i) % size + 1) % size == (start + i + 1) % size
  {
    Mod(0, start, size);
    NextMod(start + i, size);
  }

  lemma NextMod(x: nat, size: nat)
    requires size > 0
    ensures (x % size + 1) % size == (x + 1) % size
  {
    var q, r := x / size, x % size;
    assert x == size * q + r;
    if r + 1 == size {
      TimesNext(size, q);
      Mod(q + 1, 0, size);
      Mod(1, 0, size);
    } else {
      Mod(q, r + 1, size);
      Mod(0, r + 1, size);
    }
  }

  lemma TimesNext(size: nat, q: nat)
    ensures size * (q + 1) == size * q + size
  {
  }

  lemma TimesGap(size: nat, a: nat, b: nat)
    requires a < b
    ensures size * a + size <= size * b
  {
    assert size * b == size * a + size * (b - a);
    assert size * (b - a) == size * (b - a - 1) + size;
  }

  /** Division with remainder is unique. */
  lemma Mod(q: nat, r: nat, size: nat)
    requires r < size
    ensures (size * q + r) % size == r && (size * q + r) / size == q
  {
    var x := size * q + r;
    var p := x / size;
    assert x == size * p + x % size;
    if p < q {
      TimesGap(size, p, q);
    } else if p > q {
      TimesGap(size, q, p);
    }
  }

  function PickSeq(start: nat, k: nat, size: nat): seq<nat>
    requires size > 0
  {
    if k == 0 then [] else PickSeq(start, k - 1, size) + [(start + k - 1) % size]
  }

  function Count(s: seq<nat>, c: nat): nat {
    if s == [] then 0 else Count(s[..|s| - 1], c) + (if s[|s| - 1] == c then 1 else 0)
  }

  /** How far client c is behind start in the round. */
  function Distance(start: nat, c: nat, size: nat): nat
    requires start < size && c < size
  {
    if c >= start then c - start else c + size - start
  }

  /** Client c is picked at numbers Distance, Distance + size, Distance + 2 * size, ... */
  lemma PickedWhen(start: nat, c: nat, size: nat, i: nat)
    requires start < size && c < size
    ensures (start + i) % size == c <==> i % size == Distance(start, c, size)
  {
    var q, r := i / size, i % size;
    assert i == size * q + r;
    if start + r < size {
      assert start + i == size * q + (start + r);
      Mod(q, start + r, size);
    } else {
      assert start + i == size * (q + 1) + (start + r - size);
      Mod(q + 1, start + r - size, size);
    }
  }

  /** Quotient and remainder of k, from those of k - 1. */
  lemma DivStep(k: nat, size: nat)
    requires size > 0 && k > 0
    ensures if (k - 1) % size + 1 < size then k / size == (k - 1) / size && k % size == (k - 1) % size + 1
            else k / size == (k - 1) / size + 1 && k % size == 0
  {
    var q, r := (k - 1) / size, (k - 1) % size;
    assert k - 1 == size * q + r;
    if r + 1 < size {
      Mod(q, r + 1, size);
    } else {
      assert size * (q + 1) == size * q + size;
      Mod(q + 1, 0, size);
    }
  }

  lemma {:induction false} CountIs(start: nat, k: nat, size: nat, c: nat)
    requires start < size && c < size
    ensures Count(PickSeq(start, k, size), c) ==
            k / size + (if k % size > Distance(start, c, size) then 1 else 0)
  {
    if k == 0 {
      Mod(0, 0, size);
    } else {
      CountIs(start, k - 1, size, c);
      var s := PickSeq(start, k, size);
      assert s[..|s| - 1] == PickSeq(start, k - 1, size);
      PickedWhen(start, c, size, k - 1);
      DivStep(k, size);
    }
  }

  /** Over any k consecutive picks each of the clients is chosen k / size times, rounded down
      or up. */
  lemma Fair(start: nat, k: nat, size: nat, c: nat)
    requires start < size && c < size
    ensures var n := Count(PickSeq(start, k, size), c);
            n == k / size || (n == k / size + 1 && k % size != 0)
  {
    CountIs(start, k, size, c);
  }

  lemma {:induction false} CountPicks(start: nat, k: nat, size: nat, c: nat) returns (when: set<nat>)
    requires size > 0
    ensures forall i :: i in when <==> 0 <= i < k && (start + i) % size == c
    ensures |when| == Count(PickSeq(start, k, size), c)
  {
    if k == 0 {
      when := {};
    } else {
      when := CountPicks(start, k - 1, size, c);
      var s := PickSeq(start, k, size);
      assert s[..|s| - 1] == PickSeq(start, k - 1, size);
      if (start + k - 1) % size == c {
        when := when + {k - 1};
      }
    }
  }

  /** In terms of the picks themselves: when are those of k picks that choose c. */
  lemma FairShare(start: nat, k: nat, size: nat, c: nat) returns (when: set<nat>)
    requires start < size && c < size
    ensures forall i :: i in when <==> 0 <= i < k && (start + i) % size == c
    ensures |when| == k / size || (|when| == k / size + 1 && k % size != 0)
  {
    when := CountPicks(start, k, size, c);
    Fair(start, k, size, c);
  }
}
