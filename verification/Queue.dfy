// lab0/queue.go: a growing ring buffer, and the same queue behind a mutex.
module Queue {
  import opened Util

  function Pow2(k: nat): nat {
    if k == 0 then 1 else 2 * Pow2(k - 1)
  }

  /** The place of the k-th element from head in a ring of the given size. */
  function Slot(head: nat, k: nat, size: nat): (i: nat)
    requires head < size && k <= size
    ensures i < size
  {
    if head + k < size then head + k else head + k - size
  }

  /** Slot is addition modulo the size. */
  lemma SlotIsMod(head: nat, k: nat, size: nat)
    requires head < size && k <= size
    ensures Slot(head, k, size) == (head + k) % size
  {
    if head + k >= size {
      assert head + k == size * 1 + (head + k - size);
      assert (head + k) / size == 1;
    }
  }

  lemma SlotNext(head: nat, k: nat, size: nat)
    requires head < size && k < size
    ensures Slot(Slot(head, 1, size), k, size) == Slot(head, k + 1, size)
  {
  }

  /** zero is the zero value of T. pushes, copied and grown count calls of Push, elements moved
      by growing, and times grown. */
  class Queue<T> {
    const zero: T
    var head: nat
    var firstEmpty: nat
    var numElements: nat
    var buf: array<T>
    var size: nat
    ghost var pushes: nat
    ghost var copied: nat
    ghost var grown: nat

    ghost predicate Valid()
      reads this, buf
    {
      && size == buf.Length && size == 8 * Pow2(grown)
      && head < size && numElements <= size
      && firstEmpty == Slot(head, numElements, size)
    }

    /** Growing has moved size - 8 elements, fewer than two for every Push. */
    ghost predicate Amortised()
      reads this
    {
      && size >= 8 && copied == size - 8
      && numElements <= pushes
      && (size > 8 ==> size < 2 * pushes)
    }

    ghost function Contents(): (s: seq<T>)
      requires Valid()
      reads this, buf
    {
      seq(numElements, k requires 0 <= k < numElements && Valid() reads this, buf => buf[Slot(head, k, size)])
    }

    constructor (zero: T)
      ensures Valid() && Amortised() && Contents() == [] && this.zero == zero
      ensures fresh(buf) && pushes == copied == grown == 0
    {
      this.zero := zero;
      head, firstEmpty, numElements, size := 0, 0, 0, 8;
      buf := new T[8](_ => zero);
      pushes, copied, grown := 0, 0, 0;
    }

    /** Copies the ring, from head on, to the front of a buffer twice the size. */
    method Unroll() returns (tmp: array<T>)
      requires Valid() && numElements == size
      ensures fresh(tmp) && tmp.Length == size * 2
      ensures forall k :: 0 <= k < size ==> tmp[k] == Contents()[k]
    {
      tmp := new T[size * 2](_ => zero);
      var n := size - head;
      forall k | 0 <= k < n {
        tmp[k] := buf[head + k];
      }
      forall k | 0 <= k < firstEmpty {
        tmp[n + k] := buf[k];
      }
      assert firstEmpty == head;
      forall k | 0 <= k < size ensures tmp[k] == Contents()[k] {
        if k >= n {
          assert tmp[n + (k - n)] == buf[k - n];
        }
      }
    }

    method Grow()
      requires Valid() && Amortised() && numElements == size
      modifies this
      ensures Valid() && fresh(buf) && Contents() == old(Contents())
      ensures size == 2 * old(size) && head == 0 && firstEmpty == old(size)
      ensures numElements == old(numElements) && pushes == old(pushes)
      ensures copied == old(copied) + old(size) && grown == old(grown) + 1
    {
      var tmp := Unroll();
      head := 0;
      firstEmpty := size;
      buf := tmp;
      copied := copied + size;
      grown := grown + 1;
      size := size * 2;
    }

    method Push(t: T)
      requires Valid() && Amortised()
      modifies this, buf
      ensures Valid() && Amortised() && (buf == old(buf) || fresh(buf))
      ensures Contents() == old(Contents()) + [t]
      ensures pushes == old(pushes) + 1
      ensures copied == old(copied) + (if old(numElements) == old(size) then old(size) else 0)
    {
      if numElements < size {
        buf[firstEmpty] := t;
        SlotIsMod(firstEmpty, 1, size);
        firstEmpty := (firstEmpty + 1) % size;
      } else {
        Grow();
        buf[firstEmpty] := t;
        firstEmpty := firstEmpty + 1;
      }
      numElements := numElements + 1;
      pushes := pushes + 1;
    }

    method Pop() returns (t: T, ok: bool)
      requires Valid() && Amortised()
      modifies this
      ensures Valid() && Amortised() && buf == old(buf)
      ensures ok == (old(Contents()) != [])
      ensures ok ==> t == old(Contents())[0] && Contents() == old(Contents())[1..]
      ensures !ok ==> t == zero && Contents() == []
      ensures pushes == old(pushes) && copied == old(copied)
    {
      if numElements == 0 {
        return zero, false;
      }
      t := buf[head];
      ghost var before := Contents();
      SlotIsMod(head, 1, size);
      head := (head + 1) % size;
      numElements := numElements - 1;
      ok := true;
      assert head == Slot(old(head), 1, size) && before[0] == t;
      forall k | 0 <= k < numElements ensures Contents()[k] == before[k + 1] {
        SlotNext(old(head), k, size);
      }
      assert Contents() == before[1..];
    }
  }

  // ---------- whole runs ----------

  datatype Op<T> = PushOp(t: T) | PopOp

  /** What a run did: values pushed and values popped, in order, and every Pop's answer. */
  datatype History<T> = History(pushed: seq<T>, popped: seq<T>, answers: seq<Option<T>>)

  /** The run on a plain sequence: its history, and what is left in the queue. */
  function Fifo<T>(ops: seq<Op<T>>): (History<T>, seq<T>) {
    if ops == [] then (History([], [], []), []) else
    var (h, q) := Fifo(ops[..|ops| - 1]);
    match ops[|ops| - 1]
    case PushOp(t) => (h.(pushed := h.pushed + [t]), q + [t])
    case PopOp =>
      if q == [] then (h.(answers := h.answers + [None]), q)
      else (h.(popped := h.popped + [q[0]], answers := h.answers + [Some(q[0])]), q[1..])
  }

  /** The ring buffer answers every run as the plain sequence does, across wraparound and
      growth, and growing moves fewer than two elements per push. */
  method RunOps<T>(zero: T, ops: seq<Op<T>>) returns (q: Queue<T>, answers: seq<Option<T>>)
    ensures q.Valid() && q.Amortised()
    ensures answers == Fifo(ops).0.answers && q.Contents() == Fifo(ops).1
    ensures q.pushes == |Fifo(ops).0.pushed|
    ensures q.copied == q.size - 8 && (q.pushes > 0 ==> q.copied < 2 * q.pushes)
  {
    q := new Queue(zero);
    answers := [];
    for k := 0 to |ops|
      invariant q.Valid() && q.Amortised() && fresh(q) && fresh(q.buf)
      invariant answers == Fifo(ops[..k]).0.answers && q.Contents() == Fifo(ops[..k]).1
      invariant q.pushes == |Fifo(ops[..k]).0.pushed|
    {
      assert ops[..k + 1][..k] == ops[..k];
      match ops[k]
      case PushOp(t) => q.Push(t);
      case PopOp =>
        var t, ok := q.Pop();
        answers := answers + [if ok then Some(t) else None];
    }
    assert ops[..|ops|] == ops;
  }

  /** What came out, followed by what is still inside, is what went in. */
  lemma {:induction false} NothingLost<T>(ops: seq<Op<T>>)
    ensures var (h, q) := Fifo(ops); h.popped + q == h.pushed
  {
    if ops != [] {
      NothingLost(ops[..|ops| - 1]);
      var (h, q) := Fifo(ops[..|ops| - 1]);
      if ops[|ops| - 1].PopOp? && q != [] {
        assert q == [q[0]] + q[1..];
      }
    }
  }

  /** One more operation of a run: a push appends, and a pop answers with the first value pushed
      that has not been popped, or with nothing if all have been. */
  lemma PopsInOrder<T>(ops: seq<Op<T>>, op: Op<T>)
    ensures var h, h' := Fifo(ops).0, Fifo(ops + [op]).0;
            && |h.popped| <= |h.pushed| && h.popped == h.pushed[..|h.popped|]
            && h'.pushed == h.pushed + (if op.PushOp? then [op.t] else [])
            && (if op.PopOp? && |h.popped| < |h.pushed| then
                  var next := h.pushed[|h.popped|];
                  h'.popped == h.popped + [next] && h'.answers == h.answers + [Some(next)]
                else
                  h'.popped == h.popped && h'.answers == h.answers + (if op.PopOp? then [None] else []))
  {
    NothingLost(ops);
    assert (ops + [op])[..|ops|] == ops;
    var (h, q) := Fifo(ops);
    assert h.pushed[|h.popped|..] == q;
  }

  // ---------- ConcurrentQueue ----------

  // Under the mutex a concurrent run is some order of whole operations, in which each
  // goroutine's own operations keep their order.

  function FromProducer<T>(s: seq<T>, producer: T -> nat, p: nat): seq<T> {
    if s == [] then [] else
    FromProducer(s[..|s| - 1], producer, p) + (if producer(s[|s| - 1]) == p then [s[|s| - 1]] else [])
  }

  /** Those of s that come from p: at gives their places. */
  lemma {:induction false} FromProducerAt<T>(s: seq<T>, n: nat, producer: T -> nat, p: nat) returns (at: seq<nat>)
    requires n <= |s|
    ensures |at| == |FromProducer(s[..n], producer, p)|
    ensures forall m :: 0 <= m < |at| ==>
              at[m] < n && producer(s[at[m]]) == p && s[at[m]] == FromProducer(s[..n], producer, p)[m]
    ensures forall l, m :: 0 <= l < m < |at| ==> at[l] < at[m]
    ensures forall j :: 0 <= j < n && producer(s[j]) == p ==> j in at
  {
    if n == 0 {
      at := [];
    } else {
      at := FromProducerAt(s, n - 1, producer, p);
      assert s[..n][..n - 1] == s[..n - 1];
      if producer(s[n - 1]) == p {
        at := at + [n - 1];
        assert at[|at| - 1] == n - 1;
      }
    }
  }

  lemma {:induction false} FromProducerAppend<T>(s: seq<T>, t: seq<T>, producer: T -> nat, p: nat)
    ensures FromProducer(s + t, producer, p) == FromProducer(s, producer, p) + FromProducer(t, producer, p)
  {
    if t == [] {
      assert s + t == s;
    } else {
      FromProducerAppend(s, t[..|t| - 1], producer, p);
      assert (s + t)[..|s + t| - 1] == s + t[..|t| - 1];
    }
  }

  /** Each producer's items come out in the order in which it pushed them, none skipped. */
  lemma ProducerOrder<T>(ops: seq<Op<T>>, producer: T -> nat, p: nat)
    ensures FromProducer(Fifo(ops).0.popped, producer, p) <= FromProducer(Fifo(ops).0.pushed, producer, p)
  {
    NothingLost(ops);
    var (h, q) := Fifo(ops);
    FromProducerAppend(h.popped, q, producer, p);
  }
}
