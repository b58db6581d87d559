// lab0/merge_channels.go. A channel is the sequence of values it delivers before it closes;
// select and the scheduler are arbitrary choices.
module MergeChannels {
  import opened Util

  // ---------- order-preserving interleavings ----------

  predicate Interleaves<T(==)>(a: seq<T>, b: seq<T>, out: seq<T>) {
    if out == [] then a == [] && b == [] else
    var x := out[|out| - 1];
    var rest := out[..|out| - 1];
    || (a != [] && a[|a| - 1] == x && Interleaves(a[..|a| - 1], b, rest))
    || (b != [] && b[|b| - 1] == x && Interleaves(a, b[..|b| - 1], rest))
  }

  lemma MoreOfA<T>(a: seq<T>, b: seq<T>, out: seq<T>, x: T)
    requires Interleaves(a, b, out)
    ensures Interleaves(a + [x], b, out + [x])
  {
    assert (a + [x])[..|a|] == a && (out + [x])[..|out|] == out;
  }

  lemma MoreOfB<T>(a: seq<T>, b: seq<T>, out: seq<T>, x: T)
    requires Interleaves(a, b, out)
    ensures Interleaves(a, b + [x], out + [x])
  {
    assert (b + [x])[..|b|] == b && (out + [x])[..|out|] == out;
  }

  /** The elements of out whose place in mask is w. */
  function Pick<T>(out: seq<T>, mask: seq<bool>, w: bool): seq<T>
    requires |out| == |mask|
  {
    if out == [] then [] else
    Pick(out[..|out| - 1], mask[..|mask| - 1], w) + (if mask[|mask| - 1] == w then [out[|out| - 1]] else [])
  }

  ghost predicate Colours<T>(a: seq<T>, b: seq<T>, out: seq<T>, mask: seq<bool>) {
    |mask| == |out| && Pick(out, mask, true) == a && Pick(out, mask, false) == b
  }

  lemma {:induction false} ColourOf<T>(a: seq<T>, b: seq<T>, out: seq<T>) returns (mask: seq<bool>)
    requires Interleaves(a, b, out)
    ensures Colours(a, b, out, mask)
  {
    if out == [] {
      mask := [];
    } else {
      var n := |out| - 1;
      if a != [] && a[|a| - 1] == out[n] && Interleaves(a[..|a| - 1], b, out[..n]) {
        var m := ColourOf(a[..|a| - 1], b, out[..n]);
        mask := m + [true];
        assert a == a[..|a| - 1] + [out[n]];
      } else {
        var m := ColourOf(a, b[..|b| - 1], out[..n]);
        mask := m + [false];
        assert b == b[..|b| - 1] + [out[n]];
      }
      assert mask[..n] == mask[..|mask| - 1];
    }
  }

  lemma {:induction false} ColouredInterleaves<T>(a: seq<T>, b: seq<T>, out: seq<T>, mask: seq<bool>)
    requires Colours(a, b, out, mask)
    ensures Interleaves(a, b, out)
  {
    if out != [] {
      var n := |out| - 1;
      if mask[n] {
        assert a[..|a| - 1] == Pick(out[..n], mask[..n], true);
        ColouredInterleaves(a[..|a| - 1], b, out[..n], mask[..n]);
      } else {
        assert b[..|b| - 1] == Pick(out[..n], mask[..n], false);
        ColouredInterleaves(a, b[..|b| - 1], out[..n], mask[..n]);
      }
    }
  }

  /** Interleaving means what it should: the output splits into two sub-sequences, in place and
      in order, that are the two inputs. */
  lemma InterleavesIffSplits<T>(a: seq<T>, b: seq<T>, out: seq<T>)
    ensures Interleaves(a, b, out) <==> exists mask :: Colours(a, b, out, mask)
  {
    if Interleaves(a, b, out) {
      var mask := ColourOf(a, b, out);
    }
    forall mask | Colours(a, b, out, mask) ensures Interleaves(a, b, out) {
      ColouredInterleaves(a, b, out, mask);
    }
  }

  /** ap and bp place a and b in out, in order, and share out its places among them. */
  ghost predicate Places<T>(a: seq<T>, b: seq<T>, out: seq<T>, ap: seq<nat>, bp: seq<nat>) {
    && |ap| == |a| && |bp| == |b|
    && (forall i :: 0 <= i < |a| ==> ap[i] < |out| && out[ap[i]] == a[i])
    && (forall i :: 0 <= i < |b| ==> bp[i] < |out| && out[bp[i]] == b[i])
    && (forall i, j :: 0 <= i < j < |a| ==> ap[i] < ap[j])
    && (forall i, j :: 0 <= i < j < |b| ==> bp[i] < bp[j])
    && (forall k :: 0 <= k < |out| ==> (k in ap <==> k !in bp))
  }

  lemma PlacesSnoc<T>(a: seq<T>, b: seq<T>, out: seq<T>, ap: seq<nat>, bp: seq<nat>, x: T)
    requires Places(a, b, out, ap, bp)
    ensures Places(a + [x], b, out + [x], ap + [|out|], bp)
  {
    var q := ap + [|out|];
    assert q[|ap|] == |out|;
    forall k | 0 <= k <= |out| ensures k in q <==> k !in bp {
      if k < |out| && k in ap {
        var i :| 0 <= i < |ap| && ap[i] == k;
        assert q[i] == k;
      }
    }
  }

  lemma PlacesSwap<T>(a: seq<T>, b: seq<T>, out: seq<T>, ap: seq<nat>, bp: seq<nat>)
    requires Places(a, b, out, ap, bp)
    ensures Places(b, a, out, bp, ap)
  {
  }

  lemma PlacesLastA<T>(a: seq<T>, b: seq<T>, out: seq<T>, ap: seq<nat>, bp: seq<nat>)
    requires out != [] && a != [] && a[|a| - 1] == out[|out| - 1]
    requires Places(a[..|a| - 1], b, out[..|out| - 1], ap, bp)
    ensures Places(a, b, out, ap + [|out| - 1], bp)
  {
    PlacesSnoc(a[..|a| - 1], b, out[..|out| - 1], ap, bp, out[|out| - 1]);
    assert a == a[..|a| - 1] + [a[|a| - 1]];
    assert out == out[..|out| - 1] + [out[|out| - 1]];
  }

  lemma PlacesLastB<T>(a: seq<T>, b: seq<T>, out: seq<T>, ap: seq<nat>, bp: seq<nat>)
    requires out != [] && b != [] && b[|b| - 1] == out[|out| - 1]
    requires Places(a, b[..|b| - 1], out[..|out| - 1], ap, bp)
    ensures Places(a, b, out, ap, bp + [|out| - 1])
  {
    PlacesSwap(a, b[..|b| - 1], out[..|out| - 1], ap, bp);
    PlacesLastA(b, a, out, bp, ap);
    PlacesSwap(b, a, out, bp + [|out| - 1], ap);
  }

  lemma {:induction false} PlacesOf<T>(a: seq<T>, b: seq<T>, out: seq<T>) returns (ap: seq<nat>, bp: seq<nat>)
    requires Interleaves(a, b, out)
    ensures Places(a, b, out, ap, bp)
  {
    if out == [] {
      ap, bp := [], [];
    } else {
      var n := |out| - 1;
      if a != [] && a[|a| - 1] == out[n] && Interleaves(a[..|a| - 1], b, out[..n]) {
        ap, bp := PlacesOf(a[..|a| - 1], b, out[..n]);
        PlacesLastA(a, b, out, ap, bp);
        ap := ap + [n];
      } else {
        ap, bp := PlacesOf(a, b[..|b| - 1], out[..n]);
        PlacesLastB(a, b, out, ap, bp);
        bp := bp + [n];
      }
    }
  }

  lemma LastIsGreatest(at: seq<nat>, i: nat)
    requires i < |at| && forall j, k :: 0 <= j < k < |at| ==> at[j] < at[k]
    ensures at[i] <= at[|at| - 1]
  {
  }

  /** The element at the last place of out comes from a. */
  lemma PlacesInit<T>(a: seq<T>, b: seq<T>, out: seq<T>, ap: seq<nat>, bp: seq<nat>)
    requires Places(a, b, out, ap, bp) && |out| > 0 && |out| - 1 in ap
    ensures a != [] && a[|a| - 1] == out[|out| - 1]
    ensures Places(a[..|a| - 1], b, out[..|out| - 1], ap[..|ap| - 1], bp)
  {
    var n, m := |out| - 1, |ap| - 1;
    var i :| 0 <= i < |ap| && ap[i] == n;
    LastIsGreatest(ap, i);
    assert ap[m] < |out|;
    assert n !in bp;
    forall k | 0 <= k < n ensures k in ap[..m] <==> k !in bp {
      if k in ap {
        var j :| 0 <= j < |ap| && ap[j] == k;
        assert ap[..m][j] == k;
      }
    }
  }

  lemma PlacesFit<T>(a: seq<T>, b: seq<T>, out: seq<T>, ap: seq<nat>, bp: seq<nat>)
    requires Places(a, b, out, ap, bp)
    ensures |a| > 0 ==> |out| > 0
  {
    if |a| > 0 {
      assert out[ap[0]] == a[0];
    }
  }

  lemma {:induction false} PlacesInterleave<T>(a: seq<T>, b: seq<T>, out: seq<T>, ap: seq<nat>, bp: seq<nat>)
    requires Places(a, b, out, ap, bp)
    ensures Interleaves(a, b, out)
  {
    if out == [] {
      PlacesFit(a, b, out, ap, bp);
      PlacesSwap(a, b, out, ap, bp);
      PlacesFit(b, a, out, bp, ap);
    } else {
      var n := |out| - 1;
      if n in ap {
        PlacesInit(a, b, out, ap, bp);
        PlacesInterleave(a[..|a| - 1], b, out[..n], ap[..|ap| - 1], bp);
      } else {
        assert n in bp;
        PlacesSwap(a, b, out, ap, bp);
        PlacesInit(b, a, out, bp, ap);
        PlacesSwap(b[..|b| - 1], a, out[..n], bp[..|bp| - 1], ap);
        PlacesInterleave(a, b[..|b| - 1], out[..n], ap, bp[..|bp| - 1]);
      }
    }
  }

  /** In terms of places: an interleaving puts the elements of a at ap and those of b at bp, both
      in order, and every place of out belongs to exactly one of them. */
  lemma InterleavesAt<T>(a: seq<T>, b: seq<T>, out: seq<T>) returns (ap: seq<nat>, bp: seq<nat>)
    requires Interleaves(a, b, out)
    ensures |ap| == |a| && |bp| == |b|
    ensures forall i :: 0 <= i < |a| ==> ap[i] < |out| && out[ap[i]] == a[i]
    ensures forall i :: 0 <= i < |b| ==> bp[i] < |out| && out[bp[i]] == b[i]
    ensures forall i, j :: 0 <= i < j < |a| ==> ap[i] < ap[j]
    ensures forall i, j :: 0 <= i < j < |b| ==> bp[i] < bp[j]
    ensures forall k :: 0 <= k < |out| ==> (k in ap <==> k !in bp)
  {
    ap, bp := PlacesOf(a, b, out);
  }

  /** And whatever does so is an interleaving. */
  lemma InterleavesIfAt<T>(a: seq<T>, b: seq<T>, out: seq<T>, ap: seq<nat>, bp: seq<nat>)
    requires |ap| == |a| && |bp| == |b|
    requires forall i :: 0 <= i < |a| ==> ap[i] < |out| && out[ap[i]] == a[i]
    requires forall i :: 0 <= i < |b| ==> bp[i] < |out| && out[bp[i]] == b[i]
    requires forall i, j :: 0 <= i < j < |a| ==> ap[i] < ap[j]
    requires forall i, j :: 0 <= i < j < |b| ==> bp[i] < bp[j]
    requires forall k :: 0 <= k < |out| ==> (k in ap <==> k !in bp)
    ensures Interleaves(a, b, out)
  {
    PlacesInterleave(a, b, out, ap, bp);
  }

  // ---------- MergeChannels ----------

  datatype Side = A | B

  /** i and j values have been received; a closed channel variable has been set to nil. */
  datatype Merge<T> = Merge(i: nat, j: nat, aOpen: bool, bOpen: bool, out: seq<T>)

  /** One turn of the loop when select takes the given case; a nil channel is never ready. */
  function Turn<T>(a: seq<T>, b: seq<T>, s: Merge<T>, side: Side): Option<Merge<T>> {
    match side
    case A =>
      if !s.aOpen then None
      else if s.i < |a| then Some(s.(i := s.i + 1, out := s.out + [a[s.i]]))
      else Some(s.(aOpen := false))
    case B =>
      if !s.bOpen then None
      else if s.j < |b| then Some(s.(j := s.j + 1, out := s.out + [b[s.j]]))
      else Some(s.(bOpen := false))
  }

  predicate Returned<T>(s: Merge<T>) {
    !s.aOpen && !s.bOpen
  }

  /** The state after a run of turns; the loop stops once both channels are nil. */
  function Exec<T>(a: seq<T>, b: seq<T>, turns: seq<Side>): Option<Merge<T>> {
    if turns == [] then Some(Merge(0, 0, true, true, [])) else
    var s := Exec(a, b, turns[..|turns| - 1]);
    if s.None? || Returned(s.value) then None else Turn(a, b, s.value, turns[|turns| - 1])
  }

  /** What holds after k turns. */
  ghost predicate Merged<T>(a: seq<T>, b: seq<T>, s: Merge<T>, k: nat) {
    && s.i <= |a| && s.j <= |b|
    && (!s.aOpen ==> s.i == |a|) && (!s.bOpen ==> s.j == |b|)
    && Interleaves(a[..s.i], b[..s.j], s.out)
    && k == s.i + s.j + (if s.aOpen then 0 else 1) + (if s.bOpen then 0 else 1)
  }

  lemma TurnKeeps<T>(a: seq<T>, b: seq<T>, s: Merge<T>, side: Side, k: nat)
    requires Merged(a, b, s, k) && Turn(a, b, s, side).Some?
    ensures Merged(a, b, Turn(a, b, s, side).value, k + 1)
  {
    if side.A? {
      if s.i < |a| {
        MoreOfA(a[..s.i], b[..s.j], s.out, a[s.i]);
        assert a[..s.i + 1] == a[..s.i] + [a[s.i]];
      }
    } else if s.j < |b| {
      MoreOfB(a[..s.i], b[..s.j], s.out, b[s.j]);
      assert b[..s.j + 1] == b[..s.j] + [b[s.j]];
    }
  }

  lemma {:induction false} ExecInv<T>(a: seq<T>, b: seq<T>, turns: seq<Side>)
    requires Exec(a, b, turns).Some?
    ensures Merged(a, b, Exec(a, b, turns).value, |turns|)
  {
    if turns != [] {
      var n := |turns| - 1;
      ExecInv(a, b, turns[..n]);
      TurnKeeps(a, b, Exec(a, b, turns[..n]).value, turns[n], n);
    }
  }

  /** Every run that returns takes |a| + |b| + 2 turns and has sent an interleaving. */
  lemma MergeSound<T>(a: seq<T>, b: seq<T>, turns: seq<Side>)
    requires Exec(a, b, turns).Some? && Returned(Exec(a, b, turns).value)
    ensures |turns| == |a| + |b| + 2
    ensures Interleaves(a, b, Exec(a, b, turns).value.out)
  {
    ExecInv(a, b, turns);
    assert a[..|a|] == a && b[..|b|] == b;
  }

  lemma {:induction false} ReachPrefix<T>(a: seq<T>, b: seq<T>, i: nat, j: nat, out: seq<T>) returns (turns: seq<Side>)
    requires i <= |a| && j <= |b| && Interleaves(a[..i], b[..j], out)
    ensures Exec(a, b, turns) == Some(Merge(i, j, true, true, out))
    decreases |out|
  {
    if out == [] {
      turns := [];
    } else {
      var n := |out| - 1;
      assert out == out[..n] + [out[n]];
      if i > 0 && a[i - 1] == out[n] && Interleaves(a[..i - 1], b[..j], out[..n]) {
        var t := ReachPrefix(a, b, i - 1, j, out[..n]);
        turns := t + [A];
        assert turns[..|t|] == t;
      } else {
        assert i > 0 ==> a[..i][..i - 1] == a[..i - 1];
        assert b[..j][..j - 1] == b[..j - 1];
        var t := ReachPrefix(a, b, i, j - 1, out[..n]);
        turns := t + [B];
        assert turns[..|t|] == t;
      }
    }
  }

  /** Every interleaving is the output of some run. */
  lemma MergeComplete<T>(a: seq<T>, b: seq<T>, out: seq<T>) returns (turns: seq<Side>)
    requires Interleaves(a, b, out)
    ensures Exec(a, b, turns) == Some(Merge(|a|, |b|, false, false, out))
  {
    assert a[..|a|] == a && b[..|b|] == b;
    var t := ReachPrefix(a, b, |a|, |b|, out);
    turns := t + [A] + [B];
    assert (t + [A])[..|t|] == t && turns[..|t| + 1] == t + [A];
  }

  /** The loop itself; turns records what select chose. */
  method MergeAll<T>(a: seq<T>, b: seq<T>) returns (out: seq<T>, ghost turns: seq<Side>)
    ensures Exec(a, b, turns) == Some(Merge(|a|, |b|, false, false, out))
    ensures |turns| == |a| + |b| + 2
    ensures Interleaves(a, b, out) && multiset(out) == multiset(a) + multiset(b)
  {
    out, turns := [], [];
    var i, j, aOpen, bOpen := 0, 0, true, true;
    while true
      invariant i <= |a| && j <= |b| && (aOpen || bOpen)
      invariant (!aOpen ==> i == |a|) && (!bOpen ==> j == |b|)
      invariant Exec(a, b, turns) == Some(Merge(i, j, aOpen, bOpen, out))
      decreases |a| - i + |b| - j, (if aOpen then 1 else 0) + (if bOpen then 1 else 0)
    {
      ghost var before := turns;
      if {
        case aOpen =>
          turns := turns + [A];
          if i < |a| {
            out, i := out + [a[i]], i + 1;
          } else {
            aOpen := false;
          }
        case bOpen =>
          turns := turns + [B];
          if j < |b| {
            out, j := out + [b[j]], j + 1;
          } else {
            bOpen := false;
          }
      }
      assert turns[..|before|] == before;
      if !aOpen && !bOpen {
        break;
      }
    }
    MergeSound(a, b, turns);
    InterleavedElements(a, b, out);
  }

  lemma {:induction false} InterleavedElements<T>(a: seq<T>, b: seq<T>, out: seq<T>)
    requires Interleaves(a, b, out)
    ensures multiset(out) == multiset(a) + multiset(b)
  {
    if out != [] {
      var n := |out| - 1;
      assert out == out[..n] + [out[n]];
      if a != [] && a[|a| - 1] == out[n] && Interleaves(a[..|a| - 1], b, out[..n]) {
        InterleavedElements(a[..|a| - 1], b, out[..n]);
        assert a == a[..|a| - 1] + [out[n]];
      } else {
        InterleavedElements(a, b[..|b| - 1], out[..n]);
        assert b == b[..|b| - 1] + [out[n]];
      }
    }
  }

  // ---------- MergeChannelsOrCancel ----------

  datatype CtxError = Canceled | DeadlineExceeded

  /** The context is done with ctxErr from turn number doneAt on (None: never). The output is
      an interleaving of exactly what was received; nil means both channels were drained, an
      error means the context was done by then. */
  method MergeOrCancel<T>(ctxErr: CtxError, doneAt: Option<nat>, a: seq<T>, b: seq<T>)
    returns (out: seq<T>, err: Option<CtxError>, ghost i: nat, ghost j: nat, ghost turns: nat)
    ensures i <= |a| && j <= |b| && Interleaves(a[..i], b[..j], out)
    ensures err.None? ==> i == |a| && j == |b| && turns == |a| + |b| + 2
    ensures err.Some? ==> err == Some(ctxErr) && doneAt.Some? && doneAt.value <= turns
    ensures doneAt.None? ==> err.None?
  {
    out, i, j, turns := [], 0, 0, 0;
    var p, q, aOpen, bOpen, turn := 0, 0, true, true, 0;
    while true
      invariant p == i <= |a| && q == j <= |b| && turn == turns && (aOpen || bOpen)
      invariant (!aOpen ==> i == |a|) && (!bOpen ==> j == |b|)
      invariant Interleaves(a[..i], b[..j], out)
      invariant turns == i + j + (if aOpen then 0 else 1) + (if bOpen then 0 else 1)
      decreases |a| - i + |b| - j, (if aOpen then 1 else 0) + (if bOpen then 1 else 0)
    {
      ghost var before := out;
      if {
        case doneAt.Some? && doneAt.value <= turn =>
          return out, Some(ctxErr), i, j, turns;
        case aOpen =>
          if p < |a| {
            out := out + [a[p]];
            assert a[..p + 1][..p] == a[..p];
            assert out[..|before|] == before;
            p, i := p + 1, i + 1;
          } else {
            aOpen := false;
          }
        case bOpen =>
          if q < |b| {
            out := out + [b[q]];
            assert b[..q + 1][..q] == b[..q];
            assert out[..|before|] == before;
            q, j := q + 1, j + 1;
          } else {
            bOpen := false;
          }
      }
      turn, turns := turn + 1, turns + 1;
      if !aOpen && !bOpen {
        return out, None, i, j, turns;
      }
    }
  }
}
