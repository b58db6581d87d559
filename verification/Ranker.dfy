// lab1/ranker/ranker.go: the score of a video for a user. Go ranges over a map in any order
// and uint64 arithmetic wraps around; the score depends on neither.
module Ranker {
  import opened Util
  import D = DetBcrypt

  const TWO_64: nat := 0x1_0000_0000_0000_0000

  datatype Feature = Feature(id: int)

  type Coeffs = map<Feature, nat>

  function Term(u: Coeffs, v: Coeffs, f: Feature): nat {
    if f in u && f in v then u[f] * v[f] else 0
  }

  /** The exact sum over a set of features; features that one side lacks add nothing. */
  ghost function DotOver(u: Coeffs, v: Coeffs, s: set<Feature>): nat {
    if s == {} then 0 else
    var f :| f in s;
    Term(u, v, f) + DotOver(u, v, s - {f})
  }

  lemma {:induction false} DotOverPick(u: Coeffs, v: Coeffs, s: set<Feature>, f: Feature)
    requires f in s
    ensures DotOver(u, v, s) == Term(u, v, f) + DotOver(u, v, s - {f})
    decreases s
  {
    var g :| g in s && DotOver(u, v, s) == Term(u, v, g) + DotOver(u, v, s - {g});
    if g != f {
      DotOverPick(u, v, s - {g}, f);
      DotOverPick(u, v, s - {f}, g);
      assert s - {g} - {f} == s - {f} - {g};
    }
  }

  lemma {:induction false} DotOverSplit(u: Coeffs, v: Coeffs, s: set<Feature>, t: set<Feature>)
    requires s !! t && forall f :: f in t ==> Term(u, v, f) == 0
    ensures DotOver(u, v, s + t) == DotOver(u, v, s)
    decreases t
  {
    if t == {} {
      assert s + t == s;
    } else {
      var f :| f in t;
      DotOverPick(u, v, s + t, f);
      assert s + t - {f} == s + (t - {f});
      DotOverSplit(u, v, s, t - {f});
    }
  }

  lemma {:induction false} DotOverSwap(u: Coeffs, v: Coeffs, s: set<Feature>)
    ensures DotOver(u, v, s) == DotOver(v, u, s)
    decreases s
  {
    if s != {} {
      var f :| f in s;
      DotOverPick(u, v, s, f);
      DotOverPick(v, u, s, f);
      DotOverSwap(u, v, s - {f});
    }
  }

  /** The dot product in 64 bits. */
  ghost function Dot(u: Coeffs, v: Coeffs): nat {
    DotOver(u, v, u.Keys) % TWO_64
  }

  /** The dot product is symmetric in the user and the video. */
  lemma DotSymmetric(u: Coeffs, v: Coeffs)
    ensures Dot(u, v) == Dot(v, u)
  {
    var both := u.Keys * v.Keys;
    assert u.Keys == both + (u.Keys - v.Keys) && v.Keys == both + (v.Keys - u.Keys);
    DotOverSplit(u, v, both, u.Keys - v.Keys);
    DotOverSplit(v, u, both, v.Keys - u.Keys);
    DotOverSwap(u, v, both);
  }

  /** The dot product of no features is 0, and a feature adds its product if the video has it. */
  lemma DotAdds(u: Coeffs, v: Coeffs, f: Feature, a: nat)
    requires f !in u
    ensures Dot(map[], v) == 0
    ensures Dot(u[f := a], v) == (Dot(u, v) + if f in v then a * v[f] else 0) % TWO_64
    ensures TWO_64 == 18446744073709551616
  {
    var b := if f in v then a * v[f] else 0;
    DotOverAdds(u, v, f, a, b);
    WrapOne(DotOver(u, v, u.Keys), b);
  }

  lemma DotOverAdds(u: Coeffs, v: Coeffs, f: Feature, a: nat, b: nat)
    requires f !in u && b == if f in v then a * v[f] else 0
    ensures DotOver(u[f := a], v, u[f := a].Keys) == DotOver(u, v, u.Keys) + b
  {
    var w := u[f := a];
    DotOverPick(w, v, w.Keys, f);
    assert w.Keys - {f} == u.Keys;
    DotOverAgrees(w, u, v, u.Keys);
    assert Term(w, v, f) == b;
  }

  lemma WrapOne(a: nat, b: nat)
    ensures (a % TWO_64 + b) % TWO_64 == (a + b) % TWO_64
  {
    var q := a / TWO_64;
    assert a + b == q * TWO_64 + (a % TWO_64 + b);
    WrapMultiple(a % TWO_64 + b, q);
  }

  lemma {:induction false} WrapMultiple(a: nat, q: nat)
    ensures (q * TWO_64 + a) % TWO_64 == a % TWO_64
  {
    if q > 0 {
      WrapMultiple(a, q - 1);
      assert q * TWO_64 + a == ((q - 1) * TWO_64 + a) + TWO_64;
    }
  }

  lemma {:induction false} DotOverAgrees(w: Coeffs, u: Coeffs, v: Coeffs, s: set<Feature>)
    requires forall g :: g in s ==> Term(w, v, g) == Term(u, v, g)
    ensures DotOver(w, v, s) == DotOver(u, v, s)
    decreases s
  {
    if s != {} {
      var g :| g in s;
      DotOverPick(w, v, s, g);
      DotOverPick(u, v, s, g);
      DotOverAgrees(w, u, v, s - {g});
    }
  }

  lemma WrapAdd(a: nat, b: nat)
    ensures (a % TWO_64 + b % TWO_64) % TWO_64 == (a + b) % TWO_64
  {
    var q, r := a / TWO_64, b / TWO_64;
    assert a == q * TWO_64 + a % TWO_64 && b == r * TWO_64 + b % TWO_64;
  }

  /** The loop of Rank: whatever order the map is ranged over in, and although every product
      and sum wraps around, the result is the dot product in 64 bits. */
  method DotProduct(u: Coeffs, v: Coeffs) returns (dot: nat)
    ensures dot == Dot(u, v)
  {
    dot := 0;
    var rest := u.Keys;
    ghost var done: set<Feature> := {};
    while rest != {}
      invariant done !! rest && done + rest == u.Keys
      invariant dot == DotOver(u, v, done) % TWO_64
      decreases rest
    {
      var f :| f in rest;
      rest := rest - {f};
      done := done + {f};
      DotOverPick(u, v, done, f);
      assert done - {f} + {f} == done;
      if f in v {
        WrapAdd(DotOver(u, v, done - {f}), u[f] * v[f]);
        assert done - {f} !! rest;
        dot := (dot + u[f] * v[f] % TWO_64) % TWO_64;
      }
    }
    assert done == u.Keys;
  }

  // ---------- from the dot product to the rank ----------

  /** The FNV hashes and the cipher, as arbitrary functions. */
  datatype Hashing = Hashing(fnv32: seq<byte> -> nat, fnv64: seq<byte> -> nat, cipher: D.Cipher)

  /** strconv.FormatUint(id, 10) is D.Decimal; costs below 4 only. */
  function CostHash(h: Hashing, id: nat): int {
    h.fnv32(D.Decimal(id)) % (4 - D.MIN_COST) + D.MIN_COST
  }

  /** Sprintf("%020d", n) for an unsigned n. */
  function Padded20(n: nat): seq<byte> {
    var digits := D.Decimal(n);
    if |digits| >= 20 then digits else seq(20 - |digits|, _ => D.ZERO) + digits
  }

  /** Rank after its loop. An error of GenerateFromPassword is ignored and leaves no bytes. */
  function Score(h: Hashing, dot: nat): nat {
    match D.Generate(h.cipher, Padded20(dot), CostHash(h, dot))
    case Ok(bytes) => h.fnv64(bytes)
    case Err(_) => h.fnv64([])
  }

  /** The error that Rank ignores cannot happen: costHash stays within 1..3, and the hash it
      asks for carries that cost. */
  lemma RankNeverFails(h: Hashing, dot: nat)
    ensures 1 <= CostHash(h, dot) <= 3
    ensures var g := D.Generate(h.cipher, Padded20(dot), CostHash(h, dot));
            g.Ok? && D.Cost(g.value) == Ok(CostHash(h, dot))
  {
    D.GenerateCompareCost(h.cipher, Padded20(dot), CostHash(h, dot), []);
  }

  /** The rank of a video for a user. */
  ghost function RankOf(h: Hashing, user: Coeffs, video: Coeffs): nat {
    Score(h, Dot(user, video))
  }

  // ---------- the rank, step by step ----------

  // vals are the values read so far when a decimal number is read from the left.

  lemma {:induction false} DecimalReads(n: nat) returns (vals: seq<nat>)
    ensures var s := D.Decimal(n);
            && s != [] && |vals| == |s| + 1 && vals[0] == 0 && vals[|s|] == n
            && (forall i :: 0 <= i < |s| ==> '0' as int <= s[i] as int <= '9' as int)
            && (forall i :: 0 <= i < |s| ==> vals[i + 1] == 10 * vals[i] + (s[i] as int - '0' as int))
            && (s[0] == '0' as byte ==> |s| == 1)
  {
    var s := D.Decimal(n);
    if n < 10 {
      D.DigitIs(n);
      vals := [0, n];
    } else {
      vals := DecimalReads(n / 10);
      D.DigitIs(n % 10);
      ReadsOne(D.Decimal(n / 10), vals, D.Digit(n % 10));
      vals := vals + [n];
    }
  }

  lemma ReadsOne(s: seq<byte>, vals: seq<nat>, b: byte)
    requires s != [] && |vals| == |s| + 1 && vals[0] == 0 && vals[|s|] > 0
    requires forall i :: 0 <= i < |s| ==> vals[i + 1] == 10 * vals[i] + (s[i] as int - '0' as int)
    requires '0' as int <= b as int && (s[0] == '0' as byte ==> |s| == 1)
    ensures s[0] != '0' as byte
    ensures var t, read := s + [b], vals + [10 * vals[|s|] + (b as int - '0' as int)];
            forall i :: 0 <= i < |t| ==> read[i + 1] == 10 * read[i] + (t[i] as int - '0' as int)
  {
    assert vals[1] == 10 * vals[0] + (s[0] as int - '0' as int);
  }

  function Pow10(k: nat): nat {
    if k == 0 then 1 else 10 * Pow10(k - 1)
  }

  lemma {:induction false} DecimalLength(n: nat, k: nat)
    requires k > 0 && n < Pow10(k)
    ensures |D.Decimal(n)| <= k
  {
    if n >= 10 {
      assert Pow10(1) == 10 * Pow10(0);
      assert k > 1;
      DecimalLength(n / 10, k - 1);
    }
  }

  lemma Pow10Is20()
    ensures Pow10(20) == 100000000000000000000
  {
    assert Pow10(5) == 100000;
    assert Pow10(10) == 100000 * Pow10(5);
    assert Pow10(15) == 100000 * Pow10(10);
    assert Pow10(20) == 100000 * Pow10(15);
  }

  lemma PaddedReads(n: nat) returns (vals: seq<nat>)
    requires n < TWO_64
    ensures var s := Padded20(n);
            && |s| == 20 && |vals| == 21 && vals[0] == 0 && vals[20] == n
            && (forall i :: 0 <= i < 20 ==> '0' as int <= s[i] as int <= '9' as int)
            && (forall i :: 0 <= i < 20 ==> vals[i + 1] == 10 * vals[i] + (s[i] as int - '0' as int))
  {
    Pow10Is20();
    DecimalLength(n, 20);
    var read := DecimalReads(n);
    vals := ZerosRead(D.Decimal(n), read, 20 - |D.Decimal(n)|);
    assert Padded20(n) == seq(20 - |D.Decimal(n)|, _ => D.ZERO) + D.Decimal(n);
  }

  lemma ZerosRead(s: seq<byte>, read: seq<nat>, k: nat) returns (vals: seq<nat>)
    requires |read| == |s| + 1 && read[0] == 0
    requires forall i :: 0 <= i < |s| ==> '0' as int <= s[i] as int <= '9' as int
    requires forall i :: 0 <= i < |s| ==> read[i + 1] == 10 * read[i] + (s[i] as int - '0' as int)
    ensures var t := seq(k, _ => D.ZERO) + s;
            && |vals| == |t| + 1 && vals[0] == 0 && vals[|t|] == read[|s|]
            && (forall i :: 0 <= i < |t| ==> '0' as int <= t[i] as int <= '9' as int)
            && (forall i :: 0 <= i < |t| ==> vals[i + 1] == 10 * vals[i] + (t[i] as int - '0' as int))
  {
    vals := seq(k, _ => 0) + read;
    var t := seq(k, _ => D.ZERO) + s;
    forall i | 0 <= i < |t|
      ensures '0' as int <= t[i] as int <= '9' as int
      ensures vals[i + 1] == 10 * vals[i] + (t[i] as int - '0' as int)
    {
      if i >= k {
        assert t[i] == s[i - k] && vals[i] == read[i - k] && vals[i + 1] == read[i - k + 1];
      }
    }
  }

  /** The rank, in the terms of Rank: pw is the dot product in 20 decimal digits, id in as many
      as it needs; id's FNV hash gives a cost from 1 to 3; the bcrypt hash of pw at that cost is
      bytes; and the rank is the FNV hash of bytes. pwVals and idVals are the values read from
      the left. */
  lemma RankSteps(h: Hashing, user: Coeffs, video: Coeffs)
    returns (pw: seq<byte>, pwVals: seq<nat>, id: seq<byte>, idVals: seq<nat>, bytes: seq<byte>)
    ensures |pw| == 20 && |pwVals| == 21 && pwVals[0] == 0 && pwVals[20] == Dot(user, video)
    ensures forall i :: 0 <= i < 20 ==> '0' as int <= pw[i] as int <= '9' as int
    ensures forall i :: 0 <= i < 20 ==> pwVals[i + 1] == 10 * pwVals[i] + (pw[i] as int - '0' as int)
    ensures |id| > 0 && |idVals| == |id| + 1 && idVals[0] == 0 && idVals[|id|] == Dot(user, video)
    ensures forall i :: 0 <= i < |id| ==> '0' as int <= id[i] as int <= '9' as int
    ensures forall i :: 0 <= i < |id| ==> idVals[i + 1] == 10 * idVals[i] + (id[i] as int - '0' as int)
    ensures id[0] == '0' as byte ==> |id| == 1
    ensures D.Generate(h.cipher, pw, h.fnv32(id) % 3 + 1) == Ok(bytes)
    ensures RankOf(h, user, video) == h.fnv64(bytes)
  {
    var dot := Dot(user, video);
    pw, id := Padded20(dot), D.Decimal(dot);
    pwVals := PaddedReads(dot);
    idVals := DecimalReads(dot);
    RankNeverFails(h, dot);
    bytes := D.Generate(h.cipher, pw, CostHash(h, dot)).value;
  }

  method Rank(h: Hashing, user: Coeffs, video: Coeffs) returns (r: nat)
    ensures r == RankOf(h, user, video)
  {
    var dot := DotProduct(user, video);
    r := Score(h, dot);
  }
}
