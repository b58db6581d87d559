// base64 as det_bcrypt uses it: sections 3.2 and 4 of RFC 4648 with the alphabet of
// lab1/det_bcrypt/det_bcrypt.go, and its two wrappers that drop and restore padding.
module Base64 {
  import opened Util

  const PAD: byte := 61 // '='

  /** The alphabet: . / A-Z a-z 0-9. */
  function CharOf(v: byte): (c: byte)
    requires v < 64
    ensures c != PAD
  {
    if v < 2 then v + 46
    else if v < 28 then v - 2 + 65
    else if v < 54 then v - 28 + 97
    else v - 54 + 48
  }

  function ValueOf(c: byte): (v: Option<byte>)
    ensures v.Some? ==> v.value < 64 && CharOf(v.value) == c
  {
    if 46 <= c < 48 then Some(c - 46)
    else if 65 <= c < 91 then Some(c - 65 + 2)
    else if 97 <= c < 123 then Some(c - 97 + 28)
    else if 48 <= c < 58 then Some(c - 48 + 54)
    else None
  }

  lemma CharValue(v: byte)
    requires v < 64
    ensures ValueOf(CharOf(v)) == Some(v)
  {
  }

  // The four six-bit values cut from three bytes.

  function First(a: byte): (v: byte)
    ensures v < 64
  {
    a >> 2
  }

  function Second(a: byte, b: byte): (v: byte)
    ensures v < 64
  {
    ((a & 3) << 4) | (b >> 4)
  }

  function Third(b: byte, c: byte): (v: byte)
    ensures v < 64
  {
    ((b & 15) << 2) | (c >> 6)
  }

  function Fourth(c: byte): (v: byte)
    ensures v < 64
  {
    c & 63
  }

  function Bits2(a: byte): seq<byte> {
    [CharOf(First(a)), CharOf(Second(a, 0))]
  }

  function Bits3(a: byte, b: byte): seq<byte> {
    [CharOf(First(a)), CharOf(Second(a, b)), CharOf(Third(b, 0))]
  }

  function Bits4(a: byte, b: byte, c: byte): seq<byte> {
    [CharOf(First(a)), CharOf(Second(a, b)), CharOf(Third(b, c)), CharOf(Fourth(c))]
  }

  /** The encoding with padding. */
  function Encode(src: seq<byte>): seq<byte> {
    if |src| == 0 then []
    else if |src| == 1 then Bits2(src[0]) + [PAD, PAD]
    else if |src| == 2 then Bits3(src[0], src[1]) + [PAD]
    else Bits4(src[0], src[1], src[2]) + Encode(src[3..])
  }

  /** Padding is accepted at the very end only; None is a corrupt input. */
  function Decode(src: seq<byte>): Option<seq<byte>> {
    if |src| == 0 then Some([])
    else if |src| < 4 then None
    else
      var rest := src[4..];
      var v0, v1, v2, v3 := ValueOf(src[0]), ValueOf(src[1]), ValueOf(src[2]), ValueOf(src[3]);
      if v0.None? || v1.None? then None
      else if src[2] == PAD then
        if src[3] == PAD && rest == [] then Some([High(v0.value, v1.value)]) else None
      else if v2.None? then None
      else if src[3] == PAD then
        if rest == [] then Some([High(v0.value, v1.value), Middle(v1.value, v2.value)]) else None
      else if v3.None? || Decode(rest).None? then None
      else Some([High(v0.value, v1.value), Middle(v1.value, v2.value), Low(v2.value, v3.value)] + Decode(rest).value)
  }

  // The three bytes joined from four six-bit values.

  function High(u: byte, v: byte): byte {
    (u << 2) | (v >> 4)
  }

  function Middle(u: byte, v: byte): byte {
    ((u & 15) << 4) | (v >> 2)
  }

  function Low(u: byte, v: byte): byte {
    ((u & 3) << 6) | v
  }

  lemma Join(a: byte, b: byte, c: byte)
    ensures High(First(a), Second(a, b)) == a
    ensures Middle(Second(a, b), Third(b, c)) == b
    ensures Low(Third(b, c), Fourth(c)) == c
  {
  }

  lemma Quad(a: byte, b: byte, c: byte, rest: seq<byte>)
    ensures Decode(Bits4(a, b, c) + rest) ==
            if Decode(rest).Some? then Some([a, b, c] + Decode(rest).value) else None
  {
    var s := Bits4(a, b, c) + rest;
    CharValue(First(a));
    CharValue(Second(a, b));
    CharValue(Third(b, c));
    CharValue(Fourth(c));
    Join(a, b, c);
    assert s[4..] == rest;
  }

  lemma Tail1(a: byte)
    ensures Decode(Bits2(a) + [PAD, PAD]) == Some([a])
  {
    CharValue(First(a));
    CharValue(Second(a, 0));
    Join(a, 0, 0);
  }

  lemma Tail2(a: byte, b: byte)
    ensures Decode(Bits3(a, b) + [PAD]) == Some([a, b])
  {
    CharValue(First(a));
    CharValue(Second(a, b));
    CharValue(Third(b, 0));
    Join(a, b, 0);
  }

  lemma EncodeOne(b: seq<byte>)
    requires |b| == 1
    ensures b == [b[0]] && Encode(b) == Bits2(b[0]) + [PAD, PAD]
  {
  }

  lemma EncodeTwo(b: seq<byte>)
    requires |b| == 2
    ensures b == [b[0], b[1]] && Encode(b) == Bits3(b[0], b[1]) + [PAD]
  {
  }

  lemma SplitAtThree<T>(s: seq<T>)
    requires |s| > 2
    ensures s == [s[0], s[1], s[2]] + s[3..]
  {
  }

  lemma EncodeQuad(b: seq<byte>)
    requires |b| > 2
    ensures b == [b[0], b[1], b[2]] + b[3..]
    ensures Encode(b) == Bits4(b[0], b[1], b[2]) + Encode(b[3..])
  {
    SplitAtThree(b);
  }

  lemma {:induction false} DecodeEncode(b: seq<byte>)
    ensures Decode(Encode(b)) == Some(b)
  {
    if |b| == 0 {
    } else if |b| == 1 {
      EncodeOne(b);
      Tail1(b[0]);
    } else if |b| == 2 {
      EncodeTwo(b);
      Tail2(b[0], b[1]);
    } else {
      EncodeQuad(b);
      DecodeEncode(b[3..]);
      Quad(b[0], b[1], b[2], Encode(b[3..]));
    }
  }

  // ---------- what the encoding is, in the terms of RFC 4648 ----------

  /** The alphabet, character by character. */
  lemma Alphabet(v: nat)
    requires v < 64
    ensures v == 0 ==> CharOf(v as byte) as int == '.' as int
    ensures v == 1 ==> CharOf(v as byte) as int == '/' as int
    ensures 2 <= v < 28 ==> CharOf(v as byte) as int == 'A' as int + (v - 2)
    ensures 28 <= v < 54 ==> CharOf(v as byte) as int == 'a' as int + (v - 28)
    ensures 54 <= v ==> CharOf(v as byte) as int == '0' as int + (v - 54)
    ensures PAD as int == '=' as int
  {
  }

  /** The six-bit groups are the 24 bits of three bytes, from the left. */
  lemma Sextets(a: byte, b: byte, c: byte)
    ensures var bits := ((a as bv24) << 16) | ((b as bv24) << 8) | (c as bv24);
            && First(a) as bv24 == bits >> 18
            && Second(a, b) as bv24 == (bits >> 12) & 63
            && Third(b, c) as bv24 == (bits >> 6) & 63
            && Fourth(c) as bv24 == bits & 63
  {
  }

  lemma {:induction false} EncodeAt(b: seq<byte>, g: nat)
    requires 3 * g + 2 < |b|
    ensures |Encode(b)| >= 4 * g + 4
    ensures Encode(b)[4 * g..4 * g + 4] == Bits4(b[3 * g], b[3 * g + 1], b[3 * g + 2])
  {
    EncodeQuad(b);
    if g > 0 {
      EncodeAt(b[3..], g - 1);
      var q, rest := Bits4(b[0], b[1], b[2]), Encode(b[3..]);
      assert (q + rest)[4 * g..4 * g + 4] == rest[4 * (g - 1)..4 * (g - 1) + 4];
    }
  }

  lemma {:induction false} EncodeLength(b: seq<byte>)
    ensures |Encode(b)| == 4 * ((|b| + 2) / 3)
  {
    if |b| > 2 {
      EncodeQuad(b);
      EncodeLength(b[3..]);
    }
  }

  function LastOf(b: seq<byte>): seq<byte>
    requires |b| >= 4
  {
    b[|b| - 4..]
  }

  lemma LastFour(q: seq<byte>, rest: seq<byte>)
    requires |rest| >= 4
    ensures LastOf(q + rest) == LastOf(rest)
  {
  }

  lemma {:induction false} EncodeEndOne(b: seq<byte>, g: nat)
    requires |b| == 3 * g + 1
    ensures |Encode(b)| >= 4 && LastOf(Encode(b)) == Bits2(b[|b| - 1]) + [PAD, PAD]
  {
    if g == 0 {
      EncodeOne(b);
    } else {
      EncodeQuad(b);
      EncodeEndOne(b[3..], g - 1);
      LastFour(Bits4(b[0], b[1], b[2]), Encode(b[3..]));
    }
  }

  lemma {:induction false} EncodeEndTwo(b: seq<byte>, g: nat)
    requires |b| == 3 * g + 2
    ensures |Encode(b)| >= 4 && LastOf(Encode(b)) == Bits3(b[|b| - 2], b[|b| - 1]) + [PAD]
  {
    if g == 0 {
      EncodeTwo(b);
    } else {
      EncodeQuad(b);
      EncodeEndTwo(b[3..], g - 1);
      LastFour(Bits4(b[0], b[1], b[2]), Encode(b[3..]));
    }
  }

  lemma OneLeft(a: byte)
    ensures var bits := (a as bv24) << 16;
            Bits2(a) + [PAD, PAD] ==
            [CharOf((bits >> 18) as byte), CharOf(((bits >> 12) & 63) as byte), '=' as byte, '=' as byte]
  {
    Sextets(a, 0, 0);
  }

  lemma TwoLeft(a: byte, b: byte)
    ensures var bits := ((a as bv24) << 16) | ((b as bv24) << 8);
            Bits3(a, b) + [PAD] ==
            [CharOf((bits >> 18) as byte), CharOf(((bits >> 12) & 63) as byte),
             CharOf(((bits >> 6) & 63) as byte), '=' as byte]
  {
    Sextets(a, b, 0);
  }

  /** The end: one byte left over is filled up with zero bits, and with "=" to four characters. */
  lemma EndSpellsOne(b: seq<byte>)
    requires |b| % 3 == 1
    ensures |Encode(b)| >= 4
    ensures var bits := (b[|b| - 1] as bv24) << 16;
            Encode(b)[|Encode(b)| - 4..] ==
            [CharOf((bits >> 18) as byte), CharOf(((bits >> 12) & 63) as byte), '=' as byte, '=' as byte]
  {
    EncodeEndOne(b, |b| / 3);
    OneLeft(b[|b| - 1]);
  }

  lemma EndSpellsTwo(b: seq<byte>)
    requires |b| % 3 == 2
    ensures |Encode(b)| >= 4
    ensures var bits := ((b[|b| - 2] as bv24) << 16) | ((b[|b| - 1] as bv24) << 8);
            Encode(b)[|Encode(b)| - 4..] ==
            [CharOf((bits >> 18) as byte), CharOf(((bits >> 12) & 63) as byte),
             CharOf(((bits >> 6) & 63) as byte), '=' as byte]
  {
    EncodeEndTwo(b, |b| / 3);
    TwoLeft(b[|b| - 2], b[|b| - 1]);
  }

  /** Whole groups: the characters at 4 * g to 4 * g + 3 spell the 24 bits of the bytes at 3 * g
      to 3 * g + 2. */
  lemma GroupSpells(b: seq<byte>, g: nat)
    requires 3 * g + 2 < |b|
    ensures |Encode(b)| >= 4 * g + 4
    ensures var bits := ((b[3 * g] as bv24) << 16) | ((b[3 * g + 1] as bv24) << 8) | (b[3 * g + 2] as bv24);
            var e := Encode(b)[4 * g..4 * g + 4];
            && e[0] == CharOf((bits >> 18) as byte)
            && e[1] == CharOf(((bits >> 12) & 63) as byte)
            && e[2] == CharOf(((bits >> 6) & 63) as byte)
            && e[3] == CharOf((bits & 63) as byte)
  {
    EncodeAt(b, g);
    Sextets(b[3 * g], b[3 * g + 1], b[3 * g + 2]);
  }

  function Pads(n: nat): seq<byte> {
    seq(n, _ => PAD)
  }

  function Stripped(s: seq<byte>): seq<byte> {
    if s != [] && s[|s| - 1] == PAD then Stripped(s[..|s| - 1]) else s
  }

  /** The two wrappers. */
  function Trimmed(src: seq<byte>): seq<byte> {
    Stripped(Encode(src))
  }

  function Restored(src: seq<byte>): Option<seq<byte>> {
    Decode(src + Pads(4 - |src| % 4))
  }

  lemma {:induction false} StrippedPads(s: seq<byte>, n: nat)
    requires s != [] && s[|s| - 1] != PAD
    ensures Stripped(s + Pads(n)) == s
  {
    if n > 0 {
      StrippedPads(s, n - 1);
      assert (s + Pads(n))[..|s| + n - 1] == s + Pads(n - 1);
    } else {
      assert s + Pads(0) == s;
    }
  }

  lemma TrimmedCases(b: seq<byte>)
    ensures |b| == 1 ==> Trimmed(b) == Bits2(b[0])
    ensures |b| == 2 ==> Trimmed(b) == Bits3(b[0], b[1])
    ensures |b| > 2 ==> Trimmed(b) == Bits4(b[0], b[1], b[2]) + Trimmed(b[3..])
  {
    if |b| == 1 {
      EncodeOne(b);
      StrippedPads(Bits2(b[0]), 2);
      assert Pads(2) == [PAD, PAD];
    } else if |b| == 2 {
      EncodeTwo(b);
      StrippedPads(Bits3(b[0], b[1]), 1);
      assert Pads(1) == [PAD];
    } else if |b| > 2 {
      EncodeQuad(b);
      StrippedAppend(Bits4(b[0], b[1], b[2]), Encode(b[3..]));
    }
  }

  lemma {:induction false} TrimmedLength(b: seq<byte>)
    ensures |Trimmed(b)| == (4 * |b| + 2) / 3
  {
    TrimmedCases(b);
    if |b| > 2 {
      TrimmedLength(b[3..]);
    }
  }

  function MissingPads(n: nat): nat {
    (3 - n % 3) % 3
  }

  lemma ModFour(q: nat, r: nat)
    requires r < 4
    ensures (4 * q + r) % 4 == r
  {
  }

  lemma ThirdsOf(n: nat, q: nat)
    ensures n == 3 * q ==> (4 * n + 2) / 3 == 4 * q
    ensures n == 3 * q + 1 ==> (4 * n + 2) / 3 == 4 * q + 2
    ensures n == 3 * q + 2 ==> (4 * n + 2) / 3 == 4 * q + 3
  {
  }

  /** base64Decode restores exactly the padding that is missing, or four when none is. */
  lemma PadsRestored(n: nat)
    ensures 4 - ((4 * n + 2) / 3) % 4 == (if n % 3 == 0 then 4 else MissingPads(n))
  {
    var q := n / 3;
    assert n == 3 * q + n % 3;
    ThirdsOf(n, q);
    ModFour(q, if n % 3 == 0 then 0 else n % 3 + 1);
  }

  /** What base64Encode leaves: no padding in it, and just enough missing. */
  lemma {:induction false} TrimmedShape(b: seq<byte>)
    ensures Trimmed(b) + Pads(MissingPads(|b|)) == Encode(b)
    decreases |b|
  {
    TrimmedCases(b);
    if |b| > 2 {
      EncodeQuad(b);
      TrimmedShape(b[3..]);
      assert MissingPads(|b|) == MissingPads(|b| - 3);
    } else if |b| == 1 {
      EncodeOne(b);
      assert Pads(2) == [PAD, PAD];
    } else if |b| == 2 {
      EncodeTwo(b);
      assert Pads(1) == [PAD];
    } else {
      assert Pads(0) == [];
    }
  }

  lemma {:induction false} StrippedAppend(q: seq<byte>, s: seq<byte>)
    requires q != [] && q[|q| - 1] != PAD
    ensures Stripped(q + s) == q + Stripped(s)
  {
    if s != [] && s[|s| - 1] == PAD {
      StrippedAppend(q, s[..|s| - 1]);
      assert (q + s)[..|q + s| - 1] == q + s[..|s| - 1];
    } else if s == [] {
      assert q + s == q;
    }
  }

  lemma {:induction false} FourPadsCorrupt(b: seq<byte>)
    requires |b| % 3 == 0
    ensures Decode(Encode(b) + Pads(4)) == None
  {
    if b == [] {
      assert Encode(b) + Pads(4) == Pads(4);
      assert ValueOf(PAD).None?;
    } else {
      FourPadsCorrupt(b[3..]);
      Quad(b[0], b[1], b[2], Encode(b[3..]) + Pads(4));
      assert Encode(b) + Pads(4) == Bits4(b[0], b[1], b[2]) + (Encode(b[3..]) + Pads(4));
    }
  }

  lemma PaddingStep(t: seq<byte>, e: seq<byte>, n: nat)
    requires t + Pads(MissingPads(n)) == e
    requires 4 - |t| % 4 == (if n % 3 == 0 then 4 else MissingPads(n))
    ensures t + Pads(4 - |t| % 4) == if n % 3 == 0 then e + Pads(4) else e
  {
    if n % 3 == 0 {
      assert MissingPads(n) == 0;
      assert t + Pads(0) == t;
    }
  }

  /** What base64Decode hands to the decoder. */
  lemma RestoredInput(b: seq<byte>)
    ensures Trimmed(b) + Pads(4 - |Trimmed(b)| % 4) ==
            if |b| % 3 == 0 then Encode(b) + Pads(4) else Encode(b)
  {
    TrimmedShape(b);
    TrimmedLength(b);
    PadsRestored(|b|);
    PaddingStep(Trimmed(b), Encode(b), |b|);
  }

  /** Decoding gives back what was encoded unless the length is a multiple of 3; then the
      wrappers ask for four padding characters and the input is reported corrupt. */
  lemma RoundTrip(b: seq<byte>)
    ensures Restored(Trimmed(b)) == if |b| % 3 != 0 then Some(b) else None
  {
    RestoredInput(b);
    if |b| % 3 == 0 {
      FourPadsCorrupt(b);
    } else {
      DecodeEncode(b);
    }
  }

  /** base64Encode. On an empty source the original indexes out of range. */
  method Base64Encode(src: seq<byte>) returns (r: seq<byte>)
    requires src != []
    ensures r == Trimmed(src)
  {
    var dst := Encode(src);
    var n := |dst|;
    assert dst[0] != PAD;
    assert dst[..n] == dst;
    while dst[n - 1] == PAD
      invariant 0 < n <= |dst| && dst[0] != PAD
      invariant Stripped(dst[..n]) == Trimmed(src)
      decreases n
    {
      assert dst[..n][..n - 1] == dst[..n - 1];
      n := n - 1;
    }
    r := dst[..n];
  }

  /** base64Decode; None is the decoder's error. */
  method Base64Decode(src: seq<byte>) returns (r: Option<seq<byte>>)
    ensures r == Restored(src)
  {
    var numOfEquals := 4 - |src| % 4;
    var s := src;
    for i := 0 to numOfEquals
      invariant s == src + Pads(i)
    {
      s := s + [PAD];
    }
    r := Decode(s);
  }
}
