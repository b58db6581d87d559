// The hash format of lab1/det_bcrypt/det_bcrypt.go: printing, parsing, and the three public
// operations built on them. The Blowfish cipher is an arbitrary deterministic function.
module DetBcrypt {
  import opened Util
  import Base64

  const DOLLAR: byte := 36
  const ZERO: byte := 48
  const NINE: byte := 57
  const PLUS: byte := 43
  const MINUS: byte := 45
  const MAJOR_VERSION: byte := 50  // '2'
  const MINOR_VERSION: byte := 97  // 'a'
  const LETTER_A: byte := 97
  const MIN_COST := 1
  const MAX_COST := 31
  const DEFAULT_COST := 10
  const MAX_SALT_SIZE := 16
  const MAX_CRYPTED_HASH_SIZE := 23
  const ENCODED_SALT_SIZE := 22
  const ENCODED_HASH_SIZE := 31
  const MIN_HASH_SIZE := 59

  datatype Error =
    | HashTooShort
    | InvalidHashPrefix(c: byte)
    | HashVersionTooNew(c: byte)
    | BadNumber
    | InvalidCost(cost: int)
    | CorruptInput
    | Mismatch

  /** minor 0 means that the string has no minor version. */
  datatype Record = Record(hash: seq<byte>, salt: seq<byte>, cost: int, major: byte, minor: byte)

  // ---------- numbers ----------

  function Digit(d: nat): (c: byte)
    requires d < 10
    ensures IsDigit(c)
  {
    if d == 0 then 48 else if d == 1 then 49 else if d == 2 then 50 else if d == 3 then 51
    else if d == 4 then 52 else if d == 5 then 53 else if d == 6 then 54 else if d == 7 then 55
    else if d == 8 then 56 else 57
  }

  function DigitValue(c: byte): (v: nat)
    requires IsDigit(c)
    ensures v < 10 && Digit(v) == c
  {
    if c == 48 then 0 else if c == 49 then 1 else if c == 50 then 2 else if c == 51 then 3
    else if c == 52 then 4 else if c == 53 then 5 else if c == 54 then 6 else if c == 55 then 7
    else if c == 56 then 8 else 9
  }

  lemma DigitBack(d: nat)
    requires d < 10
    ensures IsDigit(Digit(d)) && DigitValue(Digit(d)) == d
  {
  }

  function Decimal(n: nat): (r: seq<byte>)
    ensures |r| >= 1 && (n >= 10 ==> |r| >= 2)
  {
    if n < 10 then [Digit(n)] else Decimal(n / 10) + [Digit(n % 10)]
  }

  /** Sprintf("%02d", n). */
  function TwoDigits(n: int): (r: seq<byte>)
    ensures |r| >= 2
  {
    if n < 0 then [MINUS] + Decimal(-n)
    else if n < 10 then [ZERO] + Decimal(n)
    else Decimal(n)
  }

  predicate IsDigit(c: byte) {
    ZERO <= c <= NINE
  }

  /** strconv.Atoi on two bytes: two digits, or a sign and a digit. */
  function Atoi2(a: byte, b: byte): Option<int> {
    if !IsDigit(b) then None
    else if a == PLUS then Some(DigitValue(b) as int)
    else if a == MINUS then Some(0 - DigitValue(b) as int)
    else if IsDigit(a) then Some(DigitValue(a) * 10 + DigitValue(b))
    else None
  }

  predicate CostOk(cost: int) {
    MIN_COST <= cost <= MAX_COST
  }

  lemma TwoDigitsAre(cost: int)
    requires 0 <= cost < 100
    ensures TwoDigits(cost) == [Digit(cost / 10), Digit(cost % 10)]
  {
    if cost >= 10 {
      assert Decimal(cost / 10) == [Digit(cost / 10)];
    }
  }

  lemma TwoDigitsLength(cost: int)
    requires CostOk(cost)
    ensures |TwoDigits(cost)| == 2 && TwoDigits(cost)[..2] == TwoDigits(cost)
  {
    TwoDigitsAre(cost);
  }

  lemma TwoDigitsBack(cost: int)
    requires CostOk(cost)
    ensures |TwoDigits(cost)| == 2
    ensures Atoi2(TwoDigits(cost)[0], TwoDigits(cost)[1]) == Some(cost)
    ensures IsDigit(TwoDigits(cost)[0]) && IsDigit(TwoDigits(cost)[1])
  {
    TwoDigitsAre(cost);
    DigitBack(cost / 10);
    DigitBack(cost % 10);
  }

  // ---------- printing and parsing ----------

  /** The first n bytes of s, filled up with zero bytes. */
  function Fit(s: seq<byte>, n: nat): (r: seq<byte>)
    ensures |r| == n
  {
    if |s| >= n then s[..n] else s + seq(n - |s|, _ => 0)
  }

  function Front(p: Record): seq<byte> {
    [DOLLAR, p.major] + (if p.minor != 0 then [p.minor] else [])
  }

  /** What Hash prints for a record with a salt of the right size. */
  function Printed(p: Record): seq<byte>
    requires |p.salt| == ENCODED_SALT_SIZE
  {
    Front(p) + [DOLLAR] + TwoDigits(p.cost)[..2] + [DOLLAR] + p.salt + Fit(p.hash, ENCODED_HASH_SIZE)
  }

  /** newFromHash. After the cost, and after a minor version, one byte is skipped unseen. */
  function Parsed(s: seq<byte>): Result<Record, Error> {
    if |s| < MIN_HASH_SIZE then Err(HashTooShort)
    else if s[0] != DOLLAR then Err(InvalidHashPrefix(s[0]))
    else if s[1] > MAJOR_VERSION then Err(HashVersionTooNew(s[1]))
    else
      var minor := if s[2] != DOLLAR then s[2] else 0;
      var n := if s[2] != DOLLAR then 4 else 3;
      var cost := Atoi2(s[n], s[n + 1]);
      if cost.None? then Err(BadNumber)
      else if !CostOk(cost.value) then Err(InvalidCost(cost.value))
      else Ok(Record(s[n + 25..], s[n + 3..n + 25], cost.value, s[1], minor))
  }

  lemma PrintedAt(p: Record)
    requires |p.salt| == ENCODED_SALT_SIZE
    ensures var s := Printed(p);
            var n := |Front(p)| + 1;
            && |s| == n + 56 && s[0] == DOLLAR && s[1] == p.major
            && s[2] == (if p.minor != 0 then p.minor else DOLLAR)
            && s[n - 1] == DOLLAR && s[n..n + 2] == TwoDigits(p.cost)[..2] && s[n + 2] == DOLLAR
            && s[n + 3..n + 25] == p.salt && s[n + 25..] == Fit(p.hash, ENCODED_HASH_SIZE)
  {
  }

  /** Parsing gives back a printed record exactly when its cost is in range, its major version
      is at most '2' and its minor version is not '$'. */
  lemma ParsePrinted(p: Record)
    requires |p.salt| == ENCODED_SALT_SIZE && |p.hash| == ENCODED_HASH_SIZE
    ensures Parsed(Printed(p)) == Ok(p) <==> CostOk(p.cost) && p.major <= MAJOR_VERSION && p.minor != DOLLAR
  {
    var s := Printed(p);
    PrintedAt(p);
    assert Fit(p.hash, ENCODED_HASH_SIZE) == p.hash;
    if CostOk(p.cost) {
      TwoDigitsBack(p.cost);
      var n := |Front(p)| + 1;
      assert s[n] == s[n..n + 2][0] && s[n + 1] == s[n..n + 2][1];
    }
  }

  /** Whatever string was accepted, its record prints to a string that parses, and from then
      on printing and parsing change nothing. */
  lemma ReprintIdempotent(s: seq<byte>)
    requires Parsed(s).Ok?
    ensures |Parsed(s).value.salt| == ENCODED_SALT_SIZE
    ensures var once := Printed(Parsed(s).value);
            && Parsed(once) == Ok(Parsed(s).value.(hash := Fit(Parsed(s).value.hash, ENCODED_HASH_SIZE)))
            && Printed(Parsed(once).value) == once
  {
    var p := Parsed(s).value;
    var q := p.(hash := Fit(p.hash, ENCODED_HASH_SIZE));
    assert Printed(q) == Printed(p);
    ParsePrinted(q);
  }

  /** The strings that printing produces: right length, separators in place, and the cost
      written with two digits. */
  predicate Canonical(s: seq<byte>)
    requires |s| >= MIN_HASH_SIZE
  {
    if s[2] == DOLLAR then |s| == 59 && IsDigit(s[3]) && s[5] == DOLLAR
    else s[2] != 0 && |s| == 60 && s[3] == DOLLAR && IsDigit(s[4]) && s[6] == DOLLAR
  }

  lemma TwoDigitsOnly(a: byte, b: byte)
    requires IsDigit(a) && Atoi2(a, b).Some? && CostOk(Atoi2(a, b).value)
    ensures TwoDigits(Atoi2(a, b).value) == [a, b]
  {
    var x, y := DigitValue(a), DigitValue(b);
    TwoDigitsAre(x * 10 + y);
    assert (x * 10 + y) / 10 == x && (x * 10 + y) % 10 == y;
  }

  lemma Decompose(s: seq<byte>, n: nat)
    requires 3 <= n && |s| >= n + 25 && s[n - 1] == DOLLAR && s[n + 2] == DOLLAR
    ensures s == s[..n - 1] + [DOLLAR] + [s[n], s[n + 1]] + [DOLLAR] + s[n + 3..n + 25] + s[n + 25..]
  {
  }

  lemma CanonicalReprints(s: seq<byte>)
    requires Parsed(s).Ok? && Canonical(s)
    ensures |Parsed(s).value.salt| == ENCODED_SALT_SIZE
    ensures Printed(Parsed(s).value) == s
  {
    var p := Parsed(s).value;
    var n := if s[2] != DOLLAR then 4 else 3;
    Decompose(s, n);
    TwoDigitsOnly(s[n], s[n + 1]);
    assert TwoDigits(p.cost)[..2] == [s[n], s[n + 1]];
    assert Front(p) == s[..n - 1];
    assert Fit(p.hash, ENCODED_HASH_SIZE) == s[n + 25..];
  }

  lemma ReprintedIsCanonical(s: seq<byte>)
    requires Parsed(s).Ok? && |Parsed(s).value.salt| == ENCODED_SALT_SIZE && Printed(Parsed(s).value) == s
    ensures Canonical(s)
  {
    var p := Parsed(s).value;
    PrintedAt(p);
    TwoDigitsBack(p.cost);
    var n := |Front(p)| + 1;
    assert s[n] == s[n..n + 2][0];
  }

  /** An accepted string is reproduced exactly when it is canonical. The parser also accepts
      others, such as a cost written "+5". */
  lemma ReprintsExactlyCanonical(s: seq<byte>)
    requires Parsed(s).Ok?
    ensures |Parsed(s).value.salt| == ENCODED_SALT_SIZE
    ensures Printed(Parsed(s).value) == s <==> Canonical(s)
  {
    if Canonical(s) {
      CanonicalReprints(s);
    }
    if Printed(Parsed(s).value) == s {
      ReprintedIsCanonical(s);
    }
  }

  // ---------- the layout, byte by byte ----------

  lemma DigitIs(d: nat)
    requires d < 10
    ensures Digit(d) as int == '0' as int + d
  {
  }

  lemma DigitValueIs(c: byte)
    requires '0' as int <= c as int <= '9' as int
    ensures IsDigit(c) && DigitValue(c) == c as int - '0' as int
  {
  }

  /** What Hash prints, at each place. */
  lemma PrintedLayout(p: Record)
    requires |p.salt| == 22 && 1 <= p.cost <= 31
    ensures var s := Printed(p);
            var n := if p.minor != 0 then 3 else 2;
            && |s| == n + 57
            && s[0] == '$' as byte && s[1] == p.major && (p.minor != 0 ==> s[2] == p.minor)
            && s[n] == '$' as byte
            && s[n + 1] as int == '0' as int + p.cost / 10 && s[n + 2] as int == '0' as int + p.cost % 10
            && s[n + 3] == '$' as byte
            && s[n + 4..n + 26] == p.salt
            && forall i :: 0 <= i < 31 ==> s[n + 26..][i] == if i < |p.hash| then p.hash[i] else 0
  {
    PrintedAt(p);
    TwoDigitsAre(p.cost);
    DigitIs(p.cost / 10);
    DigitIs(p.cost % 10);
    var s := Printed(p);
    var n := if p.minor != 0 then 3 else 2;
    assert s[n + 1..n + 3] == TwoDigits(p.cost);
    assert s[n + 1] == s[n + 1..n + 3][0] && s[n + 2] == s[n + 1..n + 3][1];
  }

  /** The costs that the parser takes: two digits, or "+" and one, that make 1 to 31. */
  lemma CostRead(a: byte, b: byte)
    ensures Atoi2(a, b).Some? && CostOk(Atoi2(a, b).value) <==>
            && '0' as int <= b as int <= '9' as int
            && (|| ('0' as int <= a as int <= '9' as int &&
                    1 <= 10 * (a as int - '0' as int) + (b as int - '0' as int) <= 31)
                || (a == '+' as byte && b != '0' as byte))
    ensures Atoi2(a, b).Some? && CostOk(Atoi2(a, b).value) ==>
              Atoi2(a, b).value ==
              (if a == '+' as byte then 0 else 10 * (a as int - '0' as int)) + (b as int - '0' as int)
  {
    if '0' as int <= b as int <= '9' as int {
      DigitValueIs(b);
    }
    if '0' as int <= a as int <= '9' as int {
      DigitValueIs(a);
    }
  }

  lemma ParsedAt(s: seq<byte>, n: nat)
    requires |s| >= 59 && n == if s[2] == '$' as byte then 3 else 4
    ensures Parsed(s).Ok? <==>
            && s[0] == '$' as byte && s[1] as int <= '2' as int
            && Atoi2(s[n], s[n + 1]).Some? && CostOk(Atoi2(s[n], s[n + 1]).value)
    ensures Parsed(s).Ok? ==>
              Parsed(s).value == Record(s[n + 25..], s[n + 3..n + 25], Atoi2(s[n], s[n + 1]).value, s[1],
                                        if s[2] == '$' as byte then 0 else s[2])
  {
  }

  /** What newFromHash accepts, the cost standing at n. */
  lemma ParsedAccepts(s: seq<byte>, n: nat)
    requires |s| >= 59 && n == if s[2] == '$' as byte then 3 else 4
    ensures Parsed(s).Ok? <==>
            && s[0] == '$' as byte && s[1] as int <= '2' as int
            && '0' as int <= s[n + 1] as int <= '9' as int
            && (|| ('0' as int <= s[n] as int <= '9' as int &&
                    1 <= 10 * (s[n] as int - '0' as int) + (s[n + 1] as int - '0' as int) <= 31)
                || (s[n] == '+' as byte && s[n + 1] != '0' as byte))
  {
    ParsedAt(s, n);
    CostRead(s[n], s[n + 1]);
  }

  /** The fields that it takes from the string. */
  lemma ParsedFields(s: seq<byte>, n: nat)
    requires |s| >= 59 && n == (if s[2] == '$' as byte then 3 else 4) && Parsed(s).Ok?
    ensures var p := Parsed(s).value;
            && p.major == s[1] && p.minor == (if s[2] == '$' as byte then 0 else s[2])
            && p.cost == (if s[n] == '+' as byte then 0 else 10 * (s[n] as int - '0' as int)) +
                         (s[n + 1] as int - '0' as int)
            && p.salt == s[n + 3..n + 25] && p.hash == s[n + 25..]
  {
    ParsedAt(s, n);
    CostRead(s[n], s[n + 1]);
  }

  /** Its errors, in the order in which they are found. */
  lemma ParseErrors(s: seq<byte>)
    ensures |s| < 59 ==> Parsed(s) == Err(HashTooShort)
    ensures |s| >= 59 && s[0] != '$' as byte ==> Parsed(s) == Err(InvalidHashPrefix(s[0]))
    ensures |s| >= 59 && s[0] == '$' as byte && s[1] as int > '2' as int ==> Parsed(s) == Err(HashVersionTooNew(s[1]))
    ensures |s| >= 59 && s[0] == '$' as byte && s[1] as int <= '2' as int && Parsed(s).Err? ==>
              Parsed(s).error == BadNumber || Parsed(s).error.InvalidCost?
  {
  }

  // ---------- the same on the heap ----------

  function Zeros(n: nat): seq<byte> {
    seq(n, _ => 0)
  }

  /** Go's copy(arr[n:], src): as many elements as fit. */
  method CopyInto(arr: array<byte>, n: nat, src: seq<byte>)
    requires n <= arr.Length
    modifies arr
    ensures var m := if |src| <= arr.Length - n then |src| else arr.Length - n;
            arr[..] == old(arr[..])[..n] + src[..m] + old(arr[..])[n + m..]
  {
    var m := if |src| <= arr.Length - n then |src| else arr.Length - n;
    forall k | 0 <= k < m {
      arr[n + k] := src[k];
    }
  }

  /** The buffer holds front and is zero behind it; copying src extends front. */
  lemma Filled(front: seq<byte>, src: seq<byte>, size: nat)
    requires |front| + |src| <= size
    ensures var was := front + Zeros(size - |front|);
            was[..|front|] + src + was[|front| + |src|..] == front + src + Zeros(size - |front| - |src|)
  {
  }

  class Hashed {
    var hash: seq<byte>
    var salt: seq<byte>
    var cost: int
    var major: byte
    var minor: byte

    ghost function View(): Record
      reads this
    {
      Record(hash, salt, cost, major, minor)
    }

    constructor ()
      ensures View() == Record([], [], 0, 0, 0)
    {
      hash, salt, cost, major, minor := [], [], 0, 0, 0;
    }

    /** One byte behind front. */
    method Put(arr: array<byte>, ghost front: seq<byte>, n: nat, c: byte)
      requires n == |front| && n < arr.Length && arr[..] == front + Zeros(arr.Length - n)
      modifies arr
      ensures arr[..] == front + [c] + Zeros(arr.Length - n - 1)
    {
      arr[n] := c;
    }

    method Version(arr: array<byte>) returns (n: nat)
      requires arr[..] == Zeros(60)
      modifies arr
      ensures n == |Front(View())| && arr[..] == Front(View()) + Zeros(60 - n)
    {
      arr[0] := DOLLAR;
      arr[1] := major;
      n := 2;
      if minor != 0 {
        arr[2] := minor;
        n := 3;
      }
    }

    /** The part of Hash in front of the salt. */
    method Header(arr: array<byte>) returns (n: nat)
      requires CostOk(cost) && arr[..] == Zeros(60)
      modifies arr
      ensures n == |Front(View())| + 4
      ensures arr[..] == Front(View()) + [DOLLAR] + TwoDigits(cost)[..2] + [DOLLAR] + Zeros(60 - n)
    {
      n := Version(arr);
      ghost var front := Front(View());
      Put(arr, front, n, DOLLAR);
      n := n + 1;
      front := front + [DOLLAR];
      TwoDigitsLength(cost);
      Extend(arr, front, n, TwoDigits(cost));
      n := n + 2;
      front := front + TwoDigits(cost)[..2];
      Put(arr, front, n, DOLLAR);
      n := n + 1;
    }

    /** Copies src behind front, where the buffer is still zero. */
    method Extend(arr: array<byte>, ghost front: seq<byte>, n: nat, src: seq<byte>)
      requires n == |front| && n + |src| <= arr.Length && arr[..] == front + Zeros(arr.Length - n)
      modifies arr
      ensures arr[..] == front + src + Zeros(arr.Length - n - |src|)
    {
      CopyInto(arr, n, src);
      Filled(front, src, arr.Length);
    }

    /** Copies the hash behind front, as far as it fits; what is missing stays zero. */
    method ExtendHash(arr: array<byte>, ghost front: seq<byte>, n: nat)
      requires n == |front| && n + ENCODED_HASH_SIZE <= arr.Length && arr[..] == front + Zeros(arr.Length - n)
      modifies arr
      ensures arr[..n + ENCODED_HASH_SIZE] == front + Fit(hash, ENCODED_HASH_SIZE)
    {
      CopyInto(arr, n, hash);
    }

    method Hash() returns (r: seq<byte>)
      requires |salt| == ENCODED_SALT_SIZE && CostOk(cost)
      ensures r == Printed(View())
    {
      var arr := new byte[60](_ => 0);
      assert arr[..] == Zeros(60);
      var n := Header(arr);
      ghost var front := Front(View()) + [DOLLAR] + TwoDigits(cost)[..2] + [DOLLAR];
      Extend(arr, front, n, salt);
      n := n + ENCODED_SALT_SIZE;
      ExtendHash(arr, front + salt, n);
      n := n + ENCODED_HASH_SIZE;
      r := arr[..n];
    }

    /** Ok carries the number of bytes read. */
    method DecodeVersion(s: seq<byte>) returns (r: Result<nat, Error>)
      requires |s| >= 3
      modifies this`major, this`minor
      ensures r.Err? ==> r == (if s[0] != DOLLAR then Err(InvalidHashPrefix(s[0])) else Err(HashVersionTooNew(s[1])))
      ensures r.Ok? <==> s[0] == DOLLAR && s[1] <= MAJOR_VERSION
      ensures r.Ok? ==> r.value == (if s[2] != DOLLAR then 4 else 3) && major == s[1]
      ensures r.Ok? ==> minor == (if s[2] != DOLLAR then s[2] else old(minor))
    {
      if s[0] != DOLLAR {
        return Err(InvalidHashPrefix(s[0]));
      }
      if s[1] > MAJOR_VERSION {
        return Err(HashVersionTooNew(s[1]));
      }
      major := s[1];
      var n := 3;
      if s[2] != DOLLAR {
        minor := s[2];
        n := n + 1;
      }
      r := Ok(n);
    }

    method DecodeCost(s: seq<byte>) returns (r: Result<nat, Error>)
      requires |s| >= 2
      modifies this`cost
      ensures r == match Atoi2(s[0], s[1])
                   case None => Err(BadNumber)
                   case Some(c) => if CostOk(c) then Ok(3) else Err(InvalidCost(c))
      ensures r.Ok? ==> Atoi2(s[0], s[1]) == Some(cost)
    {
      var c := Atoi2(s[0], s[1]);
      if c.None? {
        return Err(BadNumber);
      }
      if !CostOk(c.value) {
        return Err(InvalidCost(c.value));
      }
      cost := c.value;
      r := Ok(3);
    }
  }

  method NewFromHash(hashedSecret: seq<byte>) returns (r: Result<Hashed, Error>)
    ensures Parsed(hashedSecret).Err? ==> r == Err(Parsed(hashedSecret).error)
    ensures Parsed(hashedSecret).Ok? ==> r.Ok? && fresh(r.value) && r.value.View() == Parsed(hashedSecret).value
  {
    var s := hashedSecret;
    if |s| < MIN_HASH_SIZE {
      return Err(HashTooShort);
    }
    var p := new Hashed();
    var n := p.DecodeVersion(s);
    if n.Err? {
      return Err(n.error);
    }
    s := s[n.value..];
    n := p.DecodeCost(s);
    if n.Err? {
      return Err(n.error);
    }
    s := s[n.value..];
    p.salt := s[..ENCODED_SALT_SIZE];
    p.hash := s[ENCODED_SALT_SIZE..];
    r := Ok(p);
  }

  // ---------- the public operations ----------

  /** Byte i of the 24 bytes that Blowfish leaves in cipherData, given the key, the cost and
      the decoded salt. */
  type Cipher = (seq<byte>, int, seq<byte>, nat) -> byte

  /** The 23 bytes that are encoded into the hash. The key ends in a zero byte. */
  function Digest(cipher: Cipher, password: seq<byte>, cost: int, csalt: seq<byte>): seq<byte> {
    seq(MAX_CRYPTED_HASH_SIZE, i requires 0 <= i < MAX_CRYPTED_HASH_SIZE => cipher(password + [0], cost, csalt, i))
  }

  function Bcrypt(cipher: Cipher, password: seq<byte>, cost: int, salt: seq<byte>): Result<seq<byte>, Error> {
    var csalt := Base64.Restored(salt);
    if csalt.None? then Err(CorruptInput) else Ok(Base64.Trimmed(Digest(cipher, password, cost, csalt.value)))
  }

  function FixedSalt(): seq<byte> {
    seq(MAX_SALT_SIZE, _ => LETTER_A)
  }

  function Effective(cost: int): int {
    if cost < MIN_COST then DEFAULT_COST else cost
  }

  function Generate(cipher: Cipher, password: seq<byte>, cost: int): Result<seq<byte>, Error> {
    if !CostOk(Effective(cost)) then Err(InvalidCost(Effective(cost))) else
    var salt := Base64.Trimmed(FixedSalt());
    Base64.TrimmedLength(FixedSalt());
    var hash := Bcrypt(cipher, password, Effective(cost), salt);
    if hash.Err? then Err(hash.error)
    else Ok(Printed(Record(hash.value, salt, Effective(cost), MAJOR_VERSION, MINOR_VERSION)))
  }

  /** None is success. */
  function Compare(cipher: Cipher, hashed: seq<byte>, password: seq<byte>): Option<Error> {
    match Parsed(hashed)
    case Err(e) => Some(e)
    case Ok(p) =>
      match Bcrypt(cipher, password, p.cost, p.salt)
      case Err(e) => Some(e)
      case Ok(other) => if Printed(p) == Printed(p.(hash := other)) then None else Some(Mismatch)
  }

  function Cost(hashed: seq<byte>): Result<int, Error> {
    match Parsed(hashed)
    case Err(e) => Err(e)
    case Ok(p) => Ok(p.cost)
  }

  lemma BcryptSize(cipher: Cipher, password: seq<byte>, cost: int)
    ensures var salt := Base64.Trimmed(FixedSalt());
            && |salt| == ENCODED_SALT_SIZE
            && Bcrypt(cipher, password, cost, salt) ==
               Ok(Base64.Trimmed(Digest(cipher, password, cost, FixedSalt())))
            && |Base64.Trimmed(Digest(cipher, password, cost, FixedSalt()))| == ENCODED_HASH_SIZE
  {
    Base64.TrimmedLength(FixedSalt());
    Base64.RoundTrip(FixedSalt());
    Base64.TrimmedLength(Digest(cipher, password, cost, FixedSalt()));
  }

  lemma TrimmedInjective(a: seq<byte>, b: seq<byte>)
    requires |a| == |b| == MAX_CRYPTED_HASH_SIZE
    ensures Base64.Trimmed(a) == Base64.Trimmed(b) ==> a == b
  {
    Base64.RoundTrip(a);
    Base64.RoundTrip(b);
  }

  lemma PrintedHash(p: Record, other: seq<byte>)
    requires |p.salt| == ENCODED_SALT_SIZE && |p.hash| == |other| == ENCODED_HASH_SIZE
    ensures Printed(p) == Printed(p.(hash := other)) <==> p.hash == other
  {
    PrintedAt(p);
    PrintedAt(p.(hash := other));
    assert Fit(p.hash, ENCODED_HASH_SIZE) == p.hash && Fit(other, ENCODED_HASH_SIZE) == other;
  }

  /** A hash can be generated exactly for costs up to 31. It then reports that cost, or 10 when
      the cost asked for was below 1, and it is matched by exactly the passwords whose 23
      digest bytes are the same; in particular by the password itself. */
  lemma GenerateCompareCost(cipher: Cipher, password: seq<byte>, cost: int, other: seq<byte>)
    ensures Generate(cipher, password, cost).Ok? <==> cost <= MAX_COST
    ensures cost > MAX_COST ==> Generate(cipher, password, cost) == Err(InvalidCost(cost))
    ensures cost <= MAX_COST ==>
              var h := Generate(cipher, password, cost).value;
              && Cost(h) == Ok(if cost < MIN_COST then DEFAULT_COST else cost)
              && Compare(cipher, h, password) == None
              && (Compare(cipher, h, other) == None <==>
                    Digest(cipher, password, Effective(cost), FixedSalt()) ==
                    Digest(cipher, other, Effective(cost), FixedSalt()))
              && (Compare(cipher, h, other) != None ==> Compare(cipher, h, other) == Some(Mismatch))
  {
    if cost <= MAX_COST {
      var c := Effective(cost);
      BcryptSize(cipher, password, c);
      BcryptSize(cipher, other, c);
      var mine := Digest(cipher, password, c, FixedSalt());
      var theirs := Digest(cipher, other, c, FixedSalt());
      var p := Record(Base64.Trimmed(mine), Base64.Trimmed(FixedSalt()), c, MAJOR_VERSION, MINOR_VERSION);
      ParsePrinted(p);
      PrintedHash(p, Base64.Trimmed(theirs));
      TrimmedInjective(mine, theirs);
    }
  }

  /** The same on the cipher itself: with key, cost and salt as bcrypt hands them over, a hash is
      matched by exactly the passwords for which the first 23 cipher bytes are the same. */
  lemma ComparesByCipher(cipher: Cipher, password: seq<byte>, cost: int, other: seq<byte>)
    requires cost <= 31
    ensures Generate(cipher, password, cost).Ok?
    ensures var c := if cost < 1 then 10 else cost;
            var salt := seq(16, _ => 'a' as byte);
            Compare(cipher, Generate(cipher, password, cost).value, other) ==
            if forall i :: 0 <= i < 23 ==> cipher(password + [0], c, salt, i) == cipher(other + [0], c, salt, i)
            then None else Some(Mismatch)
  {
    assert FixedSalt() == seq(16, _ => 'a' as byte);
    GenerateCompareCost(cipher, password, cost, other);
    SameDigest(cipher, password, other, Effective(cost), FixedSalt());
  }

  ghost function Hashing(cipher: Cipher, password: seq<byte>, cost: int): Record {
    Record(Base64.Trimmed(Digest(cipher, password, cost, FixedSalt())), Base64.Trimmed(FixedSalt()), cost,
           MAJOR_VERSION, MINOR_VERSION)
  }

  lemma GeneratedIs(cipher: Cipher, password: seq<byte>, cost: int)
    requires cost <= 31
    ensures var p := Hashing(cipher, password, Effective(cost));
            |p.salt| == 22 && |p.hash| == 31 && Generate(cipher, password, cost) == Ok(Printed(p))
  {
    BcryptSize(cipher, password, Effective(cost));
  }

  /** The hash itself: the header and the sixteen letters "a" encoded, */
  lemma GeneratedHeader(cipher: Cipher, password: seq<byte>, cost: int)
    requires cost <= 31
    ensures Generate(cipher, password, cost).Ok?
    ensures var h := Generate(cipher, password, cost).value;
            var c := if cost < 1 then 10 else cost;
            && |h| == 60
            && h[0] == '$' as byte && h[1] == '2' as byte && h[2] == 'a' as byte && h[3] == '$' as byte
            && h[4] as int == '0' as int + c / 10 && h[5] as int == '0' as int + c % 10 && h[6] == '$' as byte
            && Base64.Restored(h[7..29]) == Some(seq(16, _ => 'a' as byte))
  {
    GeneratedIs(cipher, password, cost);
    GeneratedParts(Hashing(cipher, password, Effective(cost)));
    Base64.RoundTrip(FixedSalt());
    assert FixedSalt() == seq(16, _ => 'a' as byte);
  }

  /** and the 23 cipher bytes encoded. */
  lemma GeneratedDigest(cipher: Cipher, password: seq<byte>, cost: int)
    requires cost <= 31
    ensures Generate(cipher, password, cost).Ok? && |Generate(cipher, password, cost).value| == 60
    ensures var last := Base64.Restored(Generate(cipher, password, cost).value[29..]);
            var c := if cost < 1 then 10 else cost;
            && last.Some? && |last.value| == 23
            && forall i :: 0 <= i < 23 ==>
                 last.value[i] == cipher(password + [0], c, seq(16, _ => 'a' as byte), i)
  {
    var c := Effective(cost);
    GeneratedIs(cipher, password, cost);
    GeneratedParts(Hashing(cipher, password, c));
    var mine := Digest(cipher, password, c, FixedSalt());
    Base64.RoundTrip(mine);
    assert FixedSalt() == seq(16, _ => 'a' as byte);
    assert forall i :: 0 <= i < 23 ==> mine[i] == cipher(password + [0], c, FixedSalt(), i);
  }

  lemma GeneratedParts(p: Record)
    requires |p.salt| == 22 && |p.hash| == 31 && 1 <= p.cost <= 31
    requires p.major == MAJOR_VERSION && p.minor == MINOR_VERSION
    ensures var h := Printed(p);
            && |h| == 60 && h[7..29] == p.salt && h[29..] == p.hash
            && h[0] == '$' as byte && h[1] == '2' as byte && h[2] == 'a' as byte && h[3] == '$' as byte
            && h[4] as int == '0' as int + p.cost / 10 && h[5] as int == '0' as int + p.cost % 10 && h[6] == '$' as byte
  {
    PrintedLayout(p);
    assert Printed(p)[29..] == p.hash;
  }

  lemma SameDigest(cipher: Cipher, password: seq<byte>, other: seq<byte>, cost: int, salt: seq<byte>)
    ensures Digest(cipher, password, cost, salt) == Digest(cipher, other, cost, salt) <==>
            forall i :: 0 <= i < 23 ==> cipher(password + [0], cost, salt, i) == cipher(other + [0], cost, salt, i)
  {
    var mine, theirs := Digest(cipher, password, cost, salt), Digest(cipher, other, cost, salt);
    assert forall i :: 0 <= i < 23 ==> mine[i] == cipher(password + [0], cost, salt, i);
    assert forall i :: 0 <= i < 23 ==> theirs[i] == cipher(other + [0], cost, salt, i);
  }

  /** Comparing with any string: it must parse, its salt must decode, and its hash must begin
      with the encoded 23 cipher bytes of the password. */
  lemma CompareDecides(cipher: Cipher, hashed: seq<byte>, password: seq<byte>)
    ensures Parsed(hashed).Err? ==> Compare(cipher, hashed, password) == Some(Parsed(hashed).error)
    ensures Parsed(hashed).Ok? && Base64.Restored(Parsed(hashed).value.salt).None? ==>
              Compare(cipher, hashed, password) == Some(CorruptInput)
    ensures Parsed(hashed).Ok? && Base64.Restored(Parsed(hashed).value.salt).Some? ==>
              var p := Parsed(hashed).value;
              var salt := Base64.Restored(p.salt).value;
              var bytes := seq(23, i requires 0 <= i < 23 => cipher(password + [0], p.cost, salt, i));
              && |Base64.Trimmed(bytes)| == 31
              && Compare(cipher, hashed, password) ==
                 if forall i :: 0 <= i < 31 ==> (if i < |p.hash| then p.hash[i] else 0) == Base64.Trimmed(bytes)[i]
                 then None else Some(Mismatch)
  {
    if Parsed(hashed).Ok? && Base64.Restored(Parsed(hashed).value.salt).Some? {
      var p := Parsed(hashed).value;
      var salt := Base64.Restored(p.salt).value;
      var bytes := seq(23, i requires 0 <= i < 23 => cipher(password + [0], p.cost, salt, i));
      assert Digest(cipher, password, p.cost, salt) == bytes;
      Base64.TrimmedLength(bytes);
      SamePrinted(p, Base64.Trimmed(bytes));
    }
  }

  lemma SamePrinted(p: Record, other: seq<byte>)
    requires |p.salt| == ENCODED_SALT_SIZE && |other| == 31
    ensures Printed(p) == Printed(p.(hash := other)) <==>
            forall i :: 0 <= i < 31 ==> (if i < |p.hash| then p.hash[i] else 0) == other[i]
  {
    PrintedAt(p);
    PrintedAt(p.(hash := other));
    assert Fit(other, 31) == other;
  }
}
