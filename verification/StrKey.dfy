/** Stellar account ids of scripts/fixtures.js: CRC16-XModem over the decoded octets and the
    account-id check, as used by Stellar StrKeys (SEP-0023). Registers and octets are written
    as their bits, most significant first. */
module StrKey {
  import opened Base32

  type Register = r: seq<bool> | |r| == 16 witness
    [false, false, false, false, false, false, false, false, false, false, false, false, false, false, false, false]

  const POLYNOMIAL: Register :=  // 0x1021
    [false, false, false, true, false, false, false, false, false, false, true, false, false, false, false, true]

  function Zeros(n: nat): (r: seq<bool>)
    ensures |r| == n && forall i :: 0 <= i < n ==> !r[i]
  {
    seq(n, _ => false)
  }

  const ZERO: Register := Zeros(16)

  const ED25519_PUBLIC_KEY_VERSION: Octet :=  // 6 << 3
    [false, false, true, true, false, false, false, false]

  function Xor(a: seq<bool>, b: seq<bool>): (r: seq<bool>)
    requires |a| == |b|
    ensures |r| == |a|
  {
    seq(|a|, i requires 0 <= i < |a| => a[i] != b[i])
  }

  /** `(crc << 1) & 0xffff`. */
  function ShiftLeft(crc: Register): Register {
    crc[1..] + [false]
  }

  /** `byte << 8`. */
  function Widen(o: Octet): Register {
    o + Zeros(8)
  }

  // ----- CRC16-XModem ------------------------------------------------------------

  /** One of the eight inner iterations. */
  function Shift(crc: Register): Register {
    if crc[0] then Xor(ShiftLeft(crc), POLYNOMIAL) else ShiftLeft(crc)
  }

  function ShiftTimes(crc: Register, n: nat): Register {
    if n == 0 then crc else Shift(ShiftTimes(crc, n - 1))
  }

  function Update(crc: Register, o: Octet): Register {
    ShiftTimes(Xor(crc, Widen(o)), 8)
  }

  function CrcFrom(crc: Register, octets: seq<Octet>): Register {
    if octets == [] then crc else Update(CrcFrom(crc, octets[..|octets| - 1]), octets[|octets| - 1])
  }

  function Crc16(octets: seq<Octet>): Register {
    CrcFrom(ZERO, octets)
  }

  method Crc16Xmodem(octets: seq<Octet>) returns (crc: Register)
    ensures crc == Crc16(octets)
  {
    crc := ZERO;
    for k := 0 to |octets|
      invariant crc == CrcFrom(ZERO, octets[..k])
    {
      assert octets[..k + 1][..k] == octets[..k];
      crc := Xor(crc, Widen(octets[k]));
      ghost var start := crc;
      for i := 0 to 8
        invariant crc == ShiftTimes(start, i)
      {
        crc := if crc[0] then Xor(ShiftLeft(crc), POLYNOMIAL) else ShiftLeft(crc);
      }
    }
    assert octets[..|octets|] == octets;
  }

  // ----- linearity ---------------------------------------------------------------

  lemma ShiftLinear(a: Register, b: Register)
    ensures Shift(Xor(a, b)) == Xor(Shift(a), Shift(b))
  {
    assert Xor(a, b)[0] == (a[0] != b[0]);
    assert ShiftLeft(Xor(a, b)) == Xor(ShiftLeft(a), ShiftLeft(b));
  }

  lemma {:induction false} ShiftTimesLinear(a: Register, b: Register, n: nat)
    ensures ShiftTimes(Xor(a, b), n) == Xor(ShiftTimes(a, n), ShiftTimes(b, n))
  {
    if n > 0 {
      ShiftTimesLinear(a, b, n - 1);
      ShiftLinear(ShiftTimes(a, n - 1), ShiftTimes(b, n - 1));
    }
  }

  lemma UpdateLinear(a: Register, b: Register, x: Octet, y: Octet)
    ensures Update(Xor(a, b), Xor(x, y)) == Xor(Update(a, x), Update(b, y))
  {
    assert Xor(Xor(a, b), Widen(Xor(x, y))) == Xor(Xor(a, Widen(x)), Xor(b, Widen(y)));
    ShiftTimesLinear(Xor(a, Widen(x)), Xor(b, Widen(y)), 8);
  }

  function XorAll(xs: seq<Octet>, ys: seq<Octet>): (r: seq<Octet>)
    requires |xs| == |ys|
    ensures |r| == |xs|
  {
    seq(|xs|, i requires 0 <= i < |xs| => Xor(xs[i], ys[i]))
  }

  /** The checksum of a bytewise xor is the xor of the checksums. */
  lemma {:induction false} CrcLinear(xs: seq<Octet>, ys: seq<Octet>)
    requires |xs| == |ys|
    ensures Crc16(XorAll(xs, ys)) == Xor(Crc16(xs), Crc16(ys))
  {
    if xs != [] {
      var n := |xs| - 1;
      CrcLinear(xs[..n], ys[..n]);
      UpdateLinear(Crc16(xs[..n]), Crc16(ys[..n]), xs[n], ys[n]);
      assert XorAll(xs, ys)[..n] == XorAll(xs[..n], ys[..n]);
    }
  }

  // ----- error detection ---------------------------------------------------------

  /** The polynomial's low bit makes one iteration reversible. */
  lemma ShiftInjective(a: Register, b: Register)
    requires Shift(a) == Shift(b)
    ensures a == b
  {
    assert Shift(a)[15] == a[0] && Shift(b)[15] == b[0];
    forall i | 1 <= i < 16 ensures a[i] == b[i] {
      assert ShiftLeft(a)[i - 1] == a[i] && ShiftLeft(b)[i - 1] == b[i];
      assert Shift(a)[i - 1] == Shift(b)[i - 1];
    }
  }

  lemma {:induction false} ShiftTimesInjective(a: Register, b: Register, n: nat)
    requires ShiftTimes(a, n) == ShiftTimes(b, n)
    ensures a == b
  {
    if n > 0 {
      ShiftInjective(ShiftTimes(a, n - 1), ShiftTimes(b, n - 1));
      ShiftTimesInjective(a, b, n - 1);
    }
  }

  lemma XorCancels(a: seq<bool>, b: seq<bool>, c: seq<bool>)
    requires |a| == |b| == |c| && Xor(a, c) == Xor(b, c)
    ensures a == b
  {
    forall i | 0 <= i < |a| ensures a[i] == b[i] {
      assert Xor(a, c)[i] == Xor(b, c)[i];
    }
  }

  /** The same octets never merge two different registers. */
  lemma {:induction false} CrcFromInjective(a: Register, b: Register, octets: seq<Octet>)
    requires CrcFrom(a, octets) == CrcFrom(b, octets)
    ensures a == b
  {
    if octets != [] {
      var n := |octets| - 1;
      var s, t, w := CrcFrom(a, octets[..n]), CrcFrom(b, octets[..n]), Widen(octets[n]);
      ShiftTimesInjective(Xor(s, w), Xor(t, w), 8);
      XorCancels(s, t, w);
      CrcFromInjective(a, b, octets[..n]);
    }
  }

  lemma {:induction false} CrcFromConcat(crc: Register, xs: seq<Octet>, ys: seq<Octet>)
    ensures CrcFrom(crc, xs + ys) == CrcFrom(CrcFrom(crc, xs), ys)
  {
    if ys == [] {
      assert xs + ys == xs;
    } else {
      var n := |ys| - 1;
      CrcFromConcat(crc, xs, ys[..n]);
      assert (xs + ys)[..|xs + ys| - 1] == xs + ys[..n];
    }
  }

  /** With no bit in the top `n` places, `n` iterations just move the register. */
  lemma {:induction false} ShiftsMoveLowBits(crc: Register, n: nat)
    requires n <= 16 && forall i :: 0 <= i < n ==> !crc[i]
    ensures ShiftTimes(crc, n) == crc[n..] + Zeros(n)
  {
    if n > 0 {
      ShiftsMoveLowBits(crc, n - 1);
      assert ShiftTimes(crc, n - 1)[0] == crc[n - 1];
    }
  }

  lemma NoOverlap(d: Octet, e: Octet)
    requires Widen(d) == Zeros(8) + e
    ensures d == Zeros(8) && e == Zeros(8)
  {
    assert d == Widen(d)[..8] && (Zeros(8) + e)[..8] == Zeros(8);
    assert Widen(d)[8..] == Zeros(8) && (Zeros(8) + e)[8..] == e;
  }

  lemma NoDifference(x: seq<bool>, y: seq<bool>)
    requires |x| == |y| && Xor(x, y) == Zeros(|x|)
    ensures x == y
  {
    forall i | 0 <= i < |x| ensures x[i] == y[i] {
      assert Xor(x, y)[i] == Zeros(|x|)[i];
    }
  }

  lemma MoveAcross(s: Register, t: Register, u: Register, v: Register)
    requires Xor(s, u) == Xor(t, v)
    ensures Xor(s, t) == Xor(u, v)
  {
    forall i | 0 <= i < 16 ensures (s[i] != t[i]) == (u[i] != v[i]) {
      assert Xor(s, u)[i] == Xor(t, v)[i];
    }
  }

  /** From one register, two different octet pairs always lead to different registers. */
  lemma TwoOctetsInjective(crc: Register, x: Octet, y: Octet, x': Octet, y': Octet)
    requires Update(Update(crc, x), y) == Update(Update(crc, x'), y')
    ensures x == x' && y == y'
  {
    var s, t := Update(crc, x), Update(crc, x');
    ShiftTimesInjective(Xor(s, Widen(y)), Xor(t, Widen(y')), 8);
    var d, e := Xor(x, x'), Xor(y, y');
    UpdateLinear(crc, crc, x, x');
    assert Xor(crc, crc) == ZERO;
    assert Xor(ZERO, Widen(d)) == Widen(d);
    MoveAcross(s, t, Widen(y), Widen(y'));
    assert Xor(Widen(y), Widen(y')) == Widen(e);
    var low: Register := Zeros(8) + e;
    ShiftsMoveLowBits(low, 8);
    assert low[8..] == e;
    ShiftTimesInjective(Widen(d), low, 8);
    NoOverlap(d, e);
    NoDifference(x, x');
    NoDifference(y, y');
  }

  lemma PairUpdate(s: Register, xs: seq<Octet>)
    requires |xs| == 2
    ensures CrcFrom(s, xs) == Update(Update(s, xs[0]), xs[1])
  {
    var first := xs[..1];
    assert first[..0] == [];
    assert CrcFrom(s, first) == Update(CrcFrom(s, []), first[0]);
  }

  lemma ShortRunInjective(s: Register, xs: seq<Octet>, ys: seq<Octet>)
    requires 1 <= |xs| == |ys| <= 2 && CrcFrom(s, xs) == CrcFrom(s, ys)
    ensures xs == ys
  {
    if |xs| == 1 {
      assert xs[..0] == [] && ys[..0] == [];
      var o: Octet := Zeros(8);
      TwoOctetsInjective(s, xs[0], o, ys[0], o);
    } else {
      PairUpdate(s, xs);
      PairUpdate(s, ys);
      TwoOctetsInjective(s, xs[0], xs[1], ys[0], ys[1]);
    }
  }

  /** Octet strings of one length that differ only within octets `p` and `p + 1` have different
      checksums, whatever the length. */
  lemma CrcDetectsAdjacent(xs: seq<Octet>, ys: seq<Octet>, p: nat)
    requires |xs| == |ys| && p < |xs| && xs != ys
    requires forall i :: 0 <= i < |xs| && i != p && i != p + 1 ==> xs[i] == ys[i]
    ensures Crc16(xs) != Crc16(ys)
  {
    var q := if p + 1 < |xs| then p + 2 else p + 1;
    var s := CrcFrom(ZERO, xs[..p]);
    assert xs[..p] == ys[..p] && xs[q..] == ys[q..];
    assert xs == xs[..p] + xs[p..q] + xs[q..] && ys == ys[..p] + ys[p..q] + ys[q..];
    CrcFromConcat(ZERO, xs[..p] + xs[p..q], xs[q..]);
    CrcFromConcat(ZERO, ys[..p] + ys[p..q], ys[q..]);
    CrcFromConcat(ZERO, xs[..p], xs[p..q]);
    CrcFromConcat(ZERO, ys[..p], ys[p..q]);
    if Crc16(xs) == Crc16(ys) {
      CrcFromInjective(CrcFrom(s, xs[p..q]), CrcFrom(s, ys[p..q]), xs[q..]);
      ShortRunInjective(s, xs[p..q], ys[p..q]);
    }
  }

  function Join(high: Octet, low: Octet): Register {
    var h: seq<bool> := high;
    h + low
  }

  /** Feeding a checksum back, high octet first, empties the register; nothing else does. */
  lemma CrcResidue(xs: seq<Octet>, high: Octet, low: Octet)
    ensures Crc16(xs + [high, low]) == ZERO <==> Crc16(xs) == Join(high, low)
  {
    var c := Join(high, low);
    var zeros: Register := Zeros(8) + low;
    assert Xor(c, Widen(high)) == zeros;
    ShiftsMoveLowBits(zeros, 8);
    assert zeros[8..] == low;
    assert Xor(Widen(low), Widen(low)) == ZERO;
    ShiftsMoveLowBits(ZERO, 8);
    assert ZERO[8..] + Zeros(8) == ZERO;
    PairUpdate(c, [high, low]);
    CrcFromConcat(ZERO, xs, [high, low]);
    if Crc16(xs + [high, low]) == ZERO {
      CrcFromInjective(Crc16(xs), c, [high, low]);
    }
  }

  // ----- account ids -------------------------------------------------------------

  /** `/^G[A-Z2-7]{55}$/`. */
  predicate LooksLikeAccountId(value: string) {
    |value| == 56 && value[0] == 'G' && IsBase32(value)
  }

  /** `readUInt16LE(33)`: octet 34 is the high half. */
  function ChecksumField(decoded: seq<Octet>): Register
    requires |decoded| == 35
  {
    Join(decoded[34], decoded[33])
  }

  predicate Valid(value: string) {
    && LooksLikeAccountId(value)
    && var decoded := Decoded(value);
       && |decoded| == 35
       && decoded[0] == ED25519_PUBLIC_KEY_VERSION
       && Crc16(decoded[..33]) == ChecksumField(decoded)
  }

  method IsValidStellarPublicKey(value: string) returns (r: bool)
    ensures r <==> Valid(value)
  {
    if !(|value| == 56 && value[0] == 'G' && IsBase32(value)) { return false; }
    var result := Base32Decode(value);
    if result.None? || |result.value| != 35 { return false; }
    var decoded := result.value;
    if decoded[0] != ED25519_PUBLIC_KEY_VERSION { return false; }
    var crc := Crc16Xmodem(decoded[..33]);
    return crc == ChecksumField(decoded);
  }

  // ----- one wrong character -----------------------------------------------------

  /** Bit `p` of the stream is bit `p % 5` of character `p / 5`. */
  lemma {:induction false} StreamBitAt(s: string, p: nat)
    requires IsBase32(s) && p < 5 * |s|
    ensures Stream(s)[p] == CharBits(s[p / 5])[p % 5]
  {
    var n := |s| - 1;
    if p < 5 * n {
      StreamBitAt(s[..n], p);
    } else {
      assert p / 5 == n && p % 5 == p - 5 * n;
    }
  }

  lemma {:induction false} SmallNumbers(a: nat, b: nat, n: nat)
    requires a < Pow2(n) && b < Pow2(n) && LowBits(a, n) == LowBits(b, n)
    ensures a == b
  {
    if n > 0 {
      var s, t := LowBits(a, n), LowBits(b, n);
      assert s[n - 1] == (a % 2 == 1) && t[n - 1] == (b % 2 == 1);
      assert s[..n - 1] == LowBits(a / 2, n - 1) && t[..n - 1] == LowBits(b / 2, n - 1);
      SmallNumbers(a / 2, b / 2, n - 1);
    }
  }

  lemma CharBitsInjective(c: char, d: char)
    requires InAlphabet(c) && InAlphabet(d) && CharBits(c) == CharBits(d)
    ensures c == d
  {
    IndexOfAlphabet(c);
    IndexOfAlphabet(d);
    SmallNumbers(IndexOf(c), IndexOf(d), 5);
    SmallPowers();
    IndexOfInjective(c, d);
  }

  /** Replacing character `i` changes only bits 5i to 5i+4 of the stream, and at least one of them. */
  lemma OneCharacterBits(v: string, i: nat, c: char) returns (p: nat)
    requires IsBase32(v) && i < |v| && InAlphabet(c) && c != v[i]
    ensures IsBase32(v[i := c])
    ensures forall q :: 0 <= q < 5 * |v| && q / 5 != i ==> Stream(v)[q] == Stream(v[i := c])[q]
    ensures p / 5 == i && Stream(v)[p] != Stream(v[i := c])[p]
  {
    var w := v[i := c];
    forall q | 0 <= q < 5 * |v| && q / 5 != i ensures Stream(v)[q] == Stream(w)[q] {
      StreamBitAt(v, q);
      StreamBitAt(w, q);
    }
    if CharBits(c) == CharBits(v[i]) {
      CharBitsInjective(c, v[i]);
    }
    var b :| 0 <= b < 5 && CharBits(c)[b] != CharBits(v[i])[b];
    p := 5 * i + b;
    StreamBitAt(v, p);
    StreamBitAt(w, p);
  }

  lemma OctetOutside(bits: seq<bool>, bits': seq<bool>, i: nat, k: nat)
    requires |bits| == |bits'| == 280 && k < 35 && k != 5 * i / 8 && k != 5 * i / 8 + 1
    requires forall q :: 0 <= q < 280 && q / 5 != i ==> bits[q] == bits'[q]
    ensures bits[8 * k..8 * k + 8] == bits'[8 * k..8 * k + 8]
  {
    forall q | 8 * k <= q < 8 * k + 8 ensures bits[q] == bits'[q] {
      assert q / 5 != i;
    }
  }

  lemma OctetsDiffer(bits: seq<bool>, bits': seq<bool>, p: nat)
    requires |bits| == |bits'| == 280 && p < 280 && bits[p] != bits'[p]
    ensures Octets(bits) != Octets(bits')
  {
    assert Octets(bits)[p / 8][p % 8] == bits[p] && Octets(bits')[p / 8][p % 8] == bits'[p];
  }

  lemma StraddleBits(bits: seq<bool>, bits': seq<bool>)
    requires |bits| == |bits'| == 280
    requires forall q :: 0 <= q < 280 && q / 5 != 52 ==> bits[q] == bits'[q]
    ensures var d, e := Octets(bits), Octets(bits');
            d[34] == e[34] && d[32][..4] == e[32][..4] && d[33][1..] == e[33][1..]
  {
    assert bits[256..260] == bits'[256..260];
    assert bits[265..272] == bits'[265..272];
    assert bits[272..280] == bits'[272..280];
    assert Octets(bits)[32][..4] == bits[256..260] && Octets(bits')[32][..4] == bits'[256..260];
    assert Octets(bits)[33][1..] == bits[265..272] && Octets(bits')[33][1..] == bits'[265..272];
  }

  /** Octets `5i/8` and the next are the only ones a character can reach. */
  lemma OneCharacterOctets(v: string, i: nat, c: char)
    requires IsBase32(v) && |v| == 56 && i < 56 && InAlphabet(c) && c != v[i]
    ensures IsBase32(v[i := c])
    ensures var d, e := Decoded(v), Decoded(v[i := c]);
            && |d| == |e| == 35 && d != e
            && (forall k :: 0 <= k < 35 && k != 5 * i / 8 && k != 5 * i / 8 + 1 ==> d[k] == e[k])
            && (i == 52 ==> d[34] == e[34] && d[32][..4] == e[32][..4] && d[33][1..] == e[33][1..])
  {
    var w := v[i := c];
    var p := OneCharacterBits(v, i, c);
    var bits, bits' := Stream(v), Stream(w);
    forall k | 0 <= k < 35 && k != 5 * i / 8 && k != 5 * i / 8 + 1 ensures Octets(bits)[k] == Octets(bits')[k] {
      OctetOutside(bits, bits', i, k);
    }
    OctetsDiffer(bits, bits', p);
    if i == 52 {
      StraddleBits(bits, bits');
    }
  }

  /** The top of the register after one iteration: bit 12 of the polynomial is its only high bit. */
  lemma TopOfShift(r: Register)
    ensures var s := Shift(r);
            && s[0] == r[1] && s[1] == r[2] && s[2] == r[3] && s[3] == (r[4] != r[0])
            && s[4] == r[5] && s[5] == r[6] && s[6] == r[7]
  {
  }

  /** Eight iterations bring a low nibble back up to the top four places of the register. */
  lemma NibbleReachesTop(d: Octet)
    requires !d[0] && !d[1] && !d[2] && !d[3]
    ensures ShiftTimes(Widen(d), 8)[..4] == d[4..]
  {
    var r := Widen(d);
    ShiftsMoveLowBits(r, 4);
    assert ShiftTimes(r, 4) == d[4..] + Zeros(12);
    TopOfShift(ShiftTimes(r, 4));
    TopOfShift(ShiftTimes(r, 5));
    TopOfShift(ShiftTimes(r, 6));
    TopOfShift(ShiftTimes(r, 7));
  }

  /** The payload and the checksum field make up the octets. */
  lemma ChecksumFieldInjective(d: seq<Octet>, e: seq<Octet>)
    requires |d| == |e| == 35 && d[..33] == e[..33] && ChecksumField(d) == ChecksumField(e)
    ensures d == e
  {
    assert d[34] == ChecksumField(d)[..8] && e[34] == ChecksumField(e)[..8];
    assert d[33] == ChecksumField(d)[8..] && e[33] == ChecksumField(e)[8..];
    assert d == d[..33] + [d[33], d[34]] && e == e[..33] + [e[33], e[34]];
  }

  lemma StraddleUnchanged(d: seq<Octet>, e: seq<Octet>)
    requires |d| == |e| == 35
    requires forall k :: 0 <= k < 32 ==> d[k] == e[k]
    requires d[34] == e[34] && d[32][..4] == e[32][..4]
    requires Crc16(d[..33]) == ChecksumField(d) && Crc16(e[..33]) == ChecksumField(e)
    ensures d == e
  {
    var s, x := CrcFrom(ZERO, d[..32]), Xor(d[32], e[32]);
    assert d[..33][..32] == d[..32] && e[..33][..32] == d[..32];
    UpdateLinear(s, s, d[32], e[32]);
    assert Xor(s, s) == ZERO && Xor(ZERO, Widen(x)) == Widen(x);
    assert Xor(ChecksumField(d), ChecksumField(e)) == ShiftTimes(Widen(x), 8);
    forall j | 0 <= j < 4 ensures !x[j] {
      assert d[32][j] == d[32][..4][j] && e[32][j] == e[32][..4][j];
    }
    NibbleReachesTop(x);
    forall j | 4 <= j < 8 ensures !x[j] {
      assert Xor(ChecksumField(d), ChecksumField(e))[j - 4] == (d[34][j - 4] != e[34][j - 4]);
      assert ShiftTimes(Widen(x), 8)[..4][j - 4] == x[4..][j - 4];
    }
    assert x == Zeros(8);
    NoDifference(d[32], e[32]);
    assert d[..33] == e[..33];
    ChecksumFieldInjective(d, e);
  }

  /** Around the border: four bits end the payload, and the low checksum octet follows. */
  lemma StraddleDetected(d: seq<Octet>, e: seq<Octet>)
    requires |d| == |e| == 35 && d != e
    requires forall k :: 0 <= k < 32 ==> d[k] == e[k]
    requires d[34] == e[34] && d[32][..4] == e[32][..4]
    requires Crc16(d[..33]) == ChecksumField(d)
    ensures Crc16(e[..33]) != ChecksumField(e)
  {
    if Crc16(e[..33]) == ChecksumField(e) {
      StraddleUnchanged(d, e);
    }
  }

  /** Changing any one character of a valid account id makes the check reject it. */
  lemma OneWrongCharacterRejected(v: string, i: nat, c: char)
    requires Valid(v) && i < |v| && c != v[i]
    ensures !Valid(v[i := c])
  {
    if InAlphabet(c) {
      OneCharacterOctets(v, i, c);
      var d, e := Decoded(v), Decoded(v[i := c]);
      var p := 5 * i / 8;
      if p == 32 {
        assert i == 52;
        StraddleDetected(d, e);
      } else if p < 32 {
        assert d[33] == e[33] && d[34] == e[34];
        assert d[..33] != e[..33] by {
          assert d == d[..33] + [d[33], d[34]] && e == e[..33] + [e[33], e[34]];
        }
        CrcDetectsAdjacent(d[..33], e[..33], p);
      } else {
        assert d[..33] == e[..33];
        if ChecksumField(d) == ChecksumField(e) {
          ChecksumFieldInjective(d, e);
        }
      }
    } else {
      assert v[i := c][i] == c;
    }
  }
}
