/** Errors wider than one character in Stellar account ids: CRC16-XModem finds every change within
    sixteen consecutive bits, and so the account-id check finds every change of two adjacent
    characters, across the border between payload and checksum included. */
module StrKeyBursts {
  import opened Base32
  import opened StrKey

  // ----- moving bits through the register ----------------------------------------

  lemma {:induction false} ShiftTimesAdd(crc: Register, m: nat, n: nat)
    ensures ShiftTimes(crc, m + n) == ShiftTimes(ShiftTimes(crc, m), n)
  {
    if n > 0 {
      ShiftTimesAdd(crc, m, n - 1);
    }
  }

  lemma ShiftsOfZero(n: nat)
    ensures ShiftTimes(ZERO, n) == ZERO
  {
    if n > 0 {
      ShiftsOfZero(n - 1);
      assert ShiftLeft(ZERO) == ZERO;
    }
  }

  lemma OnlyZeroShiftsToZero(crc: Register, n: nat)
    requires ShiftTimes(crc, n) == ZERO
    ensures crc == ZERO
  {
    ShiftsOfZero(n);
    ShiftTimesInjective(crc, ZERO, n);
  }

  lemma UpdateSplits(crc: Register, o: Octet)
    ensures Update(crc, o) == Xor(ShiftTimes(crc, 8), ShiftTimes(Widen(o), 8))
  {
    ShiftTimesLinear(crc, Widen(o), 8);
  }

  lemma UpdateFromZero(o: Octet)
    ensures Update(ZERO, o) == ShiftTimes(Widen(o), 8)
  {
    assert Xor(ZERO, Widen(o)) == Widen(o);
  }

  lemma TwoUpdates(x: Octet, y: Octet)
    ensures Update(Update(ZERO, x), y) == Xor(ShiftTimes(Widen(x), 16), ShiftTimes(Widen(y), 8))
  {
    UpdateFromZero(x);
    UpdateSplits(Update(ZERO, x), y);
    ShiftTimesAdd(Widen(x), 8, 8);
  }

  lemma ThreeUpdates(x: Octet, y: Octet, z: Octet)
    ensures Update(Update(Update(ZERO, x), y), z)
         == Xor(Xor(ShiftTimes(Widen(x), 24), ShiftTimes(Widen(y), 16)), ShiftTimes(Widen(z), 8))
  {
    TwoUpdates(x, y);
    UpdateSplits(Update(Update(ZERO, x), y), z);
    ShiftTimesLinear(ShiftTimes(Widen(x), 16), ShiftTimes(Widen(y), 8), 8);
    ShiftTimesAdd(Widen(x), 16, 8);
    ShiftTimesAdd(Widen(y), 8, 8);
  }

  // ----- sixteen bits in a row ---------------------------------------------------

  /** The sixteen bits from bit `r` of three octets on. */
  function Middle(x: Octet, y: Octet, z: Octet, r: nat): Register
    requires r <= 8
  {
    x[r..] + y + z[..r]
  }

  lemma FirstPart(x: Octet, r: nat) returns (a: Register)
    requires r < 8 && forall i :: 0 <= i < r ==> !x[i]
    ensures a == x[r..] + Zeros(8 + r) && ShiftTimes(a, 24 - r) == ShiftTimes(Widen(x), 24)
  {
    a := x[r..] + Zeros(8 + r);
    ShiftsMoveLowBits(Widen(x), r);
    assert Widen(x)[r..] + Zeros(r) == a;
    ShiftTimesAdd(Widen(x), r, 24 - r);
  }

  lemma MiddlePart(y: Octet, r: nat) returns (b: Register)
    requires r < 8
    ensures b == Zeros(8 - r) + y + Zeros(r) && ShiftTimes(b, 24 - r) == ShiftTimes(Widen(y), 16)
  {
    b := Zeros(8 - r) + y + Zeros(r);
    ShiftsMoveLowBits(b, 8 - r);
    forall i | 0 <= i < 16 ensures (b[8 - r..] + Zeros(8 - r))[i] == Widen(y)[i] {
      assert i < 8 ==> b[8 - r + i] == y[i];
    }
    assert b[8 - r..] + Zeros(8 - r) == Widen(y);
    ShiftTimesAdd(b, 8 - r, 16);
  }

  lemma LastPart(z: Octet, r: nat) returns (c: Register)
    requires r < 8 && forall i :: r <= i < 8 ==> !z[i]
    ensures c == Zeros(16 - r) + z[..r] && ShiftTimes(c, 24 - r) == ShiftTimes(Widen(z), 8)
  {
    c := Zeros(16 - r) + z[..r];
    ShiftsMoveLowBits(c, 16 - r);
    assert c[16 - r..] + Zeros(16 - r) == Widen(z);
    ShiftTimesAdd(c, 16 - r, 8);
  }

  lemma MiddleIsSum(x: Octet, y: Octet, z: Octet, r: nat, a: Register, b: Register, c: Register)
    requires r < 8 && a == x[r..] + Zeros(8 + r) && b == Zeros(8 - r) + y + Zeros(r) && c == Zeros(16 - r) + z[..r]
    ensures Middle(x, y, z, r) == Xor(Xor(a, b), c)
  {
  }

  /** Three octets whose bits lie within sixteen places leave those bits, shifted, in the register. */
  lemma BurstInRegister(x: Octet, y: Octet, z: Octet, r: nat)
    requires r < 8 && (forall i :: 0 <= i < r ==> !x[i]) && (forall i :: r <= i < 8 ==> !z[i])
    ensures Update(Update(Update(ZERO, x), y), z) == ShiftTimes(Middle(x, y, z, r), 24 - r)
  {
    var a := FirstPart(x, r);
    var b := MiddlePart(y, r);
    var c := LastPart(z, r);
    MiddleIsSum(x, y, z, r, a, b, c);
    ShiftTimesLinear(Xor(a, b), c, 24 - r);
    ShiftTimesLinear(a, b, 24 - r);
    ThreeUpdates(x, y, z);
  }

  lemma BurstVanishes(x: Octet, y: Octet, z: Octet, r: nat)
    requires r < 8 && (forall i :: 0 <= i < r ==> !x[i]) && (forall i :: r <= i < 8 ==> !z[i])
    requires Update(Update(Update(ZERO, x), y), z) == ZERO
    ensures x == y == z == Zeros(8)
  {
    BurstInRegister(x, y, z, r);
    var m := Middle(x, y, z, r);
    OnlyZeroShiftsToZero(m, 24 - r);
    forall i | 0 <= i < 8 ensures !x[i] && !y[i] && !z[i] {
      assert i >= r ==> m[i - r] == x[i];
      assert m[8 - r + i] == y[i];
      assert i < r ==> m[16 - r + i] == z[i];
    }
  }

  lemma TripleUpdate(s: Register, xs: seq<Octet>)
    requires |xs| == 3
    ensures CrcFrom(s, xs) == Update(Update(Update(s, xs[0]), xs[1]), xs[2])
  {
    assert xs[..2][0] == xs[0] && xs[..2][1] == xs[1];
    PairUpdate(s, xs[..2]);
  }

  /** From one register, two triples that differ within sixteen bits lead to different registers. */
  lemma BurstInjective(s: Register, xs: seq<Octet>, ys: seq<Octet>, r: nat)
    requires |xs| == |ys| == 3 && r < 8 && CrcFrom(s, xs) == CrcFrom(s, ys)
    requires xs[0][..r] == ys[0][..r] && xs[2][r..] == ys[2][r..]
    ensures xs == ys
  {
    var x, y, z := Xor(xs[0], ys[0]), Xor(xs[1], ys[1]), Xor(xs[2], ys[2]);
    TripleUpdate(s, xs);
    TripleUpdate(s, ys);
    assert Xor(s, s) == ZERO;
    UpdateLinear(s, s, xs[0], ys[0]);
    UpdateLinear(Update(s, xs[0]), Update(s, ys[0]), xs[1], ys[1]);
    UpdateLinear(Update(Update(s, xs[0]), xs[1]), Update(Update(s, ys[0]), ys[1]), xs[2], ys[2]);
    assert Xor(CrcFrom(s, xs), CrcFrom(s, ys)) == ZERO;
    forall i | 0 <= i < r ensures !x[i] {
      assert xs[0][..r][i] == ys[0][..r][i];
    }
    forall i | r <= i < 8 ensures !z[i] {
      assert xs[2][r..][i - r] == ys[2][r..][i - r];
    }
    BurstVanishes(x, y, z, r);
    NoDifference(xs[0], ys[0]);
    NoDifference(xs[1], ys[1]);
    NoDifference(xs[2], ys[2]);
  }

  /** Bit `k` of a list of octets. */
  function Bit(octets: seq<Octet>, k: nat): bool
    requires k < 8 * |octets|
  {
    octets[k / 8][k % 8]
  }

  /** The two lists agree on every bit outside `[lo, hi)`. */
  ghost predicate SameOutside(xs: seq<Octet>, ys: seq<Octet>, lo: int, hi: int) {
    |xs| == |ys| && forall k :: 0 <= k < 8 * |xs| && !(lo <= k < hi) ==> Bit(xs, k) == Bit(ys, k)
  }

  lemma SameBits(xs: seq<Octet>, ys: seq<Octet>, lo: int, hi: int, i: nat, from: nat, to: nat)
    requires SameOutside(xs, ys, lo, hi) && i < |xs| && from <= to <= 8
    requires 8 * i + to <= lo || hi <= 8 * i + from
    ensures xs[i][from..to] == ys[i][from..to]
    ensures from == 0 ==> xs[i][..to] == ys[i][..to]
    ensures to == 8 ==> xs[i][from..] == ys[i][from..]
  {
    forall b | from <= b < to ensures xs[i][b] == ys[i][b] {
      assert Bit(xs, 8 * i + b) == Bit(ys, 8 * i + b);
    }
  }

  lemma SameOctet(xs: seq<Octet>, ys: seq<Octet>, lo: int, hi: int, i: nat)
    requires SameOutside(xs, ys, lo, hi) && i < |xs| && (8 * i + 8 <= lo || hi <= 8 * i)
    ensures xs[i] == ys[i]
  {
    SameBits(xs, ys, lo, hi, i, 0, 8);
  }

  lemma CutThree(xs: seq<Octet>, p: nat)
    requires p + 2 < |xs|
    ensures Crc16(xs) == CrcFrom(CrcFrom(CrcFrom(ZERO, xs[..p]), xs[p..p + 3]), xs[p + 3..])
  {
    assert xs == xs[..p] + xs[p..p + 3] + xs[p + 3..];
    CrcFromConcat(ZERO, xs[..p] + xs[p..p + 3], xs[p + 3..]);
    CrcFromConcat(ZERO, xs[..p], xs[p..p + 3]);
  }

  lemma BurstUnchanged(xs: seq<Octet>, ys: seq<Octet>, p: nat, r: nat)
    requires |xs| == |ys| && p + 2 < |xs| && r < 8 && Crc16(xs) == Crc16(ys)
    requires forall i :: 0 <= i < |xs| && (i < p || i > p + 2) ==> xs[i] == ys[i]
    requires xs[p][..r] == ys[p][..r] && xs[p + 2][r..] == ys[p + 2][r..]
    ensures xs == ys
  {
    var q := p + 3;
    var s := CrcFrom(ZERO, xs[..p]);
    assert xs[..p] == ys[..p] && xs[q..] == ys[q..];
    CutThree(xs, p);
    CutThree(ys, p);
    CrcFromInjective(CrcFrom(s, xs[p..q]), CrcFrom(s, ys[p..q]), xs[q..]);
    BurstInjective(s, xs[p..q], ys[p..q], r);
    assert xs == xs[..p] + xs[p..q] + xs[q..] && ys == ys[..p] + ys[p..q] + ys[q..];
  }

  /** Octet strings of one length that differ only within sixteen consecutive bits have different
      checksums, whatever the length and wherever the bits are. */
  lemma CrcDetectsBurst(xs: seq<Octet>, ys: seq<Octet>, b: nat)
    requires xs != ys && SameOutside(xs, ys, b, b + 16) && b < 8 * |xs|
    ensures Crc16(xs) != Crc16(ys)
  {
    var p, r := b / 8, b % 8;
    forall i | 0 <= i < |xs| && (i < p || i > p + 2) ensures xs[i] == ys[i] {
      SameOctet(xs, ys, b, b + 16, i);
    }
    if p + 2 >= |xs| {
      CrcDetectsAdjacent(xs, ys, p);
    } else {
      SameBits(xs, ys, b, b + 16, p, 0, r);
      SameBits(xs, ys, b, b + 16, p + 2, r, 8);
      if Crc16(xs) == Crc16(ys) {
        BurstUnchanged(xs, ys, p, r);
      }
    }
  }

  lemma OneOctet(o: Octet)
    ensures Crc16([o]) == ShiftTimes(Widen(o), 8)
  {
    var os := [o];
    assert os[..0] == [] && CrcFrom(ZERO, []) == ZERO;
    assert CrcFrom(ZERO, os) == Update(CrcFrom(ZERO, os[..0]), os[0]);
    UpdateFromZero(o);
  }

  lemma LowestBit(one: Octet)
    requires one == Zeros(7) + [true]
    ensures Crc16([one]) == POLYNOMIAL
  {
    var top: Register := [true] + Zeros(15);
    OneOctet(one);
    ShiftsMoveLowBits(Widen(one), 7);
    assert Widen(one)[7..] + Zeros(7) == top;
    assert ShiftTimes(Widen(one), 8) == Shift(top);
    assert ShiftLeft(top) == ZERO && Xor(ZERO, POLYNOMIAL) == POLYNOMIAL;
  }

  lemma NoBits(none: Octet)
    requires none == Zeros(8)
    ensures Crc16([none]) == ZERO
  {
    OneOctet(none);
    assert Widen(none) == ZERO;
    ShiftsOfZero(8);
  }

  /** The polynomial itself, seventeen bits long, is the first change that goes unnoticed. */
  lemma SeventeenBitsMissed() returns (xs: seq<Octet>, ys: seq<Octet>)
    ensures xs != ys && SameOutside(xs, ys, 7, 24) && Crc16(xs) == Crc16(ys)
  {
    var one: Octet := Zeros(7) + [true];
    var high: Octet := POLYNOMIAL[..8];
    var low: Octet := POLYNOMIAL[8..];
    var none: Octet := Zeros(8);
    xs, ys := [one] + [high, low], [none] + [none, none];
    LowestBit(one);
    assert Join(high, low) == POLYNOMIAL;
    CrcResidue([one], high, low);
    NoBits(none);
    CrcResidue([none], none, none);
    assert Join(none, none) == ZERO;
    forall k | 0 <= k < 7 ensures Bit(xs, k) == Bit(ys, k) {
      assert xs[0] == one && ys[0] == none;
    }
    assert xs[0][7] && !ys[0][7];
  }

  // ----- nine payload bits and one checksum bit ----------------------------------

  /** Two iterations cannot leave a register of this shape with at most its last bit set. */
  lemma TwoShiftsShow(z: Register)
    requires (forall i :: 9 <= i < 16 ==> !z[i])
    requires forall i :: 0 <= i < 15 ==> !Shift(Shift(z))[i]
    ensures z == ZERO
  {
    var u := Shift(z);
    var w := Shift(u);
    assert u[15] == z[0] && u[11] == z[12];
    assert w[14] == u[15] && w[10] == (u[11] != u[0]) && w[15] == u[0];
    assert w == ZERO;
    assert ShiftTimes(z, 1) == u && ShiftTimes(z, 2) == w;
    OnlyZeroShiftsToZero(z, 2);
  }

  /** The register left by one bit and an octet, read nine iterations earlier. */
  lemma NineBitsInRegister(x: Octet, y: Octet) returns (z: Register)
    requires forall i :: 0 <= i < 7 ==> !x[i]
    ensures z == [x[7]] + y + Zeros(7) && Update(Update(ZERO, x), y) == ShiftTimes(z, 9)
  {
    z := [x[7]] + y + Zeros(7);
    var a: Register := [x[7]] + Zeros(15);
    var c: Register := [false] + y + Zeros(7);
    ShiftsMoveLowBits(Widen(x), 7);
    assert Widen(x)[7..] + Zeros(7) == a;
    ShiftTimesAdd(Widen(x), 7, 9);
    ShiftsMoveLowBits(c, 1);
    assert c[1..] + Zeros(1) == Widen(y);
    ShiftTimesAdd(c, 1, 8);
    assert z == Xor(a, c);
    ShiftTimesLinear(a, c, 9);
    TwoUpdates(x, y);
  }

  /** No change of nine bits at the end of a message shows up as the top bit of the low checksum
      octet alone, or not at all. */
  lemma NineBitsVanish(x: Octet, y: Octet, k: Register)
    requires (forall i :: 0 <= i < 7 ==> !x[i]) && Update(Update(ZERO, x), y) == k
    requires forall i :: 0 <= i < 16 && i != 8 ==> !k[i]
    ensures x == y == Zeros(8)
  {
    var z := NineBitsInRegister(x, y);
    var low: Register := Zeros(15) + [k[8]];
    ShiftsMoveLowBits(low, 7);
    assert low[7..] + Zeros(7) == k;
    ShiftTimesAdd(z, 2, 7);
    ShiftTimesInjective(ShiftTimes(z, 2), low, 7);
    assert ShiftTimes(z, 1) == Shift(z);
    assert ShiftTimes(z, 2) == Shift(Shift(z));
    TwoShiftsShow(z);
    forall i | 0 <= i < 8 ensures !x[i] && !y[i] {
      assert z[0] == x[7] && z[1 + i] == y[i];
    }
  }

  lemma BorderOctets(d: seq<Octet>, e: seq<Octet>)
    requires |d| == |e| == 35 && SameOutside(d, e, 255, 265)
    ensures d[..31] == e[..31] && d[31][..7] == e[31][..7] && d[33][1..] == e[33][1..] && d[34] == e[34]
  {
    forall i | 0 <= i < 31 ensures d[i] == e[i] {
      SameOctet(d, e, 255, 265, i);
    }
    SameBits(d, e, 255, 265, 31, 0, 7);
    SameBits(d, e, 255, 265, 33, 1, 8);
    SameOctet(d, e, 255, 265, 34);
  }

  lemma LastTwo(xs: seq<Octet>)
    requires |xs| == 33
    ensures Crc16(xs) == Update(Update(CrcFrom(ZERO, xs[..31]), xs[31]), xs[32])
  {
    assert xs == xs[..31] + xs[31..];
    CrcFromConcat(ZERO, xs[..31], xs[31..]);
    PairUpdate(CrcFrom(ZERO, xs[..31]), xs[31..]);
  }

  /** The characters that end the payload and reach one bit into the checksum. */
  lemma BorderUnchanged(d: seq<Octet>, e: seq<Octet>)
    requires |d| == |e| == 35 && SameOutside(d, e, 255, 265)
    requires Crc16(d[..33]) == ChecksumField(d) && Crc16(e[..33]) == ChecksumField(e)
    ensures d == e
  {
    var s := CrcFrom(ZERO, d[..31]);
    var x, y := Xor(d[31], e[31]), Xor(d[32], e[32]);
    var k := Xor(ChecksumField(d), ChecksumField(e));
    BorderOctets(d, e);
    LastTwo(d[..33]);
    LastTwo(e[..33]);
    assert d[..33][..31] == d[..31] && e[..33][..31] == d[..31];
    assert Xor(s, s) == ZERO;
    UpdateLinear(s, s, d[31], e[31]);
    UpdateLinear(Update(s, d[31]), Update(s, e[31]), d[32], e[32]);
    forall i | 0 <= i < 7 ensures !x[i] {
      assert d[31][..7][i] == e[31][..7][i];
    }
    forall i | 0 <= i < 16 && i != 8 ensures !k[i] {
      assert i < 8 ==> d[34][i] == e[34][i];
      assert i > 8 ==> d[33][1..][i - 9] == e[33][1..][i - 9];
    }
    NineBitsVanish(x, y, k);
    NoDifference(d[31], e[31]);
    NoDifference(d[32], e[32]);
    assert d[..33] == e[..33];
    ChecksumFieldInjective(d, e);
  }

  // ----- two wrong characters ----------------------------------------------------

  lemma DecodedBit(v: string, k: nat)
    requires IsBase32(v) && |v| == 56 && k < 280
    ensures |Decoded(v)| == 35 && Bit(Decoded(v), k) == Stream(v)[k]
  {
    assert Decoded(v)[k / 8] == Stream(v)[8 * (k / 8)..8 * (k / 8) + 8];
  }

  /** Strings that agree outside characters `i` and `i + 1` decode to the same bits outside theirs. */
  lemma TwoCharacterBits(v: string, w: string, i: nat)
    requires IsBase32(v) && IsBase32(w) && |v| == |w| == 56
    requires forall j :: 0 <= j < 56 && j != i && j != i + 1 ==> v[j] == w[j]
    ensures |Decoded(v)| == |Decoded(w)| == 35 && SameOutside(Decoded(v), Decoded(w), 5 * i, 5 * i + 10)
  {
    var d, e := Decoded(v), Decoded(w);
    forall k | 0 <= k < 280 && !(5 * i <= k < 5 * i + 10) ensures Bit(d, k) == Bit(e, k) {
      assert k / 5 != i && k / 5 != i + 1;
      StreamBitAt(v, k);
      StreamBitAt(w, k);
      DecodedBit(v, k);
      DecodedBit(w, k);
    }
  }

  lemma BitOfCharacter(v: string, j: nat, b: nat)
    requires IsBase32(v) && j < |v| && b < 5
    ensures Stream(v)[5 * j + b] == CharBits(v[j])[b]
  {
    StreamBitAt(v, 5 * j + b);
    assert (5 * j + b) / 5 == j && (5 * j + b) % 5 == b;
  }

  lemma SameCharacter(v: string, w: string, j: nat)
    requires IsBase32(v) && IsBase32(w) && |v| == |w| && j < |v|
    requires forall k :: 0 <= k < 5 * |v| ==> Stream(v)[k] == Stream(w)[k]
    ensures v[j] == w[j]
  {
    forall b: nat | b < 5 ensures CharBits(v[j])[b] == CharBits(w[j])[b] {
      BitOfCharacter(v, j, b);
      BitOfCharacter(w, j, b);
    }
    assert CharBits(v[j]) == CharBits(w[j]);
    CharBitsInjective(v[j], w[j]);
  }

  /** Fifty-six characters fill thirty-five octets exactly, so nothing is lost in decoding. */
  lemma DecodedInjective(v: string, w: string)
    requires IsBase32(v) && IsBase32(w) && |v| == |w| == 56 && Decoded(v) == Decoded(w)
    ensures v == w
  {
    forall k | 0 <= k < 280 ensures Stream(v)[k] == Stream(w)[k] {
      DecodedBit(v, k);
      DecodedBit(w, k);
    }
    forall j | 0 <= j < 56 ensures v[j] == w[j] {
      SameCharacter(v, w, j);
    }
  }

  lemma PayloadUnchanged(d: seq<Octet>, e: seq<Octet>, i: nat)
    requires |d| == |e| == 35 && i <= 50 && SameOutside(d, e, 5 * i, 5 * i + 10)
    requires Crc16(d[..33]) == ChecksumField(d) && Crc16(e[..33]) == ChecksumField(e)
    ensures d == e
  {
    SameOctet(d, e, 5 * i, 5 * i + 10, 33);
    SameOctet(d, e, 5 * i, 5 * i + 10, 34);
    forall k | 0 <= k < 264 && !(5 * i <= k < 5 * i + 16) ensures Bit(d[..33], k) == Bit(e[..33], k) {
      assert Bit(d, k) == Bit(e, k);
    }
    assert SameOutside(d[..33], e[..33], 5 * i, 5 * i + 16);
    if d[..33] != e[..33] {
      CrcDetectsBurst(d[..33], e[..33], 5 * i);
    }
    ChecksumFieldInjective(d, e);
  }

  /** Two sets of octets that both carry their own checksum and differ in ten adjacent bits only,
      those of two characters, are the same. */
  lemma TwoCharactersUnchanged(d: seq<Octet>, e: seq<Octet>, i: nat)
    requires |d| == |e| == 35 && i < 55 && SameOutside(d, e, 5 * i, 5 * i + 10)
    requires Crc16(d[..33]) == ChecksumField(d) && Crc16(e[..33]) == ChecksumField(e)
    ensures d == e
  {
    if i <= 50 {
      PayloadUnchanged(d, e, i);
    } else if i == 51 {
      BorderUnchanged(d, e);
    } else {
      forall k | 0 <= k < 32 ensures d[k] == e[k] {
        SameOctet(d, e, 5 * i, 5 * i + 10, k);
      }
      SameBits(d, e, 5 * i, 5 * i + 10, 32, 0, 4);
      if i == 52 {
        SameOctet(d, e, 260, 270, 34);
        StraddleUnchanged(d, e);
      } else {
        SameOctet(d, e, 5 * i, 5 * i + 10, 32);
        assert d[..33] == e[..33];
        ChecksumFieldInjective(d, e);
      }
    }
  }

  /** Changing two adjacent characters of a valid account id, in any way, makes the check reject it. */
  lemma TwoWrongCharactersRejected(v: string, i: nat, c: char, c': char)
    requires Valid(v) && i + 1 < |v| && (c != v[i] || c' != v[i + 1])
    ensures !Valid(v[i := c][i + 1 := c'])
  {
    var w := v[i := c][i + 1 := c'];
    assert w[i] == c && w[i + 1] == c';
    if Valid(w) {
      TwoCharacterBits(v, w, i);
      TwoCharactersUnchanged(Decoded(v), Decoded(w), i);
      DecodedInjective(v, w);
    }
  }

  /** Swapping two different neighbours of a valid account id makes the check reject it. */
  lemma SwappedNeighboursRejected(v: string, i: nat)
    requires Valid(v) && i + 1 < |v| && v[i] != v[i + 1]
    ensures !Valid(v[i := v[i + 1]][i + 1 := v[i]])
  {
    TwoWrongCharactersRejected(v, i, v[i + 1], v[i]);
  }
}
