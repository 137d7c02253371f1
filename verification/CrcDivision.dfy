/** The CRC16-XModem checksum as what it stands for: the remainder of the message, times x^16, divided
    by x^16 + x^12 + x^5 + 1 over the field of two elements. Polynomials are written as their
    coefficients, highest power first. */
module CrcDivision {
  import opened Base32
  import opened StrKey
  import opened AccountIds

  function BitOf(bits: seq<bool>, k: int): bool {
    0 <= k < |bits| && bits[k]
  }

  /** Coefficient `k` of the product of `q` and the generator. */
  function ProductBit(q: seq<bool>, k: int): bool {
    ((BitOf(q, k) != BitOf(q, k - 4)) != BitOf(q, k - 11)) != BitOf(q, k - 16)
  }

  /** `w` is `q` times the generator plus `r`. */
  ghost predicate DividesWith(w: seq<bool>, q: seq<bool>, r: Register) {
    |w| == |q| + 16 && forall k: int :: BitOf(w, k) == (ProductBit(q, k) != BitOf(r, k - |q|))
  }

  lemma BitOfConcat(a: seq<bool>, b: seq<bool>, k: int)
    ensures BitOf(a + b, k) == (BitOf(a, k) != BitOf(b, k - |a|))
  {
  }

  lemma ProductConcat(a: seq<bool>, b: seq<bool>, k: int)
    ensures ProductBit(a + b, k) == (ProductBit(a, k) != ProductBit(b, k - |a|))
  {
    BitOfConcat(a, b, k);
    BitOfConcat(a, b, k - 4);
    BitOfConcat(a, b, k - 11);
    BitOfConcat(a, b, k - 16);
  }

  /** The sum of a register, in the leading places, and a longer polynomial. */
  function Plus(r: Register, more: seq<bool>): (sum: seq<bool>)
    requires |more| >= 16
    ensures |sum| == |more|
  {
    seq(|more|, i requires 0 <= i < |more| => more[i] != BitOf(r, i))
  }

  lemma PlusBit(r: Register, more: seq<bool>, k: int)
    requires |more| >= 16
    ensures BitOf(Plus(r, more), k) == (BitOf(r, k) != BitOf(more, k))
  {
  }

  /** Dividing on: what is left of one stretch and the bits that come after it, divided in turn. */
  lemma DivideOn(w: seq<bool>, q: seq<bool>, r: Register, more: seq<bool>, p: seq<bool>, u: Register, all: seq<bool>)
    requires DividesWith(w, q, r) && |more| == |p| + 16 && |all| == |q| + |p| + 16
    requires forall k: int :: BitOf(all, k) == (BitOf(w, k) != BitOf(more, k - |q|))
    requires DividesWith(Plus(r, more), p, u)
    ensures DividesWith(all, q + p, u)
  {
    forall k: int ensures BitOf(all, k) == (ProductBit(q + p, k) != BitOf(u, k - |q + p|)) {
      ProductConcat(q, p, k);
      PlusBit(r, more, k - |q|);
      assert BitOf(w, k) == (ProductBit(q, k) != BitOf(r, k - |q|));
      assert BitOf(Plus(r, more), k - |q|) == (ProductBit(p, k - |q|) != BitOf(u, k - |q| - |p|));
    }
  }

  // ----- one shift is one step of the division -----------------------------------

  lemma ShiftDivides(t: Register)
    ensures DividesWith(t + [false], [t[0]], Shift(t))
  {
    var one := [t[0]];
    forall k: int ensures BitOf(t + [false], k) == (ProductBit(one, k) != BitOf(Shift(t), k - 1)) {
      if 1 <= k <= 16 {
        assert ShiftLeft(t)[k - 1] == BitOf(t, k);
        assert Shift(t)[k - 1] == (ShiftLeft(t)[k - 1] != (t[0] && POLYNOMIAL[k - 1]));
        assert POLYNOMIAL[k - 1] <==> k == 4 || k == 11 || k == 16;
      }
    }
  }

  lemma ZeroBit(n: nat, k: int)
    ensures !BitOf(Zeros(n), k)
  {
  }

  lemma {:induction false} ShiftsDivide(s: Register, n: nat) returns (q: seq<bool>)
    ensures |q| == n && DividesWith(s + Zeros(n), q, ShiftTimes(s, n))
  {
    q := [];
    if n == 0 {
      assert s + Zeros(0) == s;
    } else {
      q := ShiftsDivide(s, n - 1);
      var t := ShiftTimes(s, n - 1);
      ShiftDivides(t);
      assert Plus(t, Zeros(17)) == t + [false];
      forall k: int ensures BitOf(s + Zeros(n), k) == (BitOf(s + Zeros(n - 1), k) != BitOf(Zeros(17), k - (n - 1))) {
        ZeroBit(17, k - (n - 1));
      }
      DivideOn(s + Zeros(n - 1), q, t, Zeros(17), [t[0]], Shift(t), s + Zeros(n));
      q := q + [t[0]];
    }
  }

  /** One octet divides eight places further. */
  lemma OctetDivides(crc: Register, o: Octet) returns (p: seq<bool>)
    ensures |p| == 8 && DividesWith(Plus(crc, o + Zeros(16)), p, Update(crc, o))
  {
    var s := Xor(crc, Widen(o));
    p := ShiftsDivide(s, 8);
    assert Plus(crc, o + Zeros(16)) == s + Zeros(8);
  }

  /** The message followed by sixteen zeros. */
  function Padded(octets: seq<Octet>): seq<bool> {
    Flat(octets) + Zeros(16)
  }

  lemma PaddedSnoc(before: seq<Octet>, o: Octet, k: int)
    ensures |Padded(before + [o])| == |Padded(before)| + 8
    ensures BitOf(Padded(before + [o]), k) == (BitOf(Padded(before), k) != BitOf(o + Zeros(16), k - 8 * |before|))
  {
    assert (before + [o])[..|before|] == before;
    BitOfConcat(Flat(before) + o, Zeros(16), k);
    BitOfConcat(Flat(before), o, k);
    BitOfConcat(Flat(before), Zeros(16), k);
    BitOfConcat(o, Zeros(16), k - 8 * |before|);
    ZeroBit(16, k - 8 * |before|);
    ZeroBit(16, k - 8 * |before| - 8);
  }

  lemma {:induction false} MessageDivides(octets: seq<Octet>) returns (q: seq<bool>)
    ensures |q| == 8 * |octets| && DividesWith(Padded(octets), q, Crc16(octets))
  {
    q := [];
    if octets == [] {
      assert Padded(octets) == ZERO;
    } else {
      var before, o := octets[..|octets| - 1], octets[|octets| - 1];
      q := MessageDivides(before);
      var p := OctetDivides(Crc16(before), o);
      assert octets == before + [o];
      PaddedSnoc(before, o, 0);
      forall k: int ensures BitOf(Padded(octets), k) == (BitOf(Padded(before), k) != BitOf(o + Zeros(16), k - |q|)) {
        PaddedSnoc(before, o, k);
      }
      DivideOn(Padded(before), q, Crc16(before), o + Zeros(16), p, Crc16(octets), Padded(octets));
      q := q + p;
    }
  }

  // ----- the remainder is unique -------------------------------------------------

  /** The generator's leading coefficient lets a quotient be read off from the front. */
  lemma {:induction false} QuotientUnique(w: seq<bool>, q: seq<bool>, r: Register, p: seq<bool>, u: Register, n: nat)
    requires DividesWith(w, q, r) && DividesWith(w, p, u) && |q| == |p| && n <= |q|
    ensures q[..n] == p[..n]
  {
    if n > 0 {
      QuotientUnique(w, q, r, p, u, n - 1);
      var k := n - 1;
      assert BitOf(w, k) == ProductBit(q, k) && BitOf(w, k) == ProductBit(p, k);
      forall j: int | j < k ensures BitOf(q, j) == BitOf(p, j) {
        assert 0 <= j ==> q[..k][j] == p[..k][j];
      }
      assert q[k] == p[k];
      assert q[..n] == q[..k] + [q[k]] && p[..n] == p[..k] + [p[k]];
    }
  }

  lemma RemainderUnique(w: seq<bool>, q: seq<bool>, r: Register, p: seq<bool>, u: Register)
    requires DividesWith(w, q, r) && DividesWith(w, p, u) && |q| == |p|
    ensures q == p && r == u
  {
    QuotientUnique(w, q, r, p, u, |q|);
    assert q[..|q|] == q && p[..|p|] == p;
    forall i | 0 <= i < 16 ensures r[i] == u[i] {
      assert BitOf(w, |q| + i) == (ProductBit(q, |q| + i) != BitOf(r, i));
      assert BitOf(w, |q| + i) == (ProductBit(p, |q| + i) != BitOf(u, i));
    }
  }

  /** The checksum of a message is the one remainder, of sixteen coefficients, that the message times
      x^16 leaves on division by x^16 + x^12 + x^5 + 1. */
  lemma ChecksumIsRemainder(octets: seq<Octet>, c: Register)
    ensures Crc16(octets) == c <==> exists q :: |q| == 8 * |octets| && DividesWith(Padded(octets), q, c)
  {
    var q := MessageDivides(octets);
    if p :| |p| == 8 * |octets| && DividesWith(Padded(octets), p, c) {
      RemainderUnique(Padded(octets), q, Crc16(octets), p, c);
    }
  }
}
