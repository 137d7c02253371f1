/** The base32 decoder of scripts/fixtures.js (section 6 of RFC 4648). The 32-bit accumulator is
    never masked: it is kept modulo 2^32 and loses its top bits from the seventh character on. */
module Base32 {
  import opened IntMath
  import opened Wrappers

  /** `BASE32_ALPHABET.indexOf`. */
  function IndexOf(c: char): int {
    match c
    case 'A' => 0 case 'B' => 1 case 'C' => 2 case 'D' => 3
    case 'E' => 4 case 'F' => 5 case 'G' => 6 case 'H' => 7
    case 'I' => 8 case 'J' => 9 case 'K' => 10 case 'L' => 11
    case 'M' => 12 case 'N' => 13 case 'O' => 14 case 'P' => 15
    case 'Q' => 16 case 'R' => 17 case 'S' => 18 case 'T' => 19
    case 'U' => 20 case 'V' => 21 case 'W' => 22 case 'X' => 23
    case 'Y' => 24 case 'Z' => 25 case '2' => 26 case '3' => 27
    case '4' => 28 case '5' => 29 case '6' => 30 case '7' => 31
    case _ => -1
  }

  predicate InAlphabet(c: char) {
    'A' <= c <= 'Z' || '2' <= c <= '7'
  }

  predicate IsBase32(s: string) {
    forall i :: 0 <= i < |s| ==> InAlphabet(s[i])
  }

  lemma IndexOfAlphabet(c: char)
    ensures -1 <= IndexOf(c) < 32
    ensures IndexOf(c) >= 0 <==> InAlphabet(c)
  {
  }

  lemma IndexOfInjective(c: char, d: char)
    requires InAlphabet(c) && IndexOf(c) == IndexOf(d)
    ensures c == d
  {
  }

  // ----- the reference: one big-endian bit string --------------------------------

  /** The low `n` bits of a number, most significant first. */
  function LowBits(v: nat, n: nat): (r: seq<bool>)
    ensures |r| == n
  {
    if n == 0 then [] else LowBits(v / 2, n - 1) + [v % 2 == 1]
  }

  function CharBits(c: char): (r: seq<bool>)
    requires InAlphabet(c)
    ensures |r| == 5
  {
    IndexOfAlphabet(c);
    LowBits(IndexOf(c), 5)
  }

  /** The string read as one bit string, five bits per character. */
  function Stream(s: string): (r: seq<bool>)
    requires IsBase32(s)
    ensures |r| == 5 * |s|
  {
    if s == [] then [] else Stream(s[..|s| - 1]) + CharBits(s[|s| - 1])
  }

  type Octet = b: seq<bool> | |b| == 8 witness [false, false, false, false, false, false, false, false]

  /** The first `|bits| / 8` octets of a bit string. */
  function Octets(bits: seq<bool>): seq<Octet> {
    seq(|bits| / 8, k requires 0 <= k < |bits| / 8 => bits[8 * k..8 * k + 8])
  }

  function Decoded(s: string): seq<Octet>
    requires IsBase32(s)
  {
    Octets(Stream(s))
  }

  // ----- words and their low bits ------------------------------------------------

  const WORD: int := 0x1_0000_0000

  function Pow2(n: nat): (r: nat)
    ensures r > 0
  {
    if n == 0 then 1 else 2 * Pow2(n - 1)
  }

  /** Numbers that differ by a multiple of 2^n share their low `n` bits. */
  lemma {:induction false} AgreeingBits(a: nat, b: nat, n: nat, k: int)
    requires a == b + k * Pow2(n)
    ensures LowBits(a, n) == LowBits(b, n)
  {
    if n > 0 {
      var t := k * Pow2(n - 1);
      assert k * Pow2(n) == 2 * t;
      assert a / 2 == b / 2 + t && a % 2 == b % 2;
      AgreeingBits(a / 2, b / 2, n - 1, k);
    }
  }

  /** `value >>> n`: `n` halvings. */
  function ShiftRight(v: nat, n: nat): nat {
    if n == 0 then v else ShiftRight(v / 2, n - 1)
  }

  lemma {:induction false} SplitBits(v: nat, n: nat, m: nat)
    ensures LowBits(v, n + m) == LowBits(ShiftRight(v, m), n) + LowBits(v, m)
  {
    if m > 0 {
      SplitBits(v / 2, n, m - 1);
    }
  }

  lemma ShiftRightFive(v: nat)
    ensures ShiftRight(v, 5) == v / 32
  {
    assert ShiftRight(v, 5) == ShiftRight(v / 2, 4) == ShiftRight(v / 4, 3);
    assert ShiftRight(v / 4, 3) == ShiftRight(v / 8, 2) == ShiftRight(v / 16, 1);
    assert ShiftRight(v / 16, 1) == ShiftRight(v / 32, 0);
  }

  lemma SmallPowers()
    ensures Pow2(5) == 32 && Pow2(8) == 256
  {
    assert Pow2(1) == 2 && Pow2(2) == 4 && Pow2(3) == 8 && Pow2(4) == 16;
    assert Pow2(6) == 64 && Pow2(7) == 128;
  }

  lemma {:induction false} PowersSplit(n: nat, m: nat)
    ensures Pow2(n + m) == Pow2(n) * Pow2(m)
  {
    if m > 0 {
      PowersSplit(n, m - 1);
    }
  }

  lemma WordIsPower()
    ensures Pow2(32) == WORD
  {
    SmallPowers();
    PowersSplit(8, 8);
    PowersSplit(16, 16);
  }

  /** Dropping the top of a word leaves its low bits. */
  lemma OverflowKeepsLowBits(x: nat, n: nat)
    requires n <= 32
    ensures LowBits(x % WORD, n) == LowBits(x, n)
  {
    WordIsPower();
    PowersSplit(32 - n, n);
    var q, p := x / WORD, Pow2(32 - n);
    Regroup(q, p, Pow2(n));
    AgreeingBits(x, x % WORD, n, q * p);
  }

  lemma ShiftedInFive(value: nat, index: nat)
    requires index < 32
    ensures LowBits(value * 32 + index, 5) == LowBits(index, 5)
    ensures ShiftRight(value * 32 + index, 5) == value
  {
    var x := value * 32 + index;
    ShiftRightFive(x);
    SmallPowers();
    AgreeingBits(x, index, 5, value);
  }

  /** Shifting in five bits appends them; what falls off the top of the word is above the bits
      that still matter. */
  lemma PushBits(value: nat, index: nat, n: nat)
    requires index < 32 && n < 8
    ensures LowBits((value * 32 + index) % WORD, n + 5) == LowBits(value, n) + LowBits(index, 5)
  {
    OverflowKeepsLowBits(value * 32 + index, n + 5);
    SplitBits(value * 32 + index, n, 5);
    ShiftedInFive(value, index);
  }

  /** Eight bits above the low `shift` bits, as a number below 256. */
  lemma TakeByte(value: nat, shift: nat)
    ensures LowBits(ShiftRight(value, shift) % 256, 8) + LowBits(value, shift) == LowBits(value, 8 + shift)
  {
    var w := ShiftRight(value, shift);
    SplitBits(value, 8, shift);
    SmallPowers();
    AgreeingBits(w, w % 256, 8, w / 256);
  }

  // ----- the loop ----------------------------------------------------------------

  lemma OctetsAppend(bits: seq<bool>, more: seq<bool>, out: seq<Octet>, last: Octet)
    requires out == Octets(bits) && |bits| + |more| >= 8 * |out| + 8 && |more| < 8
    requires last == (bits + more)[8 * |out|..8 * |out| + 8]
    ensures out + [last] == Octets(bits + more)
  {
    var all := bits + more;
    forall k | 0 <= k < |out| ensures all[8 * k..8 * k + 8] == bits[8 * k..8 * k + 8] {
      assert 8 * k + 8 <= |bits|;
    }
  }

  lemma OctetsSame(bits: seq<bool>, more: seq<bool>)
    requires (|bits| + |more|) / 8 == |bits| / 8
    ensures Octets(bits + more) == Octets(bits)
  {
    forall k | 0 <= k < |bits| / 8 ensures (bits + more)[8 * k..8 * k + 8] == bits[8 * k..8 * k + 8] {
    }
  }

  /** What the loop keeps over the bits read so far: the leftover bits sit at the bottom of the
      accumulator. */
  ghost predicate Holds(stream: seq<bool>, value: nat, bits: nat, out: seq<Octet>) {
    && bits < 8 && 8 * |out| + bits == |stream|
    && LowBits(value, bits) == stream[|stream| - bits..]
    && out == Octets(stream)
  }

  lemma TailAppend(bits: seq<bool>, more: seq<bool>, n: nat)
    requires n <= |bits|
    ensures (bits + more)[|bits| - n..] == bits[|bits| - n..] + more
  {
  }

  lemma NoOctetYet(stream: seq<bool>, value: nat, index: nat, bits: nat, out: seq<Octet>)
    requires Holds(stream, value, bits, out) && index < 32 && bits + 5 < 8
    ensures Holds(stream + LowBits(index, 5), (value * 32 + index) % WORD, bits + 5, out)
  {
    var added := LowBits(index, 5);
    PushBits(value, index, bits);
    OctetsSame(stream, added);
    TailAppend(stream, added, bits);
  }

  lemma CutOctet(stream: seq<bool>, added: seq<bool>, v: nat, bits: nat, out: seq<Octet>)
    requires |added| == 5 && 3 <= bits < 8 && 8 * |out| + bits == |stream| && out == Octets(stream)
    requires LowBits(v, bits + 5) == (stream + added)[8 * |out|..]
    ensures Holds(stream + added, v, bits - 3, out + [LowBits(ShiftRight(v, bits - 3) % 256, 8)])
  {
    TakeByte(v, bits - 3);
    var all := stream + added;
    var tail := all[8 * |out|..];
    var octet := LowBits(ShiftRight(v, bits - 3) % 256, 8);
    assert octet == tail[..8] && LowBits(v, bits - 3) == tail[8..];
    assert octet == all[8 * |out|..8 * |out| + 8];
    OctetsAppend(stream, added, out, octet);
  }

  lemma OctetReady(stream: seq<bool>, value: nat, index: nat, bits: nat, out: seq<Octet>)
    requires Holds(stream, value, bits, out) && index < 32 && bits + 5 >= 8
    ensures var v := (value * 32 + index) % WORD;
            Holds(stream + LowBits(index, 5), v, bits - 3, out + [LowBits(ShiftRight(v, bits - 3) % 256, 8)])
  {
    var added := LowBits(index, 5);
    PushBits(value, index, bits);
    TailAppend(stream, added, bits);
    CutOctet(stream, added, (value * 32 + index) % WORD, bits, out);
  }

  lemma StreamSnoc(input: string, i: nat)
    requires i < |input| && IsBase32(input[..i]) && InAlphabet(input[i])
    ensures IsBase32(input[..i + 1]) && Stream(input[..i + 1]) == Stream(input[..i]) + CharBits(input[i])
  {
    assert input[..i + 1][..i] == input[..i];
  }

  method PushChar(value: nat, index: nat, bits: nat, out: seq<Octet>, ghost stream: seq<bool>)
    returns (value': nat, bits': nat, out': seq<Octet>)
    requires Holds(stream, value, bits, out) && index < 32
    ensures Holds(stream + LowBits(index, 5), value', bits', out')
  {
    if bits < 3 {
      NoOctetYet(stream, value, index, bits, out);
    } else {
      OctetReady(stream, value, index, bits, out);
    }
    value', bits', out' := (value * 32 + index) % WORD, bits + 5, out;
    if bits' >= 8 {
      out' := out' + [LowBits(ShiftRight(value', bits' - 8) % 256, 8)];
      bits' := bits' - 8;
    }
  }

  /** The decoder returns exactly the whole octets of the bit string, or nothing for a character
      outside the alphabet. */
  method Base32Decode(input: string) returns (r: Option<seq<Octet>>)
    ensures r == if IsBase32(input) then Some(Decoded(input)) else None
  {
    var bits: nat, value: nat := 0, 0;
    var out: seq<Octet> := [];
    for i := 0 to |input|
      invariant IsBase32(input[..i]) && Holds(Stream(input[..i]), value, bits, out)
    {
      IndexOfAlphabet(input[i]);
      var index := IndexOf(input[i]);
      if index == -1 { return None; }
      StreamSnoc(input, i);
      value, bits, out := PushChar(value, index, bits, out, Stream(input[..i]));
    }
    assert input[..|input|] == input;
    return Some(out);
  }
}
