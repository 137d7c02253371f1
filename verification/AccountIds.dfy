/** The strings the account-id check accepts, from the other side: the encoding of section 6 of
    RFC 4648, and one accepted string for every key. */
module AccountIds {
  import opened Base32
  import opened StrKey
  import opened StrKeyBursts

  // ----- the alphabet ------------------------------------------------------------

  const ALPHABET := "ABCDEFGH" + "IJKLMNOP" + "QRSTUVWX" + "YZ234567"

  lemma TwoBits(i: nat)
    ensures LowBits(i, 2) == [i / 2 % 2 == 1, i % 2 == 1]
  {
    assert LowBits(i / 2, 1) == LowBits(i / 4, 0) + [i / 2 % 2 == 1];
  }

  lemma ThreeBits(i: nat)
    ensures LowBits(i, 3) == [i / 4 % 2 == 1, i / 2 % 2 == 1, i % 2 == 1]
  {
    TwoBits(i / 2);
    assert i / 2 / 2 == i / 4;
  }

  lemma FourBits(i: nat)
    ensures LowBits(i, 4) == [i / 8 % 2 == 1, i / 4 % 2 == 1, i / 2 % 2 == 1, i % 2 == 1]
  {
    ThreeBits(i / 2);
    assert i / 2 / 2 == i / 4 && i / 2 / 4 == i / 8;
  }

  lemma FiveBits(i: nat)
    ensures LowBits(i, 5) == [i / 16 % 2 == 1, i / 8 % 2 == 1, i / 4 % 2 == 1, i / 2 % 2 == 1, i % 2 == 1]
  {
    FourBits(i / 2);
    assert i / 2 / 2 == i / 4 && i / 2 / 4 == i / 8 && i / 2 / 8 == i / 16;
  }

  lemma QuarterOne(i: nat)
    requires i < 8
    ensures var c := "ABCDEFGH"[i]; InAlphabet(c) && IndexOf(c) == i
  {
  }

  lemma QuarterTwo(i: nat)
    requires i < 8
    ensures var c := "IJKLMNOP"[i]; InAlphabet(c) && IndexOf(c) == 8 + i
  {
  }

  lemma QuarterThree(i: nat)
    requires i < 8
    ensures var c := "QRSTUVWX"[i]; InAlphabet(c) && IndexOf(c) == 16 + i
  {
  }

  lemma QuarterFour(i: nat)
    requires i < 8
    ensures var c := "YZ234567"[i]; InAlphabet(c) && IndexOf(c) == 24 + i
  {
  }

  lemma CharacterAt(i: nat)
    requires i < 32
    ensures var c := ALPHABET[i]; InAlphabet(c) && IndexOf(c) == i
  {
    if i < 8 {
      QuarterOne(i);
    } else if i < 16 {
      QuarterTwo(i - 8);
    } else if i < 24 {
      QuarterThree(i - 16);
    } else {
      QuarterFour(i - 24);
    }
  }

  /** The `i`-th character of the alphabet carries the five bits of `i`, highest first. */
  lemma AlphabetInOrder(i: nat)
    requires i < 32
    ensures var c := ALPHABET[i];
            InAlphabet(c) && CharBits(c) == [i / 16 % 2 == 1, i / 8 % 2 == 1, i / 4 % 2 == 1, i / 2 % 2 == 1, i % 2 == 1]
  {
    CharacterAt(i);
    FiveBits(i);
  }

  /** And no other character is in it. */
  lemma AlphabetComplete(c: char)
    requires InAlphabet(c)
    ensures 0 <= IndexOf(c) < 32 && ALPHABET[IndexOf(c)] == c
  {
    IndexOfAlphabet(c);
    CharacterAt(IndexOf(c));
    IndexOfInjective(c, ALPHABET[IndexOf(c)]);
  }

  lemma InAlphabetIff(c: char)
    ensures InAlphabet(c) <==> exists i :: 0 <= i < 32 && ALPHABET[i] == c
  {
    if InAlphabet(c) {
      AlphabetComplete(c);
    }
    if i :| 0 <= i < 32 && ALPHABET[i] == c {
      CharacterAt(i);
    }
  }

  // ----- encoding ----------------------------------------------------------------

  /** The number five bits spell, highest first. */
  function Spelled(bits: seq<bool>): (i: nat)
    requires |bits| == 5
    ensures i < 32
  {
    (if bits[0] then 16 else 0) + (if bits[1] then 8 else 0) + (if bits[2] then 4 else 0)
    + (if bits[3] then 2 else 0) + (if bits[4] then 1 else 0)
  }

  lemma HalvesOf(n: nat, b: bool)
    ensures var m := 2 * n + if b then 1 else 0; m / 2 == n && (m % 2 == 1 <==> b)
  {
  }

  lemma BitsSpelled(bits: seq<bool>)
    requires |bits| == 5
    ensures LowBits(Spelled(bits), 5) == bits
  {
    var one := if bits[0] then 1 else 0;
    var two := 2 * one + if bits[1] then 1 else 0;
    var three := 2 * two + if bits[2] then 1 else 0;
    var four := 2 * three + if bits[3] then 1 else 0;
    assert Spelled(bits) == 2 * four + if bits[4] then 1 else 0;
    HalvesOf(0, bits[0]);
    HalvesOf(one, bits[1]);
    HalvesOf(two, bits[2]);
    HalvesOf(three, bits[3]);
    HalvesOf(four, bits[4]);
    assert LowBits(one, 1) == bits[..1];
    assert LowBits(two, 2) == bits[..2];
    assert LowBits(three, 3) == bits[..3];
    assert LowBits(four, 4) == bits[..4];
  }

  /** Any five bits are those of a character. */
  lemma CharacterOf(bits: seq<bool>) returns (c: char)
    requires |bits| == 5
    ensures InAlphabet(c) && CharBits(c) == bits
  {
    c := ALPHABET[Spelled(bits)];
    CharacterAt(Spelled(bits));
    BitsSpelled(bits);
  }

  lemma StreamOfSnoc(s: string, c: char)
    requires IsBase32(s) && InAlphabet(c)
    ensures IsBase32(s + [c]) && Stream(s + [c]) == Stream(s) + CharBits(c)
  {
    assert (s + [c])[..|s|] == s;
  }

  /** Any bits, five at a time, are the bit string of some characters. */
  lemma {:induction false} EncodeBits(bits: seq<bool>, n: nat) returns (s: string)
    requires |bits| == 5 * n
    ensures IsBase32(s) && |s| == n && Stream(s) == bits
  {
    s := [];
    if n > 0 {
      var init, last := bits[..|bits| - 5], bits[|bits| - 5..];
      s := EncodeBits(init, n - 1);
      var c := CharacterOf(last);
      StreamOfSnoc(s, c);
      s := s + [c];
      assert bits == init + last;
    }
  }

  function Flat(octets: seq<Octet>): (bits: seq<bool>)
    ensures |bits| == 8 * |octets|
  {
    if octets == [] then [] else Flat(octets[..|octets| - 1]) + octets[|octets| - 1]
  }

  lemma {:induction false} FlatAt(octets: seq<Octet>, k: nat)
    requires k < |octets|
    ensures Flat(octets)[8 * k..8 * k + 8] == octets[k]
  {
    if k < |octets| - 1 {
      FlatAt(octets[..|octets| - 1], k);
    }
  }

  lemma FlatReadsBack(octets: seq<Octet>)
    ensures Octets(Flat(octets)) == octets
  {
    forall k | 0 <= k < |octets| ensures Octets(Flat(octets))[k] == octets[k] {
      FlatAt(octets, k);
    }
  }

  /** Every thirty-five octets are the decoding of one string of fifty-six characters. */
  lemma EncodeOctets(octets: seq<Octet>) returns (v: string)
    requires |octets| == 35
    ensures IsBase32(v) && |v| == 56 && Decoded(v) == octets
  {
    v := EncodeBits(Flat(octets), 56);
    FlatReadsBack(octets);
  }

  // ----- one accepted string for every key ---------------------------------------

  /** The check accepts exactly the strings of G and fifty-five more characters of the alphabet whose
      first octet is 6 << 3 and whose last two are the checksum of the others, low octet first. */
  lemma AcceptedIff(v: string)
    ensures Valid(v)
            <==> && |v| == 56 && v[0] == 'G' && IsBase32(v) && |Decoded(v)| == 35
                 && Decoded(v)[0] == [false, false, true, true, false, false, false, false]
                 && var checksum := Crc16(Decoded(v)[..33]);
                    checksum[8..] == Decoded(v)[33] && checksum[..8] == Decoded(v)[34]
  {
    if IsBase32(v) && |Decoded(v)| == 35 {
      var d := Decoded(v);
      assert ChecksumField(d)[..8] == d[34] && ChecksumField(d)[8..] == d[33];
      var checksum := Crc16(d[..33]);
      assert checksum == checksum[..8] + checksum[8..] && ChecksumField(d) == ChecksumField(d)[..8] + ChecksumField(d)[8..];
    }
  }

  lemma BitOfFirst(v: string, b: nat)
    requires IsBase32(v) && v != [] && b < 5
    ensures CharBits(v[0])[b] == Stream(v)[b]
  {
    StreamBitAt(v, b);
    assert b / 5 == 0 && b % 5 == b;
  }

  lemma FirstFiveBits(v: string)
    requires IsBase32(v) && v != []
    ensures CharBits(v[0]) == Stream(v)[..5]
  {
    BitOfFirst(v, 0);
    BitOfFirst(v, 1);
    BitOfFirst(v, 2);
    BitOfFirst(v, 3);
    BitOfFirst(v, 4);
  }

  lemma BitsOfG()
    ensures InAlphabet('G') && CharBits('G') == [false, false, true, true, false]
  {
    AlphabetInOrder(6);
  }

  lemma FirstIsG(v: string)
    requires IsBase32(v) && |v| == 56 && Decoded(v)[0] == [false, false, true, true, false, false, false, false]
    ensures v[0] == 'G'
  {
    FirstFiveBits(v);
    assert Decoded(v)[0] == Stream(v)[0..8];
    assert Stream(v)[0..8][..5] == Stream(v)[..5];
    BitsOfG();
    CharBitsInjective(v[0], 'G');
  }

  /** The string of a key. */
  lemma KeyHasId(key: seq<Octet>) returns (v: string)
    requires |key| == 32
    ensures Valid(v) && Decoded(v)[1..33] == key
  {
    var first: Octet := [false, false, true, true, false, false, false, false];
    var payload := [first] + key;
    var c := Crc16(payload);
    var high: Octet, low: Octet := c[..8], c[8..];
    var octets := payload + [low, high];
    v := EncodeOctets(octets);
    FirstIsG(v);
    assert octets[..33] == payload && Join(high, low) == c;
  }

  lemma KeyHasOneId(v: string, w: string)
    requires Valid(v) && Valid(w) && Decoded(v)[1..33] == Decoded(w)[1..33]
    ensures v == w
  {
    var d, e := Decoded(v), Decoded(w);
    assert d[..33] == [d[0]] + d[1..33] && e[..33] == [e[0]] + e[1..33];
    ChecksumFieldInjective(d, e);
    DecodedInjective(v, w);
  }

  /** Every key of thirty-two octets has exactly one account id the check accepts. */
  lemma ExactlyOneIdPerKey(key: seq<Octet>) returns (v: string)
    requires |key| == 32
    ensures forall w :: Valid(w) && Decoded(w)[1..33] == key <==> w == v
  {
    v := KeyHasId(key);
    forall w | Valid(w) && Decoded(w)[1..33] == key ensures w == v {
      KeyHasOneId(v, w);
    }
  }
}
