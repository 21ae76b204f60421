/**
 * Octets, the big-endian conversions of <endian.h>, and C strings.
 * Memory is modelled as a sequence of octets.
 */
module Bytes {

  type Byte = b: int | 0 <= b < 256
  type UInt64 = n: int | 0 <= n < 0x1_0000_0000_0000_0000

  const NUL: Byte := 0

  function Pow256(width: nat): (p: nat)
    ensures p > 0
  {
    if width == 0 then 1 else 256 * Pow256(width - 1)
  }

  /** The `width` low octets of n, most significant first (htobe64 for width 8). */
  function BigEndian(n: nat, width: nat): (s: seq<Byte>)
    ensures |s| == width
  {
    if width == 0 then [] else BigEndian(n / 256, width - 1) + [n % 256]
  }

  /** The number whose octets, most significant first, are s (be64toh for 8 octets). */
  function FromBigEndian(s: seq<Byte>): (n: nat)
    ensures n < Pow256(|s|)
  {
    if s == [] then 0
    else FromBigEndian(s[..|s| - 1]) * 256 + s[|s| - 1]
  }

  lemma {:induction false} FromBigEndianInvertsBigEndian(n: nat, width: nat)
    requires n < Pow256(width)
    ensures FromBigEndian(BigEndian(n, width)) == n
  {
    if width > 0 {
      FromBigEndianInvertsBigEndian(n / 256, width - 1);
      assert BigEndian(n, width)[..width - 1] == BigEndian(n / 256, width - 1);
    }
  }

  lemma {:induction false} BigEndianInvertsFromBigEndian(s: seq<Byte>)
    ensures BigEndian(FromBigEndian(s), |s|) == s
  {
    if s != [] {
      var front := s[..|s| - 1];
      BigEndianInvertsFromBigEndian(front);
      assert FromBigEndian(s) / 256 == FromBigEndian(front);
      assert s == front + [s[|s| - 1]];
    }
  }

  /** Network order: the first octet weighs most. */
  lemma {:induction false} FirstOctetWeighsMost(b: Byte, s: seq<Byte>, all: seq<Byte>)
    requires |all| == |s| + 1 && all[0] == b && all[1..] == s
    ensures FromBigEndian(all) == b * Pow256(|s|) + FromBigEndian(s)
  {
    if s == [] {
      assert all[..0] == [];
    } else {
      var n := |s|;
      FirstOctetWeighsMost(b, s[..n - 1], all[..n]);
      assert all[n] == s[n - 1];
      Shifted(b, Pow256(n - 1));
    }
  }

  lemma Shifted(b: Byte, p: nat)
    ensures b * p * 256 == b * (256 * p)
  {
  }

  lemma MultipleIsFar(d: nat, k: int)
    ensures k >= 1 ==> d * k >= d
    ensures k <= -1 ==> d * k + d <= 0
  {
    if k >= 1 {
      assert d * (k - 1) >= 0;
    } else if k <= -1 {
      assert d * (-k - 1) >= 0;
    }
  }

  lemma QuotientIs(n: nat, d: nat, q: nat, r: nat)
    requires d > 0 && n == d * q + r && r < d
    ensures n / d == q
  {
    var q', r' := n / d, n % d;
    assert n == d * q' + r';
    assert d * (q' - q) == r - r';
    MultipleIsFar(d, q' - q);
  }

  lemma DividedTwice(n: nat, p: nat)
    requires p > 0
    ensures n / 256 / p == n / (256 * p)
  {
    var q := n / 256;
    var a, b := q / p, q % p;
    assert q == p * a + b;
    assert n == 256 * (p * a + b) + n % 256 == 256 * p * a + (256 * b + n % 256);
    QuotientIs(n, 256 * p, a, 256 * b + n % 256);
  }

  /** Octet i of a number in network order, by its weight. */
  lemma {:induction false} OctetOfBigEndian(n: nat, width: nat, i: nat)
    requires i < width
    ensures BigEndian(n, width)[i] == n / Pow256(width - 1 - i) % 256
  {
    if i < width - 1 {
      OctetOfBigEndian(n / 256, width - 1, i);
      DividedTwice(n, Pow256(width - 2 - i));
    }
  }

  lemma Pow256OfEight()
    ensures Pow256(8) == 0x1_0000_0000_0000_0000
  {
    assert Pow256(2) == 0x1_0000;
    assert Pow256(4) == 0x1_0000_0000;
    assert Pow256(6) == 0x1_0000_0000_0000;
  }

  predicate NulFree(s: seq<Byte>) {
    NUL !in s
  }

  /** The text a `const char *` denotes: the octets before the first NUL. */
  function CString(memory: seq<Byte>): (text: seq<Byte>)
  {
    if memory == [] || memory[0] == NUL then []
    else [memory[0]] + CString(memory[1..])
  }

  /** A C string is the NUL-free prefix that ends at a NUL, or at the end of memory. */
  lemma {:induction false} CStringIsPrefix(memory: seq<Byte>)
    ensures NulFree(CString(memory))
    ensures CString(memory) <= memory
    ensures NUL in memory ==> |CString(memory)| < |memory| && memory[|CString(memory)|] == NUL
    ensures NulFree(memory) <==> CString(memory) == memory
  {
    if memory == [] || memory[0] == NUL {
    } else {
      CStringIsPrefix(memory[1..]);
      assert memory == [memory[0]] + memory[1..];
    }
  }

  /** What follows the first NUL does not matter. */
  lemma {:induction false} CStringStopsAtNul(text: seq<Byte>, rest: seq<Byte>)
    ensures CString(text + [NUL] + rest) == CString(text)
  {
    var memory := text + [NUL] + rest;
    if text == [] {
      assert memory[0] == NUL;
    } else if text[0] != NUL {
      CStringStopsAtNul(text[1..], rest);
      assert memory[1..] == text[1..] + [NUL] + rest;
    }
  }
}
