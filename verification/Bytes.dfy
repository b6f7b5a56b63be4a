/** Byte strings, 32-byte values and the byte-wise order that the Rust code
    compares hashes and public keys with. */
module Bytes {

  type u8 = x: int | 0 <= x < 0x100
  type u64 = x: int | 0 <= x < 0x1_0000_0000_0000_0000

  const U64_MAX: int := 0xFFFF_FFFF_FFFF_FFFF
  const I64_MAX: int := 0x7FFF_FFFF_FFFF_FFFF

  type Bytes = seq<u8>

  /** A digest, or a public key: 32 bytes. */
  type Bytes32 = b: seq<u8> | |b| == 32 witness seq(32, _ => 0)

  /** The default key or hash: 32 zero bytes. */
  function Zero(): Bytes32 { seq(32, _ => 0) }

  datatype Option<+T> = None | Some(value: T)

  /** Lexicographic order on byte strings, as derived for `[u8; 32]`. */
  predicate Leq(a: Bytes, b: Bytes)
  {
    a == [] || (b != [] && (a[0] < b[0] || (a[0] == b[0] && Leq(a[1..], b[1..]))))
  }

  lemma {:induction false} LeqReflexive(a: Bytes)
    ensures Leq(a, a)
  {
    if a != [] {
      LeqReflexive(a[1..]);
    }
  }

  lemma {:induction false} LeqTotal(a: Bytes, b: Bytes)
    ensures Leq(a, b) || Leq(b, a)
  {
    if a != [] && b != [] && a[0] == b[0] {
      LeqTotal(a[1..], b[1..]);
    }
  }

  lemma {:induction false} LeqAntisymmetric(a: Bytes, b: Bytes)
    requires Leq(a, b) && Leq(b, a)
    ensures a == b
  {
    if a != [] {
      LeqAntisymmetric(a[1..], b[1..]);
      assert a == [a[0]] + a[1..] && b == [b[0]] + b[1..];
    }
  }

  lemma {:induction false} LeqTransitive(a: Bytes, b: Bytes, c: Bytes)
    requires Leq(a, b) && Leq(b, c)
    ensures Leq(a, c)
  {
    if a != [] && a[0] == b[0] && b[0] == c[0] {
      LeqTransitive(a[1..], b[1..], c[1..]);
    }
  }

  /** 256 to the power `width`. */
  function Radix(width: nat): (r: nat)
    ensures r > 0
  {
    if width == 0 then 1 else 0x100 * Radix(width - 1)
  }

  /** The `width` low-order bytes of `n`, least significant first (`to_le_bytes`). */
  function LittleEndian(n: nat, width: nat): (b: Bytes)
    ensures |b| == width
    decreases width
  {
    if width == 0 then [] else [n % 0x100] + LittleEndian(n / 0x100, width - 1)
  }

  function FromLittleEndian(b: Bytes): (n: nat)
  {
    if b == [] then 0 else b[0] + 0x100 * FromLittleEndian(b[1..])
  }

  /** Decoding gives back every number that fits the width. */
  lemma {:induction false} LittleEndianRoundTrip(n: nat, width: nat)
    requires n < Radix(width)
    ensures FromLittleEndian(LittleEndian(n, width)) == n
    decreases width
  {
    if width > 0 {
      var b := LittleEndian(n, width);
      assert b[0] == n % 0x100 && b[1..] == LittleEndian(n / 0x100, width - 1);
      LittleEndianRoundTrip(n / 0x100, width - 1);
    }
  }

  lemma {:induction false} FromLittleEndianBound(b: Bytes)
    ensures FromLittleEndian(b) < Radix(|b|)
  {
    if b != [] {
      FromLittleEndianBound(b[1..]);
    }
  }

  /** The other direction: the bytes are those of the number they decode to. */
  lemma {:induction false} LittleEndianCanonical(b: Bytes)
    ensures LittleEndian(FromLittleEndian(b), |b|) == b
  {
    if b != [] {
      LittleEndianCanonical(b[1..]);
      var n := FromLittleEndian(b);
      assert n % 0x100 == b[0] && n / 0x100 == FromLittleEndian(b[1..]);
      assert b == [b[0]] + b[1..];
    }
  }

  /** Numbers below 256^width have distinct encodings. */
  lemma LittleEndianInjective(m: nat, n: nat, width: nat)
    requires m < Radix(width) && n < Radix(width)
    requires LittleEndian(m, width) == LittleEndian(n, width)
    ensures m == n
  {
    LittleEndianRoundTrip(m, width);
    LittleEndianRoundTrip(n, width);
  }

  // ----- what the bytes mean as numbers

  /** Byte `i` of the encoding is digit `i` of the number. */
  lemma {:induction false} LittleEndianDigit(n: nat, width: nat, i: nat)
    requires i < width
    ensures LittleEndian(n, width)[i] == n / Radix(i) % 0x100
    decreases width
  {
    if i > 0 {
      LittleEndianDigit(n / 0x100, width - 1, i - 1);
      DivideTwice(n, Radix(i - 1));
    } else {
      assert Radix(0) == 1;
    }
  }

  lemma DivideTwice(n: nat, d: nat)
    requires d > 0
    ensures n / 0x100 / d == n / (0x100 * d)
  {
    var q, r := n / (0x100 * d), n % (0x100 * d);
    assert n == q * (0x100 * d) + r;
    assert n / 0x100 == q * d + r / 0x100;
    SmallRemainder(q, d, r / 0x100);
  }

  lemma SmallRemainder(q: nat, d: nat, r: nat)
    requires d > 0 && r < d
    ensures (q * d + r) / d == q
  {
    var p := (q * d + r) / d;
    if p < q {
      Multiples(p + 1, q, d);
    } else if p > q {
      Multiples(q + 1, p, d);
    }
  }

  lemma Multiples(x: nat, y: nat, d: nat)
    requires x <= y
    ensures x * d <= y * d
  {
  }

  /** The number that a byte string writes out, most significant byte first. */
  function BigEndian(b: Bytes): nat
  {
    if b == [] then 0 else BigEndian(b[..|b| - 1]) * 0x100 + b[|b| - 1]
  }

  lemma {:induction false} BigEndianFirst(b: Bytes)
    requires b != []
    ensures BigEndian(b) == b[0] * Radix(|b| - 1) + BigEndian(b[1..])
    ensures BigEndian(b[1..]) < Radix(|b| - 1)
  {
    hide Radix;
    var n := |b| - 1;
    if n == 0 {
      RadixZero();
      assert b[..0] == [] && b[1..] == [];
    } else {
      BigEndianFirst(b[..n]);
      assert b[..n][1..] == b[1..][..n - 1] && b[..n][0] == b[0];
      RadixNext(n - 1);
      OneDigitMore(b[0], Radix(n - 1), BigEndian(b[..n][1..]), b[n]);
    }
  }

  lemma RadixZero()
    ensures Radix(0) == 1
  {
  }

  lemma RadixNext(k: nat)
    ensures Radix(k + 1) == 0x100 * Radix(k)
  {
  }

  lemma OneDigitMore(first: nat, p: nat, rest: nat, last: u8)
    requires rest < p
    ensures (first * p + rest) * 0x100 + last == first * (0x100 * p) + (rest * 0x100 + last)
    ensures rest * 0x100 + last < 0x100 * p
  {
  }

  /** The order of keys and hashes is the order of the numbers they write out. */
  lemma {:induction false} LeqIsNumeric(a: Bytes, b: Bytes)
    requires |a| == |b|
    ensures Leq(a, b) <==> BigEndian(a) <= BigEndian(b)
  {
    if a != [] {
      BigEndianFirst(a);
      BigEndianFirst(b);
      LeqIsNumeric(a[1..], b[1..]);
      FirstDecides(a[0], BigEndian(a[1..]), b[0], BigEndian(b[1..]), Radix(|a| - 1));
    }
  }

  lemma FirstDecides(x: nat, r: nat, y: nat, s: nat, p: nat)
    requires r < p && s < p
    ensures x * p + r <= y * p + s <==> x < y || (x == y && r <= s)
  {
    if x < y {
      Multiples(x + 1, y, p);
    } else if y < x {
      Multiples(y + 1, x, p);
    }
  }
}
