/** Eight nibbles to a signed 32-bit word and back. */
module Int4 {
  import opened Arithmetic

  // ---------------------------------------------------------------------
  // Words
  // ---------------------------------------------------------------------

  const TWO_32 := 0x1_0000_0000
  const TWO_31 := 0x8000_0000

  /** A signed 32-bit word. */
  predicate IsInt32(w: int) {
    -TWO_31 <= w < TWO_31
  }

  /** The 32-bit result of an integer operation: wrapped around. */
  function Wrap32(x: int): int {
    (x + TWO_31) % TWO_32 - TWO_31
  }

  function Pow16(i: nat): (p: nat)
    ensures p > 0
  {
    if i == 0 then 1 else 16 * Pow16(i - 1)
  }

  predicate AreNibbles(ns: seq<int>) {
    forall i :: 0 <= i < |ns| ==> 0 <= ns[i] < 16
  }

  /** Little-endian value of a nibble list. */
  function ValueOf(ns: seq<int>): int {
    if ns == [] then 0 else ns[0] + 16 * ValueOf(ns[1..])
  }

  /** The sum of the 32-bit left shifts of `ns[i..]`, nibble `i` by `4 * i` bits. */
  function ShiftedSum(ns: seq<int>, i: nat): int
    requires i <= |ns|
    decreases |ns| - i
  {
    if i == |ns| then 0 else Wrap32(ns[i] * Pow16(i)) + ShiftedSum(ns, i + 1)
  }

  /** Pack: shift each nibble left as a 32-bit word, sum, truncate to 32 bits. */
  function Pack(ns: seq<int>): int
    requires |ns| == 8
  {
    Wrap32(ShiftedSum(ns, 0))
  }

  /** Arithmetic right shift by `4 * i` bits: the sign is extended. */
  function ShiftRight(w: int, i: nat): int {
    w / Pow16(i)
  }

  /** `(w >> 4 * i) & 0xF`, on a two's complement word. */
  function Nibble(w: int, i: nat): int {
    ShiftRight(w, i) % 16
  }

  function Unpack(w: int): seq<int> {
    Digits(w, 8)
  }

  lemma {:induction false} ValueBounds(ns: seq<int>)
    requires AreNibbles(ns)
    ensures 0 <= ValueOf(ns) < Pow16(|ns|)
  {
    if ns != [] {
      ValueBounds(ns[1..]);
    }
  }

  lemma DivDiv(x: int, a: int, b: int)
    requires a > 0 && b > 0
    ensures a * b > 0 && x / (a * b) == x / a / b
  {
    PositiveProduct(a, b);
    QuotientAndRest(x, a);
    QuotientAndRest(x / a, b);
    QuotientOfTwo(x, a, b, x / a, x % a, x / a / b, x / a % b);
  }

  lemma QuotientAndRest(x: int, b: int)
    requires b > 0
    ensures x == x / b * b + x % b && 0 <= x % b < b
  {
  }

  lemma QuotientOfTwo(x: int, a: int, b: int, q: int, r: int, q2: int, r2: int)
    requires a > 0 && 0 <= r2 < b && 0 <= r < a && x == q * a + r && q == q2 * b + r2
    ensures a * b > 0 && x / (a * b) == q2
  {
    RemainderOfTwo(a, b, q2, r2, r);
    DivModUnique(q2, a * b, r2 * a + r);
  }

  /** Quotient by `a`, then by `b`: the two remainders make one below `a * b`. */
  lemma RemainderOfTwo(a: int, b: int, q2: int, r2: int, r: int)
    requires a > 0 && 0 <= r2 < b && 0 <= r < a
    ensures (q2 * b + r2) * a + r == q2 * (a * b) + (r2 * a + r)
    ensures 0 <= r2 * a + r < a * b
  {
    assert (q2 * b) * a == q2 * (a * b);
    assert (q2 * b + r2) * a == (q2 * b) * a + r2 * a;
    MulMonotone(r2 + 1, b, a);
    MulMonotone(0, r2, a);
    assert (r2 + 1) * a == r2 * a + a;
  }

  lemma ShiftRightStep(w: int, i: nat)
    ensures ShiftRight(w, i + 1) == ShiftRight(w / 16, i)
  {
    DivDiv(w, 16, Pow16(i));
  }

  /** Nibble `i` of a value is its `i`-th digit, whatever multiple of 16^8 is added. */
  lemma {:induction false} NibbleOfValue(ns: seq<int>, high: int, i: nat)
    requires AreNibbles(ns) && i < |ns|
    ensures Nibble(ValueOf(ns) + high * Pow16(|ns|), i) == ns[i]
    decreases |ns|
  {
    var w := ValueOf(ns) + high * Pow16(|ns|);
    var rest := ValueOf(ns[1..]) + high * Pow16(|ns| - 1);
    DigitStep(w, rest, ns[0], ValueOf(ns[1..]), high, Pow16(|ns| - 1));
    assert w % 16 == ns[0] && w / 16 == rest;
    if i > 0 {
      ShiftRightStep(w, i - 1);
      NibbleOfValue(ns[1..], high, i - 1);
    }
  }

  lemma Pow16Values()
    ensures Pow16(1) == 0x10 && Pow16(2) == 0x100 && Pow16(3) == 0x1000 && Pow16(4) == 0x1_0000
    ensures Pow16(5) == 0x10_0000 && Pow16(6) == 0x100_0000 && Pow16(7) == 0x1000_0000 && Pow16(8) == TWO_32
  {
    assert Pow16(2) == 16 * Pow16(1);
    assert Pow16(4) == 16 * Pow16(3);
    assert Pow16(6) == 16 * Pow16(5);
    assert Pow16(8) == 16 * Pow16(7);
  }

  /** A nibble's shift fits in a word, except a top nibble of eight or more, which
    * lands on the sign bit. */
  lemma ShiftWraps(n: int, i: nat)
    requires 0 <= n < 16 && i < 8
    ensures Wrap32(n * Pow16(i)) == n * Pow16(i) - (if i == 7 && n >= 8 then TWO_32 else 0)
  {
    Pow16Values();
  }

  lemma {:induction false} ShiftedSumIsValue(ns: seq<int>, i: nat)
    requires |ns| == 8 && AreNibbles(ns) && i <= 8
    ensures ShiftedSum(ns, i) == Pow16(i) * ValueOf(ns[i..]) - (if i < 8 && ns[7] >= 8 then TWO_32 else 0)
    decreases 8 - i
  {
    if i < 8 {
      ShiftedSumIsValue(ns, i + 1);
      ShiftWraps(ns[i], i);
      assert ns[i..][1..] == ns[i + 1..];
      ShiftUp(Pow16(i), ns[i], ValueOf(ns[i + 1..]));
    }
  }

  lemma ShiftUp(p: int, n: int, v: int)
    ensures p * (n + 16 * v) == n * p + (16 * p) * v
  {
  }

  /** The packed word is the nibbles' value, taken as a signed word. */
  lemma PackIsSignedValue(ns: seq<int>)
    requires |ns| == 8 && AreNibbles(ns)
    ensures Pack(ns) == ValueOf(ns) - (if ns[7] >= 8 then TWO_32 else 0)
    ensures IsInt32(Pack(ns)) && (Pack(ns) < 0 <==> ns[7] >= 8)
  {
    ShiftedSumIsValue(ns, 0);
    assert ns[0..] == ns;
    TopDigitDecides(ns);
  }

  lemma TopDigitDecides(ns: seq<int>)
    requires |ns| == 8 && AreNibbles(ns)
    ensures 0 <= ValueOf(ns) < TWO_32 && (ValueOf(ns) >= TWO_31 <==> ns[7] >= 8)
  {
    ValueBounds(ns);
    Pow16Values();
    ValueSplits(ns, 7);
    ValueBounds(ns[..7]);
    assert ns[7..] == [ns[7]] && ValueOf([ns[7]]) == ns[7] by { assert [ns[7]][1..] == []; }
  }

  lemma {:induction false} ValueSplits(ns: seq<int>, k: nat)
    requires k <= |ns|
    ensures ValueOf(ns) == ValueOf(ns[..k]) + Pow16(k) * ValueOf(ns[k..])
    decreases k
  {
    if k == 0 {
      assert ns[0..] == ns;
    } else {
      ValueSplits(ns[1..], k - 1);
      assert ns[..k][1..] == ns[1..][..k - 1] && ns[1..][k - 1..] == ns[k..];
      var v := ValueOf(ns[k..]);
      assert 16 * (Pow16(k - 1) * v) == Pow16(k) * v;
    }
  }

  /** Nibble by nibble: the first nibble is the lowest one of the word. */
  lemma PackByHand(ns: seq<int>)
    requires |ns| == 8 && AreNibbles(ns)
    ensures Pack(ns) == ns[0] + 0x10 * ns[1] + 0x100 * ns[2] + 0x1000 * ns[3] + 0x1_0000 * ns[4] + 0x10_0000 * ns[5]
                        + 0x100_0000 * ns[6] + 0x1000_0000 * (if ns[7] >= 8 then ns[7] - 16 else ns[7])
  {
    PackIsSignedValue(ns);
    ValueOfEight(ns[0], ns[1], ns[2], ns[3], ns[4], ns[5], ns[6], ns[7]);
    assert ns == [ns[0], ns[1], ns[2], ns[3], ns[4], ns[5], ns[6], ns[7]];
  }

  lemma ValueOfEight(a: int, b: int, c: int, d: int, e: int, f: int, g: int, h: int)
    ensures ValueOf([a, b, c, d, e, f, g, h])
         == a + 16 * (b + 16 * (c + 16 * (d + 16 * (e + 16 * (f + 16 * (g + 16 * h))))))
  {
    ValueOfFour(e, f, g, h);
    ValueSplits([a, b, c, d, e, f, g, h], 4);
    Pow16Values();
    assert [a, b, c, d, e, f, g, h][..4] == [a, b, c, d] && [a, b, c, d, e, f, g, h][4..] == [e, f, g, h];
    ValueOfFour(a, b, c, d);
  }

  lemma ValueOfFour(a: int, b: int, c: int, d: int)
    ensures ValueOf([a, b, c, d]) == a + 16 * (b + 16 * (c + 16 * d))
  {
    assert [a, b, c, d][1..] == [b, c, d] && [b, c, d][1..] == [c, d] && [c, d][1..] == [d] && [d][1..] == [];
    assert ValueOf([c, d]) == c + 16 * ValueOf([d]);
    assert ValueOf([b, c, d]) == b + 16 * ValueOf([c, d]);
  }

  /** Unpacking gives back the packed nibbles, sign bit or not. */
  lemma UnpackUndoesPack(ns: seq<int>)
    requires |ns| == 8 && AreNibbles(ns)
    ensures Unpack(Pack(ns)) == ns
  {
    PackIsSignedValue(ns);
    Pow16Values();
    var high := if ns[7] >= 8 then -1 else 0;
    forall i | 0 <= i < 8 ensures Nibble(Pack(ns), i) == ns[i] {
      NibbleOfValue(ns, high, i);
    }
  }

  /** The lowest `n` nibbles. */
  function Digits(w: int, n: nat): (ns: seq<int>)
    ensures |ns| == n
  {
    seq(n, i requires 0 <= i < n => Nibble(w, i))
  }

  lemma {:induction false} DigitsRebuild(w: int, n: nat)
    ensures AreNibbles(Digits(w, n)) && w == ValueOf(Digits(w, n)) + ShiftRight(w, n) * Pow16(n)
    decreases n
  {
    if n > 0 {
      DigitsRebuild(w / 16, n - 1);
      var ns, rest := Digits(w, n), Digits(w / 16, n - 1);
      forall i | 0 <= i < n - 1 ensures ns[1..][i] == rest[i] {
        ShiftRightStep(w, i);
      }
      assert ns[1..] == rest && ns[0] == w % 16;
      ShiftRightStep(w, n - 1);
      assert ValueOf(ns) == ns[0] + 16 * ValueOf(rest);
      DigitStep(w, w / 16, ns[0], ValueOf(rest), ShiftRight(w, n), Pow16(n - 1));
    }
  }

  lemma DigitStep(w: int, up: int, digit: int, value: int, high: int, p: int)
    requires up == value + high * p
    ensures w == 16 * up + digit <==> w == digit + 16 * value + high * (16 * p)
  {
    assert high * (16 * p) == 16 * (high * p);
  }

  /** Packing gives back the unpacked word, for every signed 32-bit word. */
  lemma PackUndoesUnpack(w: int)
    requires IsInt32(w)
    ensures AreNibbles(Unpack(w)) && Pack(Unpack(w)) == w
  {
    WordIsItsDigits(w);
    PackIsSignedValue(Unpack(w));
    TopDigitDecides(Unpack(w));
    SignedWord(w, ValueOf(Unpack(w)), ShiftRight(w, 8));
  }

  lemma SignedWord(w: int, v: int, high: int)
    requires IsInt32(w) && 0 <= v < TWO_32 && w == v + high * TWO_32
    ensures w == v - (if v >= TWO_31 then TWO_32 else 0)
  {
  }

  /** A word is its digits' value, plus a multiple of 2^32. */
  lemma WordIsItsDigits(w: int)
    ensures AreNibbles(Unpack(w)) && w == ValueOf(Unpack(w)) + ShiftRight(w, 8) * TWO_32
  {
    DigitsRebuild(w, 8);
    Pow16Values();
  }

  /** Without the `& 0xF` the top nibble comes back right exactly when it is below
    * eight: otherwise the shift has extended the sign. */
  lemma TopNibbleNeedsTheMask(ns: seq<int>)
    requires |ns| == 8 && AreNibbles(ns)
    ensures ShiftRight(Pack(ns), 7) == ns[7] - (if ns[7] >= 8 then 16 else 0)
    ensures ShiftRight(Pack(ns), 7) == ns[7] <==> ns[7] < 8
  {
    PackIsSignedValue(ns);
    ValueSplits(ns, 7);
    ValueBounds(ns[..7]);
    Pow16Values();
    assert ns[7..] == [ns[7]] && ValueOf([ns[7]]) == ns[7] by { assert [ns[7]][1..] == []; }
  }
}
