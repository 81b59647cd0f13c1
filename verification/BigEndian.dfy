/**
  Bytes, their reading as one big-endian integer, and exclusive or of unbounded integers
  (the big-integer operations `_xor_stream` in distil/atrest.py relies on).
*/
module BigEndian {

  type Byte = b: nat | b < 256

  type Bytes = seq<Byte>

  /** Bitwise exclusive or of two natural numbers. */
  function BitXor(a: nat, b: nat): nat {
    if a == 0 && b == 0 then 0 else 2 * BitXor(a / 2, b / 2) + (a + b) % 2
  }

  /** a with k zero bits appended. */
  function Shift(a: nat, k: nat): nat {
    if k == 0 then a else 2 * Shift(a, k - 1)
  }

  /** The lowest bits are combined on their own. */
  lemma XorLowBit(a: nat, b: nat, x: nat, y: nat)
    ensures BitXor(2 * a + x, 2 * b + y) == 2 * BitXor(a + x / 2, b + y / 2) + (x + y) % 2
  {
    assert (2 * a + x) / 2 == a + x / 2 && (2 * b + y) / 2 == b + y / 2;
    assert ((2 * a + x) + (2 * b + y)) % 2 == (x + y) % 2;
  }

  lemma XorSplitsStep(a: nat, b: nat, z: nat, x: nat, y: nat)
    requires BitXor(a + x / 2, b + y / 2) == z + BitXor(x / 2, y / 2)
    ensures BitXor(2 * a + x, 2 * b + y) == 2 * z + BitXor(x, y)
    ensures BitXor(x, y) == 2 * BitXor(x / 2, y / 2) + (x + y) % 2
  {
    XorLowBit(a, b, x, y);
    XorLowBit(0, 0, x, y);
  }

  /** The low k bits and the bits above them do not influence each other. */
  lemma {:induction false} XorSplits(k: nat, a: nat, b: nat, x: nat, y: nat)
    requires x < Shift(1, k) && y < Shift(1, k)
    ensures BitXor(Shift(a, k) + x, Shift(b, k) + y) == Shift(BitXor(a, b), k) + BitXor(x, y)
    ensures BitXor(x, y) < Shift(1, k)
  {
    if k == 0 {
    } else {
      XorSplits(k - 1, a, b, x / 2, y / 2);
      XorSplitsStep(Shift(a, k - 1), Shift(b, k - 1), Shift(BitXor(a, b), k - 1), x, y);
    }
  }

  /** a without its k lowest bits. */
  function Drop(a: nat, k: nat): nat {
    if k == 0 then a else Drop(a / 2, k - 1)
  }

  /** Bit k of the exclusive or is one exactly when the bits k differ. */
  lemma {:induction false} XorBitAt(a: nat, b: nat, k: nat)
    ensures Drop(BitXor(a, b), k) % 2 == (Drop(a, k) + Drop(b, k)) % 2
  {
    if k == 0 {
    } else {
      XorBitAt(a / 2, b / 2, k - 1);
    }
  }

  lemma ShiftByByte(a: nat)
    ensures Shift(a, 8) == 256 * a
  {
    assert Shift(a, 1) == 2 * a;
    assert Shift(a, 3) == 2 * Shift(a, 2) == 8 * a;
    assert Shift(a, 5) == 2 * Shift(a, 4) == 32 * a;
    assert Shift(a, 7) == 2 * Shift(a, 6) == 128 * a;
  }

  lemma XorBits(a: nat, b: nat, p: nat, q: nat)
    requires p < 2 && q < 2
    ensures BitXor(2 * a + p, 2 * b + q) == 2 * BitXor(a, b) + if p == q then 0 else 1
  {
    XorLowBit(a, b, p, q);
    assert p / 2 == 0 && q / 2 == 0;
  }

  lemma {:induction false} XorInvolution(a: nat, b: nat)
    ensures BitXor(BitXor(a, b), b) == a
    decreases a + b
  {
    if a == 0 && b == 0 {
    } else {
      var h, k, p, q := a / 2, b / 2, a % 2, b % 2;
      XorInvolution(h, k);
      assert a == 2 * h + p && b == 2 * k + q;
      XorBits(h, k, p, q);
      XorBits(BitXor(h, k), k, if p == q then 0 else 1, q);
    }
  }

  lemma XorUnfolds(a: nat, b: nat)
    ensures BitXor(a, b) == 2 * BitXor(a / 2, b / 2) + (a + b) % 2
  {
  }

  lemma SameHalves(x: nat, y: nat, p: nat, q: nat)
    requires 2 * x + p == 2 * y + q && p < 2 && q < 2
    ensures x == y && p == q
  {
  }

  lemma FromHalves(a: nat, b: nat, c: nat)
    requires b / 2 == c / 2 && (a + b) % 2 == (a + c) % 2
    ensures b == c
  {
  }

  /** Exclusive or with one number tells all others apart. */
  lemma {:induction false} XorDetermines(a: nat, b: nat, c: nat)
    ensures BitXor(a, b) == BitXor(a, c) ==> b == c
    decreases a + b + c
  {
    if a == 0 && b == 0 && c == 0 {
    } else if BitXor(a, b) == BitXor(a, c) {
      XorUnfolds(a, b);
      XorUnfolds(a, c);
      SameHalves(BitXor(a / 2, b / 2), BitXor(a / 2, c / 2), (a + b) % 2, (a + c) % 2);
      XorDetermines(a / 2, b / 2, c / 2);
      FromHalves(a, b, c);
    }
  }

  /** int.from_bytes(s, "big") */
  function ToInt(s: Bytes): nat {
    if s == [] then 0 else 256 * ToInt(s[..|s| - 1]) + s[|s| - 1]
  }

  /** v.to_bytes(n, "big") for v below 256 to the n */
  function FromInt(v: nat, n: nat): (s: Bytes)
    ensures |s| == n
  {
    if n == 0 then [] else FromInt(v / 256, n - 1) + [v % 256]
  }

  lemma ByteXor(x: Byte, y: Byte)
    ensures BitXor(x, y) < 256
  {
    ShiftByByte(1);
    XorSplits(8, 0, 0, x, y);
  }

  lemma XorLastByte(a: nat, b: nat, x: Byte, y: Byte)
    ensures BitXor(256 * a + x, 256 * b + y) == 256 * BitXor(a, b) + BitXor(x, y)
  {
    ShiftByByte(1);
    ShiftByByte(a);
    ShiftByByte(b);
    ShiftByByte(BitXor(a, b));
    XorSplits(8, a, b, x, y);
  }

  function XorByte(x: Byte, y: Byte): Byte {
    ByteXor(x, y);
    BitXor(x, y)
  }

  /** Exclusive or byte by byte. */
  function XorBytes(s: Bytes, t: Bytes): (r: Bytes)
    requires |s| == |t|
    ensures |r| == |s|
  {
    seq(|s|, i requires 0 <= i < |s| => XorByte(s[i], t[i]))
  }

  /** Exclusive or through one big integer. */
  function XorAsInt(s: Bytes, t: Bytes): (r: Bytes)
    requires |s| == |t|
    ensures |r| == |s|
  {
    FromInt(BitXor(ToInt(s), ToInt(t)), |s|)
  }

  /** The one-integer operation is the bytewise one, leading zero bytes included. */
  lemma {:induction false} XorAsIntIsBytewise(s: Bytes, t: Bytes)
    requires |s| == |t|
    ensures XorAsInt(s, t) == XorBytes(s, t)
  {
    if s == [] {
    } else {
      var n := |s| - 1;
      var hi, x, y := BitXor(ToInt(s[..n]), ToInt(t[..n])), s[n], t[n];
      XorAsIntIsBytewise(s[..n], t[..n]);
      XorLastByte(ToInt(s[..n]), ToInt(t[..n]), x, y);
      ByteXor(x, y);
      assert (256 * hi + BitXor(x, y)) / 256 == hi && (256 * hi + BitXor(x, y)) % 256 == BitXor(x, y);
      assert XorAsInt(s, t) == XorBytes(s[..n], t[..n]) + [XorByte(x, y)];
    }
  }

  /** The integer result fits its n bytes, so writing it out never overflows. */
  lemma {:induction false} XorAsIntFits(s: Bytes, t: Bytes)
    requires |s| == |t|
    ensures ToInt(XorAsInt(s, t)) == BitXor(ToInt(s), ToInt(t))
  {
    XorAsIntIsBytewise(s, t);
    if s != [] {
      var n := |s| - 1;
      XorAsIntFits(s[..n], t[..n]);
      XorAsIntIsBytewise(s[..n], t[..n]);
      XorLastByte(ToInt(s[..n]), ToInt(t[..n]), s[n], t[n]);
      assert XorBytes(s, t)[..n] == XorBytes(s[..n], t[..n]);
    }
  }
}
