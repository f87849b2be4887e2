/** Bytes, and the few bitwise operations the runtime performs on unsigned words,
    defined on natural numbers so that words of any width share one definition. */
module Bits {

  type Byte = b: int | 0 <= b < 256

  function Pow2(n: nat): (r: nat)
    ensures r > 0
  {
    if n == 0 then 1 else 2 * Pow2(n - 1)
  }

  function XorBit(a: nat, b: nat): nat {
    if a % 2 == b % 2 then 0 else 1
  }

  /** Bitwise exclusive or. */
  function Xor(a: nat, b: nat): nat
    decreases a + b
  {
    if a == 0 && b == 0 then 0 else XorBit(a, b) + 2 * Xor(a / 2, b / 2)
  }

  function AndBit(a: nat, b: nat): nat {
    if a % 2 == 1 && b % 2 == 1 then 1 else 0
  }

  /** Bitwise and. */
  function And(a: nat, b: nat): nat
    decreases a + b
  {
    if a == 0 && b == 0 then 0 else AndBit(a, b) + 2 * And(a / 2, b / 2)
  }

  function OrBit(a: nat, b: nat): nat {
    if a % 2 == 1 || b % 2 == 1 then 1 else 0
  }

  /** Bitwise or. */
  function Or(a: nat, b: nat): nat
    decreases a + b
  {
    if a == 0 && b == 0 then 0 else OrBit(a, b) + 2 * Or(a / 2, b / 2)
  }

  lemma OrZero()
    ensures Or(0, 0) == 0
  {
  }

  lemma OrStep(a: nat, q: nat, b: nat, q': nat)
    ensures Or(a + 2 * q, b + 2 * q') == OrBit(a, b) + 2 * Or(a / 2 + q, b / 2 + q')
  {
    Halves(a, q);
    Halves(b, q');
  }

  lemma {:induction false} OrConcat(n: nat, a: nat, a': nat, b: nat, b': nat)
    requires a < Pow2(n) && b < Pow2(n)
    ensures Or(a + Pow2(n) * a', b + Pow2(n) * b') == Or(a, b) + Pow2(n) * Or(a', b')
    ensures Or(a, b) < Pow2(n)
  {
    hide Or;
    if n == 0 {
      OrZero();
    } else {
      OrConcat(n - 1, a / 2, a', b / 2, b');
      MulDouble(Pow2(n - 1), a');
      MulDouble(Pow2(n - 1), b');
      MulDouble(Pow2(n - 1), Or(a', b'));
      OrStep(a, Pow2(n - 1) * a', b, Pow2(n - 1) * b');
      OrStep(a, 0, b, 0);
    }
  }

  lemma OrBytes(a: Byte, b: Byte)
    ensures Or(a, b) < 256
  {
    assert Pow2(8) == 256;
    OrConcat(8, a, 0, b, 0);
  }

  /** Setting one bit of a word leaves the others as they were. */
  lemma {:induction false} SetBit(m: nat, a: nat, b: nat)
    ensures And(Or(m, Pow2(a)), Pow2(b)) != 0 <==> a == b || And(m, Pow2(b)) != 0
    decreases a + b
  {
    OrHalf(m, a);
    if b == 0 {
      AndOne(Or(m, Pow2(a)));
      AndOne(m);
    } else {
      AndHalf(Or(m, Pow2(a)), b);
      AndHalf(m, b);
      if a == 0 {
        OrZeroRight(m / 2);
      } else {
        SetBit(m / 2, a - 1, b - 1);
      }
    }
  }

  lemma {:induction false} OrZeroRight(m: nat)
    ensures Or(m, 0) == m
  {
    if m > 0 { OrZeroRight(m / 2); }
  }

  lemma OrParts(a: nat, b: nat)
    ensures Or(a, b) % 2 == OrBit(a, b) && Or(a, b) / 2 == Or(a / 2, b / 2)
  {
  }

  lemma {:induction false} AndZero(a: nat)
    ensures And(a, 0) == 0 && And(0, a) == 0
  {
    if a > 0 { AndZero(a / 2); }
  }

  lemma AndParts(a: nat, b: nat)
    ensures And(a, b) == AndBit(a, b) + 2 * And(a / 2, b / 2)
  {
  }

  lemma Pow2Half(a: nat)
    requires a > 0
    ensures Pow2(a) / 2 == Pow2(a - 1) && Pow2(a) % 2 == 0
  {
  }

  lemma OrHalf(m: nat, a: nat)
    ensures Or(m, Pow2(a)) / 2 == Or(m / 2, if a == 0 then 0 else Pow2(a - 1))
    ensures Or(m, Pow2(a)) % 2 == if a == 0 then 1 else m % 2
  {
    assert Pow2(0) == 1;
    hide Or, Pow2;
    OrParts(m, Pow2(a));
    if a > 0 { Pow2Half(a); }
  }

  lemma AndHalf(m: nat, b: nat)
    requires b > 0
    ensures And(m, Pow2(b)) == 2 * And(m / 2, Pow2(b - 1))
  {
    hide And, Pow2;
    AndParts(m, Pow2(b));
    Pow2Half(b);
  }

  lemma AndOne(m: nat)
    ensures And(m, Pow2(0)) == m % 2
  {
    assert Pow2(0) == 1;
    hide And;
    AndParts(m, 1);
    AndZero(m / 2);
  }

  lemma XorParts(a: nat, b: nat)
    ensures Xor(a, b) % 2 == XorBit(a, b) && Xor(a, b) / 2 == Xor(a / 2, b / 2)
  {
  }

  lemma {:induction false} XorInvolutive(a: nat, b: nat)
    ensures Xor(Xor(a, b), b) == a
    decreases a + b
  {
    if a == 0 && b == 0 {
      assert Xor(0, 0) == 0;
    } else {
      hide Xor;
      XorInvolutive(a / 2, b / 2);
      XorParts(a, b);
      XorParts(Xor(a, b), b);
      SameHalves(Xor(Xor(a, b), b), a);
    }
  }

  lemma SameHalves(x: nat, y: nat)
    requires x / 2 == y / 2 && x % 2 == y % 2
    ensures x == y
  {
  }

  /** Two words can be combined half by half: no carry crosses the cut. */
  lemma {:induction false} XorConcat(n: nat, a: nat, a': nat, b: nat, b': nat)
    requires a < Pow2(n) && b < Pow2(n)
    ensures Xor(a + Pow2(n) * a', b + Pow2(n) * b') == Xor(a, b) + Pow2(n) * Xor(a', b')
    ensures Xor(a, b) < Pow2(n)
  {
    hide Xor;
    if n == 0 {
      XorZero();
    } else {
      XorConcat(n - 1, a / 2, a', b / 2, b');
      MulDouble(Pow2(n - 1), a');
      MulDouble(Pow2(n - 1), b');
      MulDouble(Pow2(n - 1), Xor(a', b'));
      XorStep(a, Pow2(n - 1) * a', b, Pow2(n - 1) * b');
      XorStep(a, 0, b, 0);
    }
  }

  lemma XorZero()
    ensures Xor(0, 0) == 0
  {
  }

  lemma MulDouble(p: nat, q: nat)
    ensures 2 * p * q == 2 * (p * q) && p * q >= 0
  {
  }

  lemma XorStep(a: nat, q: nat, b: nat, q': nat)
    ensures Xor(a + 2 * q, b + 2 * q') == XorBit(a, b) + 2 * Xor(a / 2 + q, b / 2 + q')
  {
    Halves(a, q);
    Halves(b, q');
  }

  lemma Halves(a: nat, q: nat)
    ensures (a + 2 * q) / 2 == a / 2 + q && (a + 2 * q) % 2 == a % 2
  {
  }

  /** The power-of-two mask of the ring queue is a remainder. */
  lemma {:induction false} AndMaskIsMod(x: nat, k: nat)
    ensures And(x, Pow2(k) - 1) == x % Pow2(k)
  {
    assert Pow2(0) == 1;
    hide And;
    if k == 0 {
      AndZero(x);
    } else {
      AndMaskIsMod(x / 2, k - 1);
      MaskDouble(x, Pow2(k - 1));
    }
  }

  lemma MaskDouble(x: nat, p: nat)
    requires p > 0 && And(x / 2, p - 1) == (x / 2) % p
    ensures And(x, 2 * p - 1) == x % (2 * p)
  {
    hide And;
    MaskStep(x, p);
    ModHalves(x, p);
  }

  lemma MaskStep(x: nat, p: nat)
    requires p > 0
    ensures And(x, 2 * p - 1) == x % 2 + 2 * And(x / 2, p - 1)
  {
    hide And;
    AndParts(x, 2 * p - 1);
    assert (2 * p - 1) % 2 == 1 && (2 * p - 1) / 2 == p - 1;
  }

  lemma ModHalves(x: nat, p: nat)
    requires p > 0
    ensures x % (2 * p) == x % 2 + 2 * ((x / 2) % p)
  {
    var q, r := (x / 2) / p, (x / 2) % p;
    assert x == 2 * (q * p + r) + x % 2;
    assert x == q * (2 * p) + (2 * r + x % 2);
    DivModUnique(x, 2 * p, q, 2 * r + x % 2);
  }

  lemma DivModUnique(x: int, d: int, q: int, r: int)
    requires d > 0 && 0 <= r < d && x == q * d + r
    ensures x / d == q && x % d == r
  {
    QuotientUnique(d, q, r, x / d, x % d);
  }

  lemma QuotientUnique(d: int, q: int, r: int, q': int, r': int)
    requires 0 <= r < d && 0 <= r' < d && q * d + r == q' * d + r'
    ensures q == q' && r == r'
  {
    if q != q' {
      MulAtLeast(if q > q' then q - q' else q' - q, d);
    }
  }

  lemma MulAtLeast(k: int, d: int)
    requires k >= 1 && d >= 0
    ensures k * d >= d
  {
  }

  lemma XorBytes(a: Byte, b: Byte)
    ensures Xor(a, b) < 256
  {
    assert Pow2(8) == 256;
    XorConcat(8, a, 0, b, 0);
  }

  // ---------------------------------------------------------------- endianness

  function Pow256(n: nat): (r: nat)
    ensures r > 0
  {
    if n == 0 then 1 else 256 * Pow256(n - 1)
  }

  /** The value of a big-endian byte string. */
  function FromBE(s: seq<Byte>): nat {
    if s == [] then 0 else 256 * FromBE(s[..|s| - 1]) + s[|s| - 1]
  }

  /** The last `n` big-endian bytes of `v`. */
  function ToBE(v: nat, n: nat): (s: seq<Byte>)
    ensures |s| == n
  {
    if n == 0 then [] else ToBE(v / 256, n - 1) + [v % 256]
  }

  lemma {:induction false} FromBEBound(s: seq<Byte>)
    ensures FromBE(s) < Pow256(|s|)
  {
    if s != [] { FromBEBound(s[..|s| - 1]); }
  }

  lemma {:induction false} ToBEFromBE(s: seq<Byte>)
    ensures ToBE(FromBE(s), |s|) == s
  {
    if s != [] { ToBEFromBE(s[..|s| - 1]); }
  }

  lemma {:induction false} FromBEToBE(v: nat, n: nat)
    requires v < Pow256(n)
    ensures FromBE(ToBE(v, n)) == v
  {
    if n > 0 {
      FromBEToBE(v / 256, n - 1);
      assert ToBE(v, n)[..n - 1] == ToBE(v / 256, n - 1);
    }
  }

  lemma FromBEOfPair(s: seq<Byte>)
    requires |s| == 2
    ensures FromBE(s) == 256 * (s[0] as int) + s[1]
  {
    assert s[..1] == [s[0]] && [s[0]][..0] == [];
    assert FromBE([s[0]]) == s[0];
  }

  lemma MulAssoc(a: int, b: int, c: int)
    ensures a * (b * c) == b * (a * c)
  {
  }

  /** The i-th big-endian byte, by the shift the code uses. */
  lemma {:induction false} ToBEIndex(v: nat, n: nat, i: nat)
    requires i < n
    ensures ToBE(v, n)[i] == v / Pow256(n - 1 - i) % 256
  {
    if i < n - 1 {
      ToBEIndex(v / 256, n - 1, i);
      DivDiv(v, Pow256(n - 2 - i));
    }
  }

  lemma DivDiv(v: nat, p: nat)
    requires p > 0
    ensures v / 256 / p == v / (256 * p)
  {
    var q, r := v / 256 / p, v / 256 % p;
    MulAssoc(q, 256, p);
    DivModUnique(v, 256 * p, q, 256 * r + v % 256);
  }

  /** The value of a little-endian byte string. */
  function FromLE(s: seq<Byte>): nat {
    if s == [] then 0 else (s[0] as int) + 256 * FromLE(s[1..])
  }

  /** The first `n` little-endian bytes of `v`. */
  function ToLE(v: nat, n: nat): (s: seq<Byte>)
    ensures |s| == n
  {
    if n == 0 then [] else [v % 256] + ToLE(v / 256, n - 1)
  }

  lemma {:induction false} ToLEFromLE(s: seq<Byte>)
    ensures ToLE(FromLE(s), |s|) == s
    ensures FromLE(s) < Pow256(|s|)
  {
    if s != [] { ToLEFromLE(s[1..]); }
  }

  lemma {:induction false} FromLEToLE(v: nat, n: nat)
    requires v < Pow256(n)
    ensures FromLE(ToLE(v, n)) == v
  {
    if n > 0 {
      FromLEToLE(v / 256, n - 1);
      assert ToLE(v, n)[1..] == ToLE(v / 256, n - 1);
    }
  }

  lemma XorLEStep(a: seq<Byte>, v: nat)
    requires a != []
    ensures Xor(a[0], v % 256) < 256
    ensures Xor(FromLE(a), v) == Xor(a[0], v % 256) + 256 * Xor(FromLE(a[1..]), v / 256)
  {
    hide Xor;
    assert Pow2(8) == 256;
    XorConcat(8, a[0], FromLE(a[1..]), v % 256, v / 256);
  }

  lemma ToLEStep(x: nat, y: nat, n: nat)
    requires x < 256 && n > 0
    ensures ToLE(x + 256 * y, n) == [x] + ToLE(y, n - 1)
  {
    SplitByte(x, y);
  }

  lemma SplitByte(x: nat, y: nat)
    requires x < 256
    ensures (x + 256 * y) % 256 == x && (x + 256 * y) / 256 == y
  {
  }

  /** One word-wide exclusive or acts on every byte of the word. */
  lemma {:induction false} XorLE(a: seq<Byte>, v: nat, i: nat)
    requires i < |a|
    ensures ToLE(Xor(FromLE(a), v), |a|)[i] == Xor(a[i], ToLE(v, |a|)[i])
  {
    XorLEStep(a, v);
    ToLEStep(Xor(a[0], v % 256), Xor(FromLE(a[1..]), v / 256), |a|);
    if i > 0 { XorLE(a[1..], v / 256, i - 1); }
  }
}
