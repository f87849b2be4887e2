/** The ready queue: a power-of-two ring whose indices run on and wrap at the word size, as a
    plain first-in-first-out sequence. */
module RingQueue {
  import opened Bits

  // bits in an index word
  const WORD_BITS := 64

  // ------------------------------------------------------------- indices and slots

  /** Where the index `k` behind `i` falls in a ring of `c` places. */
  function Slot(i: nat, k: nat, c: nat): (s: nat)
    requires c > 0
    ensures s < c
  {
    (i + k) % c
  }

  lemma {:induction false} Pow2Splits(a: nat, b: nat)
    ensures Pow2(a + b) == Pow2(a) * Pow2(b)
  {
    if a > 0 { Pow2Splits(a - 1, b); }
  }

  lemma ModOfMod(x: nat, p: nat, q: nat)
    requires p > 0 && q > 0 && p * q > 0
    ensures x % (p * q) % p == x % p
  {
    var n, r := x / (p * q), x % (p * q);
    var k, s := r / p, r % p;
    assert x == n * (p * q) + r && r == k * p + s;
    assert n * (p * q) == (n * q) * p;
    assert (n * q) * p + k * p == (n * q + k) * p;
    DivModUnique(x, p, n * q + k, s);
  }

  /** Masking a wrapped index gives the slot of the index that never wrapped. */
  lemma SlotOf(i: nat, k: nat, e: nat)
    requires e <= WORD_BITS
    ensures And(Slot(i, k, Pow2(WORD_BITS)), Pow2(e) - 1) == Slot(i, k, Pow2(e))
  {
    AndMaskIsMod((i + k) % Pow2(WORD_BITS), e);
    Pow2Splits(e, WORD_BITS - e);
    ModOfMod(i + k, Pow2(e), Pow2(WORD_BITS - e));
  }

  lemma NextWraps(i: nat, k: nat, w: nat)
    requires w > 1
    ensures Slot(Slot(i, k, w), 1, w) == Slot(i, k + 1, w)
  {
    var q, r := (i + k) / w, (i + k) % w;
    assert i + k == q * w + r;
    if r + 1 < w {
      DivModUnique(i + k + 1, w, q, r + 1);
      DivModUnique(r + 1, w, 0, r + 1);
    } else {
      assert (q + 1) * w == q * w + w;
      DivModUnique(i + k + 1, w, q + 1, 0);
      DivModUnique(r + 1, w, 1, 0);
    }
  }

  /** The word difference of two wrapped indices is their distance. */
  lemma Distance(i: nat, j: nat, k: nat, w: nat)
    requires j <= k < j + w
    ensures var h, t := Slot(i, j, w), Slot(i, k, w);
            (if t >= h then t - h else t - h + w) == k - j
  {
    var q, r, n := (i + j) / w, (i + j) % w, k - j;
    assert i + j == q * w + r;
    if r + n < w {
      DivModUnique(i + k, w, q, r + n);
    } else {
      assert (q + 1) * w == q * w + w;
      DivModUnique(i + k, w, q + 1, r + n - w);
    }
  }

  /** Indices less than a capacity apart have slots of their own. */
  lemma OwnSlots(i: nat, j: nat, k: nat, c: nat)
    requires j < k < j + c
    ensures Slot(i, j, c) != Slot(i, k, c)
  {
    hide Slot;
    Distance(i, j, k, c);
  }

  lemma Pow2Grows(a: nat, b: nat)
    requires a < b
    ensures Pow2(a) < Pow2(b)
    decreases b
  {
    if a < b - 1 { Pow2Grows(a, b - 1); }
  }

  // ---------------------------------------------------------------------- the ring

  class RingQueue {
    var buf: array<int>
    var mask: nat
    var head: nat
    var tail: nat
    // log2 of the capacity, the index of the front had it never wrapped, and the contents
    ghost var exp: nat
    ghost var first: nat
    ghost var items: seq<int>

    ghost predicate Valid()
      reads this, buf
    {
      && exp < WORD_BITS && buf.Length == Pow2(exp) && mask == Pow2(exp) - 1 && |items| <= Pow2(exp)
      && head == Slot(first, 0, Pow2(WORD_BITS)) && tail == Slot(first, |items|, Pow2(WORD_BITS))
      && forall k :: 0 <= k < |items| ==> buf[Slot(first, k, Pow2(exp))] == items[k]
    }

    constructor ()
      ensures Valid() && items == [] && fresh(buf)
    {
      buf := new int[1024];
      mask, head, tail := 1023, 0, 0;
      exp, first, items := 10, 0, [];
      new;
      hide Pow2, Slot;
      Start();
    }

    method Size() returns (n: nat)
      requires Valid()
      ensures n == |items|
    {
      hide Pow2, Slot;
      Pow2Grows(exp, WORD_BITS);
      Distance(first, 0, |items|, Pow2(WORD_BITS));
      n := if tail >= head then tail - head else tail - head + Pow2(WORD_BITS);
    }

    method Empty() returns (b: bool)
      requires Valid()
      ensures b <==> items == []
    {
      hide Pow2, Slot;
      Pow2Grows(exp, WORD_BITS);
      Distance(first, 0, |items|, Pow2(WORD_BITS));
      b := head == tail;
    }

    method Front() returns (h: int)
      requires Valid() && items != []
      ensures h == items[0]
    {
      hide Pow2, Slot;
      SlotOf(first, 0, exp);
      h := buf[And(head, mask)];
    }

    method Pop()
      requires Valid() && items != []
      modifies `head, `first, `items
      ensures Valid() && items == old(items)[1..]
    {
      hide Pow2, Slot;
      Pow2Grows(exp, WORD_BITS);
      NextWraps(first, 0, Pow2(WORD_BITS));
      Shift(first, 0, Pow2(WORD_BITS));
      Shift(first, |items| - 1, Pow2(WORD_BITS));
      head := Slot(head, 1, Pow2(WORD_BITS));
      first, items := first + 1, items[1..];
      forall k | 0 <= k < |items| ensures buf[Slot(first, k, Pow2(exp))] == items[k] {
        Shift(old(first), k, Pow2(exp));
      }
    }

    /** Doubling puts every live index in its slot of the larger ring; no two collide. */
    method Grow()
      requires Valid() && exp + 1 < WORD_BITS
      modifies `buf, `mask, `exp
      ensures Valid() && exp == old(exp) + 1 && fresh(buf)
    {
      hide Pow2, Slot;
      Doubles(exp);
      var newCap := buf.Length * 2;
      var newBuf := new int[newCap];
      var i := head;
      ghost var k, c := 0, Pow2(exp + 1);
      Pow2Grows(exp, WORD_BITS);
      while i != tail
        modifies newBuf
        invariant k <= |items| && i == Slot(first, k, Pow2(WORD_BITS))
        invariant forall j :: 0 <= j < k ==> newBuf[Slot(first, j, c)] == items[j]
        decreases |items| - k
      {
        SlotOf(first, k, exp + 1);
        SlotOf(first, k, exp);
        NextWraps(first, k, Pow2(WORD_BITS));
        forall j | 0 <= j < k ensures Slot(first, j, c) != Slot(first, k, c) {
          OwnSlots(first, j, k, c);
        }
        newBuf[And(i, newCap - 1)] := buf[And(i, mask)];
        i := Slot(i, 1, Pow2(WORD_BITS));
        k := k + 1;
      }
      if k < |items| { OwnSlots(first, k, |items|, Pow2(WORD_BITS)); }
      buf, mask, exp := newBuf, newCap - 1, exp + 1;
    }

    method Append(h: int)
      requires Valid() && |items| < buf.Length
      modifies `tail, `items, buf
      ensures Valid() && items == old(items) + [h]
    {
      hide Pow2, Slot;
      Pow2Grows(exp, WORD_BITS);
      SlotOf(first, |items|, exp);
      NextWraps(first, |items|, Pow2(WORD_BITS));
      forall k | 0 <= k < |items| ensures Slot(first, k, Pow2(exp)) != Slot(first, |items|, Pow2(exp)) {
        OwnSlots(first, k, |items|, Pow2(exp));
      }
      buf[And(tail, mask)] := h;
      tail := Slot(tail, 1, Pow2(WORD_BITS));
      items := items + [h];
    }

    /** The buffer doubles when it is full. */
    method Push(h: int)
      requires Valid() && exp + 1 < WORD_BITS
      modifies this, buf
      ensures Valid() && items == old(items) + [h] && (buf == old(buf) || fresh(buf)) && exp <= old(exp) + 1
    {
      hide Pow2, Slot;
      var n := Size();
      if n == buf.Length {
        Doubles(exp);
        Grow();
      }
      Append(h);
    }
  }

  lemma Doubles(e: nat)
    ensures Pow2(e + 1) == 2 * Pow2(e)
  {
  }

  lemma Shift(i: nat, k: nat, c: nat)
    requires c > 0
    ensures Slot(i + 1, k, c) == Slot(i, k + 1, c)
  {
  }

  lemma Start()
    ensures Pow2(10) == 1024 && Slot(0, 0, Pow2(WORD_BITS)) == 0
  {
    assert Pow2(5) == 32;
    Pow2Splits(5, 5);
  }
}
