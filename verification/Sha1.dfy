/** The handshake's SHA-1: the streaming form against the one-shot definition of FIPS 180-4. */
module Sha1 {
  import opened Bits

  type Bytes = seq<bv8>

  datatype Hash = Hash(a: bv32, b: bv32, c: bv32, d: bv32, e: bv32)

  // ------------------------------------------------- FIPS 180-4, sections 4.1.1, 4.2.1, 5.3.1

  ghost function Ch(x: bv32, y: bv32, z: bv32): bv32 { (x & y) ^ (!x & z) }

  ghost function Parity(x: bv32, y: bv32, z: bv32): bv32 { x ^ y ^ z }

  ghost function Maj(x: bv32, y: bv32, z: bv32): bv32 { (x & y) ^ (x & z) ^ (y & z) }

  ghost function F(t: nat, x: bv32, y: bv32, z: bv32): bv32 {
    if t < 20 then Ch(x, y, z) else if t < 40 then Parity(x, y, z) else if t < 60 then Maj(x, y, z) else Parity(x, y, z)
  }

  ghost function K(t: nat): bv32 {
    if t < 20 then 0x5A827999 else if t < 40 then 0x6ED9EBA1 else if t < 60 then 0x8F1BBCDC else 0xCA62C1D6
  }

  const H0 := Hash(0x67452301, 0xEFCDAB89, 0x98BADCFE, 0x10325476, 0xC3D2E1F0)

  /** The round constants are the square roots of 2, 3, 5 and 10, cut off after thirty binary places. */
  lemma RoundConstants(t: nat)
    ensures var k, n := K(t) as int, if t < 20 then 2 else if t < 40 then 3 else if t < 60 then 5 else 10;
            k * k <= n * 0x1000_0000_0000_0000 < (k + 1) * (k + 1)
  {
    assert 0x5A827999 as bv32 as int == 0x5A827999 && 0x6ED9EBA1 as bv32 as int == 0x6ED9EBA1;
    assert 0x8F1BBCDC as bv32 as int == 0x8F1BBCDC && 0xCA62C1D6 as bv32 as int == 0xCA62C1D6;
  }

  /** The initial value, low byte of each word first: the hexadecimal digits up, down again, and the
      first eight of them in pairs that add up to fifteen. */
  lemma StartValue()
    ensures LowFirst(H0.a) + LowFirst(H0.b) == [0x01, 0x23, 0x45, 0x67, 0x89, 0xAB, 0xCD, 0xEF]
    ensures LowFirst(H0.c) + LowFirst(H0.d) == [0xFE, 0xDC, 0xBA, 0x98, 0x76, 0x54, 0x32, 0x10]
    ensures LowFirst(H0.e) == [0xF0, 0xE1, 0xD2, 0xC3]
  {
  }

  ghost function LowFirst(x: bv32): Bytes {
    [(x & 0xFF) as bv8, ((x >> 8) & 0xFF) as bv8, ((x >> 16) & 0xFF) as bv8, (x >> 24) as bv8]
  }

  ghost function RotL1(x: bv32): bv32 { x.RotateLeft(1) }

  ghost function RotL5(x: bv32): bv32 { x.RotateLeft(5) }

  ghost function RotL30(x: bv32): bv32 { x.RotateLeft(30) }

  /** Addition modulo 2^32. */
  function Add5(a: bv32, f: bv32, e: bv32, k: bv32, w: bv32): bv32 { a + f + e + k + w }

  // ------------------------------------------------------ FIPS 180-4, section 6.1.2

  function Word(b0: bv8, b1: bv8, b2: bv8, b3: bv8): bv32 {
    ((b0 as bv32) << 24) | ((b1 as bv32) << 16) | ((b2 as bv32) << 8) | (b3 as bv32)
  }

  /** The message schedule. */
  ghost function W(block: Bytes, t: nat): bv32
    requires |block| == 64
  {
    if t < 16 then Word(block[4 * t], block[4 * t + 1], block[4 * t + 2], block[4 * t + 3])
    else RotL1(W(block, t - 3) ^ W(block, t - 8) ^ W(block, t - 14) ^ W(block, t - 16))
  }

  ghost function Round(s: Hash, t: nat, w: bv32): Hash {
    Hash(Add5(RotL5(s.a), F(t, s.b, s.c, s.d), s.e, K(t), w), s.a, RotL30(s.b), s.c, s.d)
  }

  ghost function Rounds(s: Hash, block: Bytes, t: nat): Hash
    requires |block| == 64
  {
    if t == 0 then s else Round(Rounds(s, block, t - 1), t - 1, W(block, t - 1))
  }

  ghost function Compressed(h: Hash, block: Bytes): Hash
    requires |block| == 64
  {
    Plus(h, Rounds(h, block, 80))
  }

  function Plus(h: Hash, s: Hash): Hash {
    Hash(h.a + s.a, h.b + s.b, h.c + s.c, h.d + s.d, h.e + s.e)
  }

  ghost predicate Whole(m: Bytes) {
    |m| % 64 == 0
  }

  /** The hash value after all the blocks. */
  ghost function Blocks(h: Hash, m: Bytes): Hash
    requires Whole(m)
    decreases |m|
  {
    if m == [] then h else Blocks(Compressed(h, m[..64]), m[64..])
  }

  lemma {:induction false} BlocksConcat(h: Hash, m: Bytes, n: Bytes)
    requires Whole(m) && Whole(n)
    ensures Whole(m + n) && Blocks(h, m + n) == Blocks(Blocks(h, m), n)
    decreases |m|
  {
    hide Compressed;
    if m == [] {
      assert m + n == n;
    } else {
      BlocksConcat(Compressed(h, m[..64]), m[64..], n);
      assert (m + n)[..64] == m[..64] && (m + n)[64..] == m[64..] + n;
    }
  }

  lemma BlocksOne(h: Hash, block: Bytes)
    requires |block| == 64
    ensures Blocks(h, block) == Compressed(h, block)
  {
    assert block[..64] == block && block[64..] == [];
  }

  // ------------------------------------------- the code's formulas are the standard's

  function Rol1(v: bv32): bv32 { (v << 1) | (v >> 31) }

  function Rol5(v: bv32): bv32 { (v << 5) | (v >> 27) }

  function Rol30(v: bv32): bv32 { (v << 30) | (v >> 2) }

  function Choose(b: bv32, c: bv32, d: bv32): bv32 { (b & c) | (!b & d) }

  function Majority(b: bv32, c: bv32, d: bv32): bv32 { (b & c) | (b & d) | (c & d) }

  function Odd(b: bv32, c: bv32, d: bv32): bv32 { b ^ c ^ d }

  lemma ChooseBits(b: bv32, c: bv32, d: bv32)
    ensures (b & c) | (!b & d) == (b & c) ^ (!b & d)
  {
  }

  lemma MajorityBits(b: bv32, c: bv32, d: bv32)
    ensures (b & c) | (b & d) | (c & d) == (b & c) ^ (b & d) ^ (c & d)
  {
  }

  lemma ChooseIs(b: bv32, c: bv32, d: bv32)
    ensures Choose(b, c, d) == Ch(b, c, d)
  {
    ChooseBits(b, c, d);
  }

  lemma MajorityIs(b: bv32, c: bv32, d: bv32)
    ensures Majority(b, c, d) == Maj(b, c, d)
  {
    MajorityBits(b, c, d);
  }

  lemma RolIs(v: bv32)
    ensures Rol1(v) == RotL1(v) && Rol5(v) == RotL5(v) && Rol30(v) == RotL30(v)
  {
  }

  lemma WordNext(block: Bytes, t: nat, v: bv32)
    requires |block| == 64 && t >= 16 && v == W(block, t - 3) ^ W(block, t - 8) ^ W(block, t - 14) ^ W(block, t - 16)
    ensures Rol1(v) == W(block, t)
  {
    hide Rol1, RotL1, Rol5, RotL5, Rol30, RotL30;
    RolIs(v);
  }

  /** The function the code computes in round `t` is the standard's. */
  lemma FIs(t: nat, b: bv32, c: bv32, d: bv32)
    ensures F(t, b, c, d) ==
            if t < 20 then Choose(b, c, d) else if t < 40 then Odd(b, c, d)
            else if t < 60 then Majority(b, c, d) else Odd(b, c, d)
  {
    ChooseIs(b, c, d);
    MajorityIs(b, c, d);
    hide Choose, Ch, Majority, Maj;
  }

  // ------------------------------------------------------------------- padding

  const LIMIT := 0x1_0000_0000_0000_0000

  ghost function Zeros(n: nat): Bytes {
    seq(n, _ => 0)
  }

  /** Zero bytes between the 0x80 byte and the length. */
  function Gap(len: nat): (k: nat)
    ensures k < 64 && (len + 1 + k + 8) % 64 == 0
  {
    (119 - len % 64) % 64
  }

  /** Section 5.1.1 asks for the least number of zero bytes that leaves just the length's eight. */
  lemma GapIsLeast(len: nat, k: nat)
    requires (len + 1 + k) % 64 == 56
    ensures Gap(len) <= k && (len + 1 + Gap(len)) % 64 == 56
  {
    assert (len % 64 + 1 + k) % 64 == 56;
    assert Gap(len) == if len % 64 <= 55 then 55 - len % 64 else 119 - len % 64;
  }

  /** A 64-bit length, most significant byte first. */
  ghost function Length(bits: nat): (r: Bytes)
    requires bits < LIMIT
    ensures |r| == 8
  {
    seq(8, i requires 0 <= i < 8 => (ToBE(bits, 8)[i] as int) as bv8)
  }

  /** A message with its padding, for a length field of `bits`. */
  ghost function PaddedWith(m: Bytes, bits: nat): (r: Bytes)
    requires bits < LIMIT
    ensures Whole(r)
  {
    m + [0x80] + Zeros(Gap(|m|)) + Length(bits)
  }

  /** The padded message of section 5.1.1, defined for messages under 2^64 bits. */
  ghost function Padded(m: Bytes): (r: Bytes)
    requires 8 * |m| < LIMIT
    ensures Whole(r)
  {
    PaddedWith(m, 8 * |m|)
  }

  ghost function Spread(x: bv32): Bytes {
    [(x >> 24) as bv8, ((x >> 16) & 0xFF) as bv8, ((x >> 8) & 0xFF) as bv8, (x & 0xFF) as bv8]
  }

  ghost function Output(h: Hash): Bytes {
    Spread(h.a) + Spread(h.b) + Spread(h.c) + Spread(h.d) + Spread(h.e)
  }

  ghost function Digest(m: Bytes): Bytes
    requires 8 * |m| < LIMIT
  {
    Output(Blocks(H0, Padded(m)))
  }

  // ------------------------------------------------------------------- the code

  class Sha1 {
    var h: Hash
    const block: array<bv8>
    var used: nat
    // bytes fed so far, as a 64-bit word
    var total: nat
    // the bytes compressed so far
    ghost var done: Bytes

    ghost predicate Blocked()
      reads `h, `done, `used, block
    {
      block.Length == 64 && used < 64 && Whole(done) && h == Blocks(H0, done)
    }

    /** Everything fed so far. */
    ghost function Fed(): Bytes
      requires Blocked()
      reads `h, `done, `used, block
    {
      done + block[..used]
    }

    ghost predicate Valid()
      reads this, block
    {
      Blocked() && total == |Fed()| % LIMIT
    }

    constructor ()
      ensures Valid() && Fed() == [] && fresh(block)
    {
      h, used, total, done := H0, 0, 0, [];
      block := new bv8[64];
    }

    method Schedule(b: Bytes) returns (w: array<bv32>)
      requires |b| == 64
      ensures fresh(w) && w.Length == 80 && forall j :: 0 <= j < 80 ==> w[j] == W(b, j)
    {
      hide W;
      w := new bv32[80];
      for i := 0 to 16
        invariant forall j :: 0 <= j < i ==> w[j] == W(b, j)
      {
        FirstWords(b, i);
        w[i] := Word(b[4 * i], b[4 * i + 1], b[4 * i + 2], b[4 * i + 3]);
      }
      for i := 16 to 80
        invariant forall j :: 0 <= j < i ==> w[j] == W(b, j)
      {
        var v := w[i - 3] ^ w[i - 8] ^ w[i - 14] ^ w[i - 16];
        WordNext(b, i, v);
        w[i] := Rol1(v);
      }
    }

    /** compress(): one block into the hash value. */
    method Compress()
      requires block.Length == 64
      modifies `h
      ensures h == Compressed(old(h), block[..])
    {
      hide W, Rounds, F, Round, Choose, Odd, Majority, Rol5, Rol30, Add5, Plus;
      ghost var blk := block[..];
      var w := Schedule(block[..]);
      var a, b, c, d, e := h.a, h.b, h.c, h.d, h.e;
      RoundsStart(h, blk);
      for i := 0 to 80
        modifies {}
        invariant Hash(a, b, c, d, e) == Rounds(h, blk, i)
      {
        var f, k;
        if i < 20 {
          f, k := Choose(b, c, d), 0x5A827999;
        } else if i < 40 {
          f, k := Odd(b, c, d), 0x6ED9EBA1;
        } else if i < 60 {
          f, k := Majority(b, c, d), 0x8F1BBCDC;
        } else {
          f, k := Odd(b, c, d), 0xCA62C1D6;
        }
        FIs(i, b, c, d);
        RoundsNext(h, blk, i, w[i]);
        var t := Add5(Rol5(a), f, e, k, w[i]);
        e := d;
        d := c;
        c := Rol30(b);
        b := a;
        a := t;
      }
      h := Plus(h, Hash(a, b, c, d, e));
    }

    /** As much as fits the current block; a full one is compressed. */
    method Absorb(p: Bytes)
      requires Blocked() && |p| <= 64 - used
      modifies `h, `used, `done, block
      ensures Blocked() && Fed() == old(Fed()) + p
    {
      hide Blocks, Whole, Compressed;
      Copy(p);
      used := used + |p|;
      if used == 64 {
        assert block[..64] == block[..];
        FullBlock(h, done, block[..]);
        Compress();
        done := done + block[..];
        used := 0;
      }
    }

    method Copy(p: Bytes)
      requires used + |p| <= block.Length
      modifies block
      ensures block[..used + |p|] == old(block[..used]) + p
    {
      forall k | 0 <= k < |p| { block[used + k] := p[k]; }
    }

    /** update(): any number of bytes, in any pieces. */
    method Update(data: Bytes)
      requires Valid()
      modifies `h, `used, `total, `done, block
      ensures Valid() && Fed() == old(Fed()) + data
    {
      hide Blocked;
      total := (total + |data|) % LIMIT;
      var pos := 0;
      while pos < |data|
        invariant pos <= |data| && Blocked() && Fed() == old(Fed()) + data[..pos]
        invariant total == (|old(Fed())| + |data|) % LIMIT
      {
        var len := |data| - pos;
        var room := Room();
        var take := if room < len then room else len;
        Absorb(data[pos..pos + take]);
        assert data[..pos] + data[pos..pos + take] == data[..pos + take];
        pos := pos + take;
      }
      assert data[..pos] == data;
    }

    method Room() returns (n: nat)
      requires Blocked()
      ensures n == 64 - used && n > 0
    {
      n := 64 - used;
    }

    lemma UsedIs()
      requires Blocked()
      ensures used == |Fed()| % 64
    {
    }

    /** Padding and length. The length field is a 64-bit word, so it wraps for 2^61 bytes or more. */
    method Pad()
      requires Valid()
      modifies `h, `used, `total, `done, block
      ensures Blocked() && used == 0 && done == PaddedWith(old(Fed()), 8 * |old(Fed())| % LIMIT)
    {
      hide Blocks, Length, Zeros, ToBE;
      ghost var m := Fed();
      var bits := total * 8 % LIMIT;
      BitsAre(|m|, total);
      Update([0x80]);
      UsedIs();
      var want := if used <= 56 then 56 - used else 64 + 56 - used;
      GapIs(|m|, used);
      ZerosAre(want);
      Update(seq(want, _ => 0));
      var len := LengthBytes(bits);
      Update(len);
      PaddedIs(m, bits, Fed());
      UsedIs();
      assert block[..0] == [];
    }

    /** final(): the digest, most significant byte of each word first. */
    method Final(out: array<bv8>)
      requires Valid() && out.Length == 20 && out != block
      modifies `h, `used, `total, `done, block, out
      ensures out[..] == Output(Blocks(H0, PaddedWith(old(Fed()), 8 * |old(Fed())| % LIMIT)))
    {
      hide Blocks, PaddedWith, Spread;
      Pad();
      Put(out, 0, h.a);
      assert out[..4] == Spread(h.a);
      Put(out, 4, h.b);
      assert out[..8] == Spread(h.a) + Spread(h.b);
      Put(out, 8, h.c);
      assert out[..12] == Spread(h.a) + Spread(h.b) + Spread(h.c);
      Put(out, 12, h.d);
      Put(out, 16, h.e);
      assert out[..20] == out[..];
    }
  }

  method Put(out: array<bv8>, at: nat, x: bv32)
    requires at + 4 <= out.Length
    modifies out
    ensures out[..at + 4] == old(out[..at]) + Spread(x)
  {
    out[at], out[at + 1] := (x >> 24) as bv8, ((x >> 16) & 0xFF) as bv8;
    out[at + 2], out[at + 3] := ((x >> 8) & 0xFF) as bv8, (x & 0xFF) as bv8;
  }

  lemma BitsAre(n: nat, total: nat)
    requires total == n % LIMIT
    ensures total * 8 % LIMIT == 8 * n % LIMIT
  {
  }

  lemma GapIs(n: nat, used: nat)
    requires used == (n + 1) % 64
    ensures Gap(n) == if used <= 56 then 56 - used else 64 + 56 - used
  {
  }

  lemma ZerosAre(n: nat)
    ensures Zeros(n) == seq(n, _ => 0)
  {
  }

  lemma PaddedIs(m: Bytes, bits: nat, fed: Bytes)
    requires bits < LIMIT && fed == m + [0x80] + Zeros(Gap(|m|)) + Length(bits)
    ensures fed == PaddedWith(m, bits) && |fed| % 64 == 0
  {
  }

  method LengthBytes(bits: nat) returns (len: Bytes)
    requires bits < LIMIT
    ensures len == Length(bits)
  {
    hide ToBE, Pow256;
    len := [];
    for i := 0 to 8
      invariant |len| == i && forall j :: 0 <= j < i ==> len[j] == Length(bits)[j]
    {
      ToBEIndex(bits, 8, i);
      len := len + [(bits / Pow256(7 - i) % 256) as bv8];
    }
  }

  // -------------------------------------------------------------- what it computes

  ghost function Joined(pieces: seq<Bytes>): Bytes {
    if pieces == [] then [] else Joined(pieces[..|pieces| - 1]) + pieces[|pieces| - 1]
  }

  lemma InField(m: Bytes)
    ensures 8 * |m| < LIMIT <==> |m| < 0x2000_0000_0000_0000
    ensures 8 * |m| < LIMIT ==> PaddedWith(m, 8 * |m| % LIMIT) == Padded(m)
  {
  }

  /** However a message is cut into pieces, the result is the digest of the whole, for every
      message the standard defines one for. */
  method HashPieces(pieces: seq<Bytes>) returns (out: array<bv8>)
    requires |Joined(pieces)| < 0x2000_0000_0000_0000
    ensures out.Length == 20 && 8 * |Joined(pieces)| < LIMIT && out[..] == Digest(Joined(pieces))
  {
    hide Blocks, PaddedWith, Output, Joined;
    var sha := new Sha1();
    out := new bv8[20];
    JoinedNone(pieces);
    for i := 0 to |pieces|
      invariant fresh(sha) && fresh(sha.block) && sha.block != out && fresh(out) && sha.Valid()
      invariant sha.Fed() == Joined(pieces[..i])
    {
      JoinedNext(pieces, i);
      sha.Update(pieces[i]);
    }
    assert pieces[..|pieces|] == pieces;
    InField(sha.Fed());
    sha.Final(out);
  }

  lemma JoinedNone(pieces: seq<Bytes>)
    ensures Joined(pieces[..0]) == []
  {
  }

  lemma JoinedNext(pieces: seq<Bytes>, i: nat)
    requires i < |pieces|
    ensures Joined(pieces[..i + 1]) == Joined(pieces[..i]) + pieces[i]
  {
    assert pieces[..i + 1][..i] == pieces[..i];
  }

  lemma FullBlock(h: Hash, done: Bytes, block: Bytes)
    requires |block| == 64 && Whole(done) && h == Blocks(H0, done)
    ensures Whole(done + block) && Compressed(h, block) == Blocks(H0, done + block)
  {
    BlocksConcat(H0, done, block);
    BlocksOne(h, block);
  }

  lemma FirstWords(b: Bytes, i: nat)
    requires |b| == 64 && i < 16
    ensures W(b, i) == Word(b[4 * i], b[4 * i + 1], b[4 * i + 2], b[4 * i + 3])
  {
  }

  lemma RoundsStart(h: Hash, b: Bytes)
    requires |b| == 64
    ensures Rounds(h, b, 0) == h
  {
  }

  lemma RoundsNext(h: Hash, block: Bytes, t: nat, w: bv32)
    requires |block| == 64 && w == W(block, t)
    ensures var s := Rounds(h, block, t);
            Rounds(h, block, t + 1) ==
            Hash(Add5(Rol5(s.a), F(t, s.b, s.c, s.d), s.e, K(t), w), s.a, Rol30(s.b), s.c, s.d)
  {
    hide W, F, K, Rol1, RotL1, Rol5, RotL5, Rol30, RotL30, Add5;
    var s := Rounds(h, block, t);
    RolIs(s.a);
    RolIs(s.b);
  }
}
