/** The wire itself: what the codec and the mask mean bit by bit, in terms of the bytes alone
    (sections 5.2, 5.3 and 5.7 of RFC 6455). */
module Wire {
  import opened Bits
  import opened Frame
  import opened Reassembly

  // ---------------------------------------------------------------- bits of a byte

  function Val(x: bv8): nat {
    x as int
  }

  function BitsOf(b: Byte): bv8 {
    b as bv8
  }

  lemma HalfBits(x: bv8)
    ensures Val(x >> 1) == Val(x) / 2 && Val(x & 1) == Val(x) % 2
  {
  }

  lemma XorHalves(x: bv8, y: bv8)
    ensures (x ^ y) >> 1 == (x >> 1) ^ (y >> 1) && (x ^ y) & 1 == (x & 1) ^ (y & 1)
  {
  }

  /** The exclusive or the codec is proved with is that of the machine. */
  lemma {:induction false} XorIsBitwise(x: bv8, y: bv8)
    ensures Xor(Val(x), Val(y)) == Val(x ^ y)
    decreases Val(x) + Val(y)
  {
    hide Xor, XorBit, Val;
    if x == 0 && y == 0 {
      XorZero();
      ZeroVal();
    } else {
      HalfBits(x);
      HalfBits(y);
      HalfBits(x ^ y);
      XorHalves(x, y);
      LowBit(x, y);
      XorParts(Val(x), Val(y));
      NotZero(x);
      NotZero(y);
      XorIsBitwise(x >> 1, y >> 1);
    }
  }

  lemma ZeroVal()
    ensures Val(0) == 0 && (0 as bv8) ^ 0 == 0
  {
  }

  lemma NotZero(x: bv8)
    ensures x != 0 <==> Val(x) > 0
  {
  }

  lemma LowBit(x: bv8, y: bv8)
    ensures Val((x ^ y) & 1) == XorBit(Val(x), Val(y))
  {
    hide Val;
    HalfBits(x);
    HalfBits(y);
    XorHalves(x, y);
    OneBit(x & 1, y & 1);
    LowIsBit(x);
    LowIsBit(y);
  }

  lemma LowIsBit(x: bv8)
    ensures x & 1 == 0 || x & 1 == 1
  {
  }

  lemma OneBit(p: bv8, q: bv8)
    requires (p == 0 || p == 1) && (q == 0 || q == 1)
    ensures Val(p) == 0 <==> p == 0
    ensures Val(p ^ q) == if Val(p) == Val(q) then 0 else 1
  {
  }

  lemma ByteBack(b: Byte)
    ensures Val(BitsOf(b)) == b
  {
    IntBack(b);
  }

  lemma IntBack(n: int)
    requires 0 <= n < 256
    ensures (n as bv8) as int == n
  {
    assert n % 256 == n;
  }

  lemma SameVal(x: bv8, y: bv8)
    requires Val(x) == Val(y)
    ensures x == y
  {
  }

  lemma FlagBits(b: Byte)
    ensures BitsOf(b) & 0x80 != 0 <==> b >= 128
    ensures BitsOf(b) & 0x70 == 0 <==> b / 16 % 8 == 0
    ensures Val(BitsOf(b) & 0x0F) == b % 16 && Val(BitsOf(b) & 0x7F) == b % 128
  {
    hide Val, BitsOf;
    ByteBack(b);
    HighBits(BitsOf(b));
    LowBits(BitsOf(b));
  }

  lemma HighBits(x: bv8)
    ensures x & 0x80 != 0 <==> Val(x) >= 128
    ensures x & 0x70 == 0 <==> Val(x) / 16 % 8 == 0
  {
  }

  lemma LowBits(x: bv8)
    ensures Val(x & 0x0F) == Val(x) % 16 && Val(x & 0x7F) == Val(x) % 128
  {
  }

  // ---------------------------------------------------------------------- the header

  /** The opcodes of section 5.2. */
  function OpcodeBits(op: Opcode): bv8 {
    match op
    case Continue => 0x0
    case Text => 0x1
    case Binary => 0x2
    case Close => 0x8
    case Ping => 0x9
    case Pong => 0xA
  }

  /** What an accepted header says is what its bits say: FIN, three reserved bits, the opcode, the
      mask bit, a length of 7, 16 or 64 bits with the most significant byte first, and then the key. */
  lemma HeaderBits(role: Role, w: seq<Byte>)
    requires Parse(role, w).Parsed?
    ensures var h, b0, b1 := Parse(role, w).header, BitsOf(w[0]), BitsOf(w[1]);
            && (h.fin <==> b0 & 0x80 != 0) && b0 & 0x70 == 0 && b0 & 0x0F == OpcodeBits(h.opcode)
            && (h.masked <==> b1 & 0x80 != 0) && (h.masked <==> role == Server)
            && var off := if b1 & 0x7F == 126 then 4 else if b1 & 0x7F == 127 then 10 else 2;
               && h.headerLen == (if h.masked then off + 4 else off) <= |w|
               && h.payloadLen == (if off == 4 then 256 * (w[2] as int) + w[3] else if off == 10 then Word64(w[2..10])
                                   else Val(b1 & 0x7F))
  {
    hide Parse, Val, BitsOf, OpcodeBits, Word64, Opcode.Code;
    HeaderBytes(role, w);
    FlagBits(w[0]);
    FlagBits(w[1]);
    Lengths(BitsOf(w[1]) & 0x7F);
    OpcodeIs(BitsOf(w[0]) & 0x0F, Parse(role, w).header.opcode);
  }

  lemma HeaderBytes(role: Role, w: seq<Byte>)
    requires Parse(role, w).Parsed?
    ensures |w| >= 2 && w[0] / 16 % 8 == 0
    ensures var h, short := Parse(role, w).header, w[1] % 128;
            && (h.fin <==> w[0] >= 128) && w[0] % 16 == h.opcode.Code() && (h.masked <==> w[1] >= 128)
            && (h.masked <==> role == Server)
            && var off := if short == 126 then 4 else if short == 127 then 10 else 2;
               && h.headerLen == (if h.masked then off + 4 else off) <= |w|
               && h.payloadLen == (if off == 4 then 256 * (w[2] as int) + w[3] else if off == 10 then Word64(w[2..10])
                                   else short)
  {
    hide FromBE, FromLE, Word64;
    if |w| >= 4 { PairBE(w[2..4]); }
    if |w| >= 10 { WordBE(w[2..10]); }
  }

  lemma Lengths(x: bv8)
    ensures (x == 126 <==> Val(x) == 126) && (x == 127 <==> Val(x) == 127)
  {
  }

  lemma OpcodeIs(x: bv8, op: Opcode)
    ensures x == OpcodeBits(op) <==> Val(x) == op.Code()
  {
  }

  function Word64(s: seq<Byte>): nat
    requires |s| == 8
  {
    (s[0] as int) * 0x100_0000_0000_0000 + (s[1] as int) * 0x1_0000_0000_0000 + (s[2] as int) * 0x100_0000_0000
    + (s[3] as int) * 0x1_0000_0000 + (s[4] as int) * 0x100_0000 + (s[5] as int) * 0x1_0000
    + (s[6] as int) * 0x100 + s[7]
  }

  lemma PairBE(s: seq<Byte>)
    requires |s| == 2
    ensures FromBE(s) == 256 * (s[0] as int) + s[1]
  {
    FromBEOfPair(s);
  }

  lemma WordBE(s: seq<Byte>)
    requires |s| == 8
    ensures FromBE(s) == Word64(s)
  {
    var t := s[..4];
    assert s[..7][..6] == s[..6] && s[..6][..5] == s[..5] && s[..5][..4] == t;
    assert t[..3][..2] == t[..2];
    PairBE(t[..2]);
    assert FromBE(t[..3]) == 256 * FromBE(t[..2]) + t[2] && FromBE(t) == 256 * FromBE(t[..3]) + t[3];
    assert FromBE(s[..5]) == 256 * FromBE(t) + s[4] && FromBE(s[..6]) == 256 * FromBE(s[..5]) + s[5];
    assert FromBE(s[..7]) == 256 * FromBE(s[..6]) + s[6] && FromBE(s) == 256 * FromBE(s[..7]) + s[7];
  }

  // ------------------------------------------------------------------------ the mask

  /** One byte of a masked payload, given the four bytes of the key as they stand in the header. */
  lemma KeyOnTheWire(k: seq<Byte>, pos: nat, b: Byte)
    requires |k| == 4
    ensures BitsOf(MaskByte(FromLE(k), pos, b)) == BitsOf(b) ^ BitsOf(k[pos % 4])
  {
    hide Xor, FromLE, ToLE, Val, BitsOf;
    ToLEFromLE(k);
    XorIsBitwise(BitsOf(b), BitsOf(k[pos % 4]));
    ByteBack(b);
    ByteBack(k[pos % 4]);
    ByteBack(MaskByte(FromLE(k), pos, b));
    SameVal(BitsOf(MaskByte(FromLE(k), pos, b)), BitsOf(b) ^ BitsOf(k[pos % 4]));
  }

  lemma KeyStands(role: Role, w: seq<Byte>)
    requires Parse(role, w).Parsed? && Parse(role, w).header.masked
    ensures var h := Parse(role, w).header; 4 <= h.headerLen <= |w| && h.key == FromLE(w[h.headerLen - 4..h.headerLen])
  {
    hide FromBE, FromLE, OpcodeOf;
  }

  /** Byte i of a payload, with the header in the first `h` bytes: it stands i bytes behind the header,
      and if it is masked, it is exclusive-ored there with byte i modulo 4 of the key, which is the
      last four bytes of the header. */
  ghost predicate Carries(w: seq<Byte>, h: nat, masked: bool, i: nat, p: Byte) {
    && h + i < |w| && (masked ==> h >= 4)
    && if masked then BitsOf(p) == BitsOf(w[h + i]) ^ BitsOf(w[h - 4 + i % 4]) else p == w[h + i]
  }

  lemma ReceivedByte(role: Role, w: seq<Byte>, n: nat, i: nat)
    requires Parse(role, w).Parsed? && Parse(role, w).header.headerLen + n <= |w| && i < n
    ensures var h := Parse(role, w).header;
            Carries(w, h.headerLen, h.masked, i, Unmask(h, w[h.headerLen..h.headerLen + n])[i])
  {
    hide Parse, FromLE, BitsOf, MaskByte;
    var h := Parse(role, w).header;
    if h.masked {
      KeyStands(role, w);
      KeyOnTheWire(w[h.headerLen - 4..h.headerLen], i, w[h.headerLen + i]);
    }
  }

  /** A message in one frame is delivered as the bytes its frame carries. */
  lemma ReceivedMessage(cfg: Config, w: seq<Byte>)
    requires Parse(cfg.role, w).Parsed?
    requires var h := Parse(cfg.role, w).header;
             h.fin && h.opcode.IsData() && 0 < h.payloadLen <= cfg.maxMessage && h.headerLen + h.payloadLen <= |w|
    ensures var h, o := Parse(cfg.role, w).header, Receive(cfg, Idle, w, true);
            && o.event.Delivered? && o.event.message.opcode == h.opcode && |o.event.message.payload| == h.payloadLen
            && o.rest == w[h.headerLen + h.payloadLen..] && o.pongs == [] && o.frag == Idle
            && forall i :: 0 <= i < h.payloadLen ==> Carries(w, h.headerLen, h.masked, i, o.event.message.payload[i])
  {
    hide Parse, Unmask, Carries;
    var h := Parse(cfg.role, w).header;
    var body, raw := w[h.headerLen..], w[h.headerLen..h.headerLen + h.payloadLen];
    assert body[..h.payloadLen] == raw && body[h.payloadLen..] == w[h.headerLen + h.payloadLen..];
    assert [] + Unmask(h, raw) == Unmask(h, raw);
    forall i | 0 <= i < h.payloadLen ensures Carries(w, h.headerLen, h.masked, i, Unmask(h, raw)[i]) {
      ReceivedByte(cfg.role, w, h.payloadLen, i);
    }
  }

  /** The same of the bytes that go out. */
  lemma SentByte(role: Role, f: WireFrame, i: nat)
    requires f.key < 0x1_0000_0000 && i < |f.payload|
    ensures var e := EncodeFrame(role, f); Carries(e, |e| - |f.payload|, role == Server, i, f.payload[i])
  {
    hide BitsOf, MaskByte, ToLE, FromLE, FirstByte, SecondByte, ShortLength, LengthField;
    if role == Server {
      var k := ToLE(f.key, 4);
      PowersOf256();
      FromLEToLE(f.key, 4);
      KeyOnTheWire(k, i, f.payload[i]);
      Unmasks(BitsOf(f.payload[i]), BitsOf(k[i % 4]));
    }
  }

  lemma Unmasks(x: bv8, y: bv8)
    ensures (x ^ y) ^ y == x
  {
  }

  // ---------------------------------------------------------- the examples of section 5.7

  const HELLO: seq<Byte> := [0x48, 0x65, 0x6C, 0x6C, 0x6F]

  lemma HelloUnmasked()
    ensures Receive(Config(Client, 100), Idle, [0x81, 0x05] + HELLO, true)
            == Outcome([], Delivered(Message(Text, HELLO)), Idle, [])
  {
    var w := [0x81, 0x05] + HELLO;
    assert Parse(Client, w) == Parsed(Header(true, Text, 5, false, 0, 2));
    ReceivedMessage(Config(Client, 100), w);
  }

  lemma HelloMasked()
    ensures var w := [0x81, 0x85, 0x37, 0xFA, 0x21, 0x3D, 0x7F, 0x9F, 0x4D, 0x51, 0x58];
            Receive(Config(Server, 100), Idle, w, true) == Outcome([], Delivered(Message(Text, HELLO)), Idle, [])
  {
    hide FromLE, Unmask, Carries, Receive;
    var w: seq<Byte> := [0x81, 0x85, 0x37, 0xFA, 0x21, 0x3D, 0x7F, 0x9F, 0x4D, 0x51, 0x58];
    assert Parse(Server, w) == Parsed(Header(true, Text, 5, true, FromLE(w[2..6]), 6));
    ReceivedMessage(Config(Server, 100), w);
    HelloBytes(w, Receive(Config(Server, 100), Idle, w, true).event.message.payload);
  }

  lemma HelloBytes(w: seq<Byte>, p: seq<Byte>)
    requires w == [0x81, 0x85, 0x37, 0xFA, 0x21, 0x3D, 0x7F, 0x9F, 0x4D, 0x51, 0x58] && |p| == 5
    requires forall i :: 0 <= i < 5 ==> Carries(w, 6, true, i, p[i])
    ensures p == HELLO
  {
    hide Carries;
    HelloByte(w, 0, p[0], 0x48);
    HelloByte(w, 1, p[1], 0x65);
    HelloRest(w, p);
  }

  lemma HelloRest(w: seq<Byte>, p: seq<Byte>)
    requires w == [0x81, 0x85, 0x37, 0xFA, 0x21, 0x3D, 0x7F, 0x9F, 0x4D, 0x51, 0x58] && |p| == 5
    requires forall i :: 2 <= i < 5 ==> Carries(w, 6, true, i, p[i])
    ensures p[2] == p[3] == 0x6C && p[4] == 0x6F
  {
    hide Carries;
    HelloByte(w, 2, p[2], 0x6C);
    HelloByte(w, 3, p[3], 0x6C);
    HelloByte(w, 4, p[4], 0x6F);
  }

  lemma HelloByte(w: seq<Byte>, i: nat, p: Byte, b: Byte)
    requires Carries(w, 6, true, i, p) && BitsOf(w[6 + i]) ^ BitsOf(w[2 + i % 4]) == BitsOf(b)
    ensures p == b
  {
    hide Val, BitsOf;
    ByteBack(p);
    ByteBack(b);
  }
}
