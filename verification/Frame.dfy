/** The WebSocket frame header codec and the payload mask (sections 5.2 and 5.3 of RFC 6455). */
module Frame {
  import opened Bits
  import opened Optional

  const MAX_CONTROL_PAYLOAD := 125
  const MAX_HEADER_LEN := 14

  datatype Role = Client | Server

  datatype Opcode = Continue | Text | Binary | Close | Ping | Pong {
    function Code(): Byte {
      match this
      case Continue => 0
      case Text => 1
      case Binary => 2
      case Close => 8
      case Ping => 9
      case Pong => 10
    }

    predicate IsControl() { Code() >= 8 }

    predicate IsData() { this == Text || this == Binary }
  }

  function OpcodeOf(code: nat): (r: Option<Opcode>)
    ensures r.Some? ==> r.value.Code() == code
    ensures r.None? ==> forall op: Opcode :: op.Code() != code
  {
    match code
    case 0 => Some(Continue)
    case 1 => Some(Text)
    case 2 => Some(Binary)
    case 8 => Some(Close)
    case 9 => Some(Ping)
    case 10 => Some(Pong)
    case _ => None
  }

  datatype Error =
    | ReservedBits | InvalidOpcode | UnmaskedFrame | MaskedFrame | FragmentedControl
    | ControlTooLarge | NonCanonicalLength | MessageTooLarge | ContinuationExpected
    | ContinuationUnexpected | InvalidCloseCode | Closed

  datatype Header = Header(fin: bool, opcode: Opcode, payloadLen: nat, masked: bool, key: nat, headerLen: nat)

  datatype Verdict = NeedMore | Parsed(header: Header) | Refused(error: Error)

  // -------------------------------------------------------------- wire format

  function FirstByte(fin: bool, op: Opcode): Byte { (if fin then 128 else 0) + op.Code() }

  function SecondByte(masked: bool, short: Byte): Byte
    requires short < 128
  {
    (if masked then 128 else 0) + short
  }

  function LengthField(len: nat): (s: seq<Byte>) {
    if len <= MAX_CONTROL_PAYLOAD then []
    else if len <= 0xFFFF then ToBE(len, 2)
    else ToBE(len, 8)
  }

  function ShortLength(len: nat): Byte {
    if len <= MAX_CONTROL_PAYLOAD then len else if len <= 0xFFFF then 126 else 127
  }

  /** The header of section 5.2 of RFC 6455: flags and opcode, mask bit and length in its
      shortest form, then the masking key if there is one. */
  function EncodeHeader(fin: bool, op: Opcode, len: nat, masked: bool, key: nat): (s: seq<Byte>)
  {
    [FirstByte(fin, op), SecondByte(masked, ShortLength(len))]
    + LengthField(len)
    + (if masked then ToLE(key, 4) else [])
  }

  /** What the protocol lets a peer of a `role` endpoint send. */
  predicate Legal(role: Role, fin: bool, op: Opcode, len: nat, masked: bool, key: nat) {
    && len < 0x8000_0000_0000_0000
    && key < 0x1_0000_0000
    && (masked <==> role == Server)
    && (!masked ==> key == 0)
    && (op.IsControl() ==> fin && len <= MAX_CONTROL_PAYLOAD)
  }

  // ------------------------------------------------------------------ decoder

  /** What the decoder says of a window, as a function of the whole window. */
  function Parse(role: Role, w: seq<Byte>): Verdict {
    if |w| < 2 then NeedMore
    else if w[0] / 16 % 8 != 0 then Refused(ReservedBits)
    else match OpcodeOf(w[0] % 16)
    case None => Refused(InvalidOpcode)
    case Some(op) =>
      var fin, masked, short := w[0] >= 128, w[1] >= 128, w[1] % 128;
      if role == Server && !masked then Refused(UnmaskedFrame)
      else if role == Client && masked then Refused(MaskedFrame)
      else if op.IsControl() && !fin then Refused(FragmentedControl)
      else if op.IsControl() && short > MAX_CONTROL_PAYLOAD then Refused(ControlTooLarge)
      else if short == 126 then
        if |w| < 4 then NeedMore
        else if FromBE(w[2..4]) <= MAX_CONTROL_PAYLOAD then Refused(NonCanonicalLength)
        else ParseKey(w, fin, op, FromBE(w[2..4]), masked, 4)
      else if short == 127 then
        if |w| < 10 then NeedMore
        else if FromBE(w[2..10]) > 0x7FFF_FFFF_FFFF_FFFF then Refused(NonCanonicalLength)
        else if FromBE(w[2..10]) <= 0xFFFF then Refused(NonCanonicalLength)
        else ParseKey(w, fin, op, FromBE(w[2..10]), masked, 10)
      else ParseKey(w, fin, op, short, masked, 2)
  }

  function ParseKey(w: seq<Byte>, fin: bool, op: Opcode, len: nat, masked: bool, off: nat): Verdict
    requires off <= |w|
  {
    if !masked then Parsed(Header(fin, op, len, false, 0, off))
    else if |w| < off + 4 then NeedMore
    else Parsed(Header(fin, op, len, true, FromLE(w[off..off + 4]), off + 4))
  }

  class FrameDecoder {
    const role: Role
    var err: Option<Error>

    constructor (role: Role)
      ensures this.role == role && err == None
    {
      this.role := role;
      err := None;
    }

    /** The first refusal is latched: every later window is refused the same way. */
    method ParseWindow(w: seq<Byte>) returns (v: Verdict)
      modifies this`err
      ensures v == if old(err).Some? then Refused(old(err).value) else Parse(role, w)
      ensures err == if v.Refused? then Some(v.error) else None
    {
      if err.Some? { return Refused(err.value); }
      if |w| < 2 { return NeedMore; }
      if w[0] / 16 % 8 != 0 { v := Fail(ReservedBits); return; }
      var op := OpcodeOf(w[0] % 16);
      if op.None? { v := Fail(InvalidOpcode); return; }
      var fin, masked, len: nat := w[0] >= 128, w[1] >= 128, w[1] % 128;
      if role == Server && !masked { v := Fail(UnmaskedFrame); return; }
      if role == Client && masked { v := Fail(MaskedFrame); return; }
      if op.value.IsControl() {
        if !fin { v := Fail(FragmentedControl); return; }
        if len > MAX_CONTROL_PAYLOAD { v := Fail(ControlTooLarge); return; }
      }
      var off := 2;
      if len == 126 {
        if |w| < 4 { return NeedMore; }
        len := 256 * (w[2] as int) + w[3];
        FromBEOfPair(w[2..4]);
        off := 4;
        if len <= MAX_CONTROL_PAYLOAD { v := Fail(NonCanonicalLength); return; }
      } else if len == 127 {
        if |w| < 10 { return NeedMore; }
        var x: nat := 0;
        for i := 0 to 8
          invariant x == FromBE(w[2..2 + i])
        {
          assert w[2..3 + i][..i] == w[2..2 + i];
          x := 256 * x + (w[off + i] as int);
        }
        off := 10;
        if x > 0x7FFF_FFFF_FFFF_FFFF { v := Fail(NonCanonicalLength); return; }
        if x <= 0xFFFF { v := Fail(NonCanonicalLength); return; }
        len := x;
      }
      var key := 0;
      if masked {
        if |w| < off + 4 { return NeedMore; }
        key := FromLE(w[off..off + 4]);
        off := off + 4;
      }
      return Parsed(Header(fin, op.value, len, masked, key, off));
    }

    method Fail(e: Error) returns (v: Verdict)
      modifies this`err
      ensures v == Refused(e) && err == Some(e)
    {
      err := Some(e);
      return Refused(e);
    }
  }

  // ------------------------------------------------------------------ encoder

  method WriteFrameHeader(out: array<Byte>, fin: bool, op: Opcode, len: nat, key: nat) returns (off: nat)
    requires out.Length >= MAX_HEADER_LEN
    requires len < 0x1_0000_0000_0000_0000 && key < 0x1_0000_0000
    modifies out
    ensures 2 <= off <= MAX_HEADER_LEN
    ensures out[..off] == EncodeHeader(fin, op, len, key != 0, key)
    ensures out[off..] == old(out[off..])
  {
    off := WriteStart(out, fin, op, len, key != 0);
    if key != 0 {
      WriteKey(out, off, key);
      off := off + 4;
      assert out[..off] == out[..off - 4] + out[off - 4..off];
    }
  }

  /** The header up to its key. */
  method WriteStart(out: array<Byte>, fin: bool, op: Opcode, len: nat, masked: bool) returns (off: nat)
    requires out.Length >= MAX_HEADER_LEN && len < 0x1_0000_0000_0000_0000
    modifies out
    ensures off == 2 + |LengthField(len)| <= 10
    ensures out[..off] == [FirstByte(fin, op), SecondByte(masked, ShortLength(len))] + LengthField(len)
    ensures forall p :: off <= p <= out.Length ==> out[p..] == old(out[p..])
  {
    out[0] := FirstByte(fin, op);
    out[1] := SecondByte(masked, ShortLength(len));
    if len <= MAX_CONTROL_PAYLOAD {
      off := 2;
    } else if len <= 0xFFFF {
      out[2] := len / 256 % 256;
      out[3] := len % 256;
      off := 4;
      assert ToBE(len, 2) == [len / 256 % 256, len % 256];
    } else {
      WriteLength(out, len);
      off := 10;
    }
    assert out[..off] == [FirstByte(fin, op), SecondByte(masked, ShortLength(len))] + LengthField(len);
    assert out[off..] == old(out[off..]);
    assert forall p :: off <= p <= out.Length ==> out[p..] == out[off..][p - off..];
  }

  method WriteLength(out: array<Byte>, len: nat)
    requires out.Length >= 10
    modifies out
    ensures out[2..10] == ToBE(len, 8)
    ensures out[..2] == old(out[..2]) && out[10..] == old(out[10..])
  {
    for i := 0 to 8
      invariant forall k :: 0 <= k < i ==> out[2 + k] == ToBE(len, 8)[k]
      invariant out[..2] == old(out[..2]) && out[10..] == old(out[10..])
    {
      ToBEIndex(len, 8, i);
      out[2 + i] := len / Pow256(7 - i) % 256;
    }
  }

  method WriteKey(out: array<Byte>, off: nat, key: nat)
    requires off + 4 <= out.Length
    modifies out
    ensures out[off..off + 4] == ToLE(key, 4)
    ensures out[..off] == old(out[..off]) && out[off + 4..] == old(out[off + 4..])
  {
    var k := ToLE(key, 4);
    out[off], out[off + 1], out[off + 2], out[off + 3] := k[0], k[1], k[2], k[3];
  }

  // ----------------------------------------------------------- codec theorems

  lemma PowersOf256()
    ensures Pow256(2) == 0x1_0000 && Pow256(4) == 0x1_0000_0000
    ensures Pow256(8) == 0x1_0000_0000_0000_0000
  {
    assert Pow256(6) == 0x1_0000_0000_0000;
  }

  lemma FirstByteRoundTrip(fin: bool, op: Opcode)
    ensures var b := FirstByte(fin, op);
            b / 16 % 8 == 0 && OpcodeOf(b % 16) == Some(op) && (b >= 128 <==> fin)
  {
    match op { case Continue => case Text => case Binary => case Close => case Ping => case Pong => }
  }

  lemma FirstByteOf(b: Byte)
    requires b / 16 % 8 == 0 && OpcodeOf(b % 16).Some?
    ensures b == FirstByte(b >= 128, OpcodeOf(b % 16).value)
  {
  }

  lemma LengthRoundTrip(len: nat)
    requires len < 0x8000_0000_0000_0000
    ensures ShortLength(len) > MAX_CONTROL_PAYLOAD ==> FromBE(LengthField(len)) == len
  {
    PowersOf256();
    if len <= 0xFFFF { FromBEToBE(len, 2); } else { FromBEToBE(len, 8); }
  }

  lemma MiddleOf(a: seq<Byte>, b: seq<Byte>, c: seq<Byte>)
    ensures (a + b + c)[|a|..|a| + |b|] == b
  {
  }

  /** Every legal header parses back to itself, whatever follows it. */
  lemma ParseEncoded(role: Role, fin: bool, op: Opcode, len: nat, masked: bool, key: nat, rest: seq<Byte>)
    requires Legal(role, fin, op, len, masked, key)
    ensures var e := EncodeHeader(fin, op, len, masked, key);
            Parse(role, e + rest) == Parsed(Header(fin, op, len, masked, key, |e|))
  {
    hide ToBE, FromBE, ToLE, FromLE;
    var head, field := [FirstByte(fin, op), SecondByte(masked, ShortLength(len))], LengthField(len);
    var k := if masked then ToLE(key, 4) else [];
    var w := EncodeHeader(fin, op, len, masked, key) + rest;
    var off := 2 + |field|;
    FirstByteRoundTrip(fin, op);
    LengthRoundTrip(len);
    MiddleOf(head, field, k + rest);
    MiddleOf(head + field, k, rest);
    assert w == head + field + (k + rest) == head + field + k + rest;
    assert w[2..off] == field && w[off..off + |k|] == k;
    assert Parse(role, w) == ParseKey(w, fin, op, len, masked, off);
    if masked {
      PowersOf256();
      FromLEToLE(key, 4);
    }
  }

  lemma LengthFieldOf(s: seq<Byte>)
    requires (|s| == 2 && FromBE(s) > MAX_CONTROL_PAYLOAD) || (|s| == 8 && FromBE(s) > 0xFFFF)
    ensures LengthField(FromBE(s)) == s
    ensures |s| == 2 ==> FromBE(s) <= 0xFFFF
  {
    PowersOf256();
    ToBEFromBE(s);
    FromBEBound(s);
  }

  /** Every accepted header is legal and is the encoding of what was parsed: no two byte
      strings are accepted as the same header. */
  lemma EncodeParsed(role: Role, w: seq<Byte>)
    requires Parse(role, w).Parsed?
    ensures var h := Parse(role, w).header;
            && Legal(role, h.fin, h.opcode, h.payloadLen, h.masked, h.key)
            && 2 <= h.headerLen <= |w| && h.headerLen <= MAX_HEADER_LEN
            && w[..h.headerLen] == EncodeHeader(h.fin, h.opcode, h.payloadLen, h.masked, h.key)
  {
    hide ToBE, FromBE, ToLE, FromLE;
    var h := Parse(role, w).header;
    var off := if w[1] % 128 == 126 then 4 else if w[1] % 128 == 127 then 10 else 2;
    assert Parse(role, w) == ParseKey(w, w[0] >= 128, h.opcode, h.payloadLen, w[1] >= 128, off);
    FirstByteOf(w[0]);
    assert w[1] == SecondByte(w[1] >= 128, ShortLength(h.payloadLen)) && w[2..off] == LengthField(h.payloadLen) by {
      if off > 2 { LengthFieldOf(w[2..off]); }
    }
    EncodeParsedKey(w, w[0] >= 128, h.opcode, h.payloadLen, w[1] >= 128, off);
  }

  lemma EncodeParsedKey(w: seq<Byte>, fin: bool, op: Opcode, len: nat, masked: bool, off: nat)
    requires 2 <= off <= |w| && ParseKey(w, fin, op, len, masked, off).Parsed?
    requires w[0] == FirstByte(fin, op) && w[1] == SecondByte(masked, ShortLength(len)) && w[2..off] == LengthField(len)
    ensures var h := ParseKey(w, fin, op, len, masked, off).header;
            h.headerLen <= |w| && h.key < 0x1_0000_0000 && w[..h.headerLen] == EncodeHeader(fin, op, len, masked, h.key)
  {
    var n := if masked then off + 4 else off;
    if masked {
      PowersOf256();
      ToLEFromLE(w[off..n]);
    }
    assert w[..n] == [w[0], w[1]] + w[2..off] + w[off..n];
  }

  /** A verdict, once reached, does not depend on bytes that arrive later. */
  lemma VerdictIsStable(role: Role, w: seq<Byte>, more: seq<Byte>)
    requires !Parse(role, w).NeedMore?
    ensures Parse(role, w + more) == Parse(role, w)
  {
    var v := w + more;
    if |w| >= 4 { assert v[2..4] == w[2..4]; }
    if |w| >= 6 { assert v[2..6] == w[2..6]; }
    if |w| >= 8 { assert v[4..8] == w[4..8]; }
    if |w| >= 10 { assert v[2..10] == w[2..10]; }
    if |w| >= 14 { assert v[10..14] == w[10..14]; }
  }

  /** No strict prefix of a legal header is refused or taken for a header. */
  lemma PrefixNeedsMore(role: Role, fin: bool, op: Opcode, len: nat, masked: bool, key: nat, k: nat)
    requires Legal(role, fin, op, len, masked, key)
    requires k < |EncodeHeader(fin, op, len, masked, key)|
    ensures Parse(role, EncodeHeader(fin, op, len, masked, key)[..k]) == NeedMore
  {
    var e := EncodeHeader(fin, op, len, masked, key);
    if !Parse(role, e[..k]).NeedMore? {
      VerdictIsStable(role, e[..k], e[k..]);
      assert e[..k] + e[k..] == e + [];
      ParseEncoded(role, fin, op, len, masked, key, []);
      EncodeParsed(role, e[..k]);
    }
  }

  /** Writing a parsed header out again gives the same bytes unless it carries an all-zero
      mask, which the writer takes to mean "unmasked". */
  lemma RewriteIsFaithful(role: Role, w: seq<Byte>)
    requires Parse(role, w).Parsed?
    ensures var h := Parse(role, w).header;
            h.headerLen <= |w| &&
            (EncodeHeader(h.fin, h.opcode, h.payloadLen, h.key != 0, h.key) == w[..h.headerLen]
             <==> (h.masked ==> h.key != 0))
  {
    EncodeParsed(role, w);
  }

  /** Such a header: an empty text frame to a server, with key zero, comes back four bytes short. */
  lemma ZeroKeyIsLost()
    ensures var w := [0x81, 0x80, 0, 0, 0, 0];
            && Parse(Server, w) == Parsed(Header(true, Text, 0, true, 0, 6))
            && EncodeHeader(true, Text, 0, false, 0) == [0x81, 0x00]
  {
    var w := [0x81, 0x80, 0, 0, 0, 0];
    assert w[2..6] == [0, 0, 0, 0];
    assert FromLE([0, 0, 0, 0]) == 0;
  }

  // --------------------------------------------------------------------- mask

  function KeyByte(key: nat, pos: nat): Byte {
    ToLE(key, 4)[pos % 4]
  }

  lemma SameKeyByte(key: nat, p: nat, q: nat)
    requires p % 4 == q % 4
    ensures KeyByte(key, p) == KeyByte(key, q)
  {
  }

  function MaskByte(key: nat, pos: nat, b: Byte): Byte {
    XorBytes(b, KeyByte(key, pos));
    Xor(b, KeyByte(key, pos))
  }

  /** Section 5.3 of RFC 6455, for a run that starts at payload position `offset`. */
  function Mask(key: nat, offset: nat, s: seq<Byte>): (r: seq<Byte>)
    ensures |r| == |s|
    ensures forall i :: 0 <= i < |s| ==> r[i] == MaskByte(key, offset + i, s[i])
  {
    if s == [] then [] else Mask(key, offset, s[..|s| - 1]) + [MaskByte(key, offset + |s| - 1, s[|s| - 1])]
  }

  lemma MaskInvolutive(key: nat, offset: nat, s: seq<Byte>)
    ensures Mask(key, offset, Mask(key, offset, s)) == s
  {
    forall i | 0 <= i < |s|
      ensures Mask(key, offset, Mask(key, offset, s))[i] == s[i]
    {
      XorInvolutive(s[i], KeyByte(key, offset + i));
    }
  }

  /** Runs masked one after another with a running offset make up the masked whole. */
  lemma MaskRuns(key: nat, offset: nat, s: seq<Byte>, t: seq<Byte>)
    ensures Mask(key, offset, s + t) == Mask(key, offset, s) + Mask(key, offset + |s|, t)
  {
    var l, r := Mask(key, offset, s + t), Mask(key, offset, s) + Mask(key, offset + |s|, t);
    forall i | 0 <= i < |l|
      ensures l[i] == r[i]
    {
      if i >= |s| { assert offset + i == offset + |s| + (i - |s|); }
    }
  }

  /** In-place masking of data[from..from + len]: bytes up to a key boundary, whole words,
      then the tail. */
  method ApplyMask(key: nat, data: array<Byte>, from: nat, len: nat, offset: nat)
    requires key < 0x1_0000_0000 && from + len <= data.Length
    modifies data
    ensures data[from..from + len] == Mask(key, offset, old(data[from..from + len]))
    ensures data[..from] == old(data[..from]) && data[from + len..] == old(data[from + len..])
  {
    hide MaskByte, Masked;
    ghost var before := data[..];
    var i := MaskHead(key, data, from, len, offset);
    while i + 4 <= len
      invariant i <= len && (i < len ==> (offset + i) % 4 == 0) && Masked(key, from, offset, i, before, data[..])
    {
      ghost var mid := data[..];
      MaskWord(key, data, from + i, offset + i);
      MaskedMore(key, from, offset, i, 4, before, mid, data[..]);
      i := i + 4;
    }
    ghost var mid := data[..];
    MaskTail(key, data, from + i, len - i, offset + i);
    MaskedMore(key, from, offset, i, len - i, before, mid, data[..]);
    WholeMasked(key, before, data[..], from, len, offset);
    assert before[from..from + len] == old(data[from..from + len]);
    assert data[..][from..from + len] == data[from..from + len];
  }

  /** Masking done byte by byte over a range is the mask of the range, and nothing else. */
  lemma WholeMasked(key: nat, before: seq<Byte>, after: seq<Byte>, from: nat, len: nat, offset: nat)
    requires key < 0x1_0000_0000 && from + len <= |before| && Masked(key, from, offset, len, before, after)
    ensures |after| == |before| && after[from..from + len] == Mask(key, offset, before[from..from + len])
    ensures after[..from] == before[..from] && after[from + len..] == before[from + len..]
  {
    hide Xor, ToLE, KeyByte, MaskByte;
  }

  /** The first `i` bytes of the run have been masked, and nothing else has changed. */
  ghost predicate Masked(key: nat, from: nat, offset: nat, i: nat, before: seq<Byte>, after: seq<Byte>) {
    |after| == |before| && forall k :: 0 <= k < |after| ==> after[k] == Partly(key, from, offset, i, k, before[k])
  }

  lemma MaskedMore(key: nat, from: nat, offset: nat, i: nat, n: nat, before: seq<Byte>, mid: seq<Byte>,
                   after: seq<Byte>)
    requires Masked(key, from, offset, i, before, mid) && Masked(key, from + i, offset + i, n, mid, after)
    ensures Masked(key, from, offset, i + n, before, after)
  {
    hide MaskByte;
    forall k | 0 <= k < |after| ensures after[k] == Partly(key, from, offset, i + n, k, before[k]) {
      assert mid[k] == Partly(key, from, offset, i, k, before[k]);
      assert offset + i + k - (from + i) == offset + k - from;
    }
  }

  method MaskHead(key: nat, data: array<Byte>, from: nat, len: nat, offset: nat) returns (i: nat)
    requires from + len <= data.Length
    modifies data
    ensures i <= len && (i < len ==> (offset + i) % 4 == 0) && Masked(key, from, offset, i, old(data[..]), data[..])
  {
    hide Xor, ToLE, KeyByte;
    i := 0;
    while i < len && (offset + i) % 4 != 0
      invariant i <= len
      invariant forall k :: 0 <= k < data.Length ==> data[k] == Partly(key, from, offset, i, k, old(data[k]))
    {
      data[from + i] := MaskByte(key, offset + i, data[from + i]);
      i := i + 1;
    }
  }

  method MaskTail(key: nat, data: array<Byte>, from: nat, len: nat, offset: nat)
    requires from + len <= data.Length && len < 4 && (0 < len ==> offset % 4 == 0)
    modifies data
    ensures Masked(key, from, offset, len, old(data[..]), data[..])
  {
    hide Xor, ToLE, KeyByte;
    var t := 0;
    while t < len
      invariant t <= len
      invariant forall k :: 0 <= k < data.Length ==> data[k] == Partly(key, from, offset, t, k, old(data[k]))
    {
      SameKeyByte(key, t, offset + t);
      data[from + t] := MaskByte(key, t, data[from + t]);
      t := t + 1;
    }
  }

  /** Byte `k` of the buffer once the first `i` bytes of the run have been masked. */
  function Partly(key: nat, from: nat, offset: nat, i: nat, k: nat, was: Byte): Byte {
    if from <= k < from + i then MaskByte(key, offset + k - from, was) else was
  }

  /** Four bytes at an aligned payload position, through one 32-bit word. */
  method MaskWord(key: nat, data: array<Byte>, j: nat, pos: nat)
    requires j + 4 <= data.Length && pos % 4 == 0
    modifies data
    ensures Masked(key, j, pos, 4, old(data[..]), data[..])
  {
    hide Xor, ToLE, FromLE;
    var word := data[j..j + 4];
    var b := ToLE(Xor(FromLE(word), key), 4);
    forall k | 0 <= k < 4 ensures b[k] == MaskByte(key, pos + k, word[k]) {
      XorLE(word, key, k);
    }
    data[j], data[j + 1], data[j + 2], data[j + 3] := b[0], b[1], b[2], b[3];
  }
}
