/** What a byte stream means to a WebSocket receiver, with no notion of how the bytes were
    split into reads. The session is proved against `Receive`; here `Receive` is proved
    against the peer's own frames (section 5.4 of RFC 6455). */
module Reassembly {
  import opened Bits
  import opened Frame
  import opened Optional

  const PROTOCOL_ERROR := 1002
  const MESSAGE_TOO_BIG := 1009

  datatype Config = Config(role: Role, maxMessage: nat)

  datatype Message = Message(opcode: Opcode, payload: seq<Byte>)

  /** A fragmented message in progress, between two frames. */
  datatype Fragments = Idle | Open(opcode: Opcode, bytes: seq<Byte>) {
    function Bytes(): seq<Byte> { if Idle? then [] else bytes }
  }

  datatype Event =
    | Delivered(message: Message)
    | CloseArrived(payload: seq<Byte>)
    | Violation(error: Error, code: nat)
    | Starved

  /** The next event of a stream, the pings to answer on the way to it, and where the
      receiver then stands. */
  datatype Outcome = Outcome(pongs: seq<seq<Byte>>, event: Event, frag: Fragments, rest: seq<Byte>)

  predicate CloseCodeValid(code: nat) {
    1000 <= code < 5000 && code != 1004 && code != 1005 && code != 1006 && code != 1015
  }

  predicate ClosePayloadValid(p: seq<Byte>) {
    |p| == 0 || (|p| >= 2 && CloseCodeValid(256 * (p[0] as int) + p[1]))
  }

  /** The rules between frames: what refuses a well-formed header in this position. */
  function Refusal(cfg: Config, frag: Fragments, h: Header): Option<Event> {
    if h.opcode.IsData() && frag.Open? then Some(Violation(ContinuationExpected, PROTOCOL_ERROR))
    else if h.opcode.IsData() && h.payloadLen > cfg.maxMessage then Some(Violation(MessageTooLarge, MESSAGE_TOO_BIG))
    else if h.opcode == Continue && frag.Idle? then Some(Violation(ContinuationUnexpected, PROTOCOL_ERROR))
    else if h.opcode == Continue && |frag.bytes| + h.payloadLen > cfg.maxMessage then
      Some(Violation(MessageTooLarge, MESSAGE_TOO_BIG))
    else None
  }

  /** A data frame is acted on only once a byte is buffered, so an empty one waits for the
      byte after it. */
  predicate Arrived(h: Header, body: seq<Byte>) {
    |body| >= h.payloadLen && (h.opcode.IsControl() || |body| > 0)
  }

  function Unmask(h: Header, s: seq<Byte>): (r: seq<Byte>)
    ensures |r| == |s|
  {
    if h.masked then Mask(h.key, 0, s) else s
  }

  function Prepend(pongs: seq<seq<Byte>>, o: Outcome): Outcome {
    o.(pongs := pongs + o.pongs)
  }

  /** The message in progress after a data frame that is not the last of its message. */
  function Extended(frag: Fragments, h: Header, payload: seq<Byte>): Fragments {
    Open(h.opcode, frag.Bytes() + payload)
  }

  function Completed(frag: Fragments, h: Header, payload: seq<Byte>): Message {
    Message(if frag.Open? then frag.opcode else h.opcode, frag.Bytes() + payload)
  }

  function Receive(cfg: Config, frag: Fragments, s: seq<Byte>, deliver: bool): (o: Outcome)
    ensures |o.rest| <= |s|
    ensures o.event.Delivered? || o.event.CloseArrived? ==> |o.rest| < |s|
    ensures o.event.Delivered? ==> o.frag == Idle && deliver
    decreases |s|
  {
    match Parse(cfg.role, s)
    case NeedMore => Outcome([], Starved, frag, s)
    case Refused(e) => Outcome([], Violation(e, PROTOCOL_ERROR), frag, s)
    case Parsed(h) =>
      EncodeParsed(cfg.role, s);
      var body := s[h.headerLen..];
      if Refusal(cfg, frag, h).Some? then Outcome([], Refusal(cfg, frag, h).value, frag, s)
      else if !Arrived(h, body) then Outcome([], Starved, frag, s)
      else ReceiveFrame(cfg, frag, h, Unmask(h, body[..h.payloadLen]), body[h.payloadLen..], deliver, s)
  }

  /** One whole frame, then on to the next event. */
  function ReceiveFrame(cfg: Config, frag: Fragments, h: Header, payload: seq<Byte>, rest: seq<Byte>, deliver: bool,
                        ghost s: seq<Byte>): (o: Outcome)
    requires |rest| < |s|
    ensures |o.rest| < |s|
    ensures o.event.Delivered? ==> o.frag == Idle && deliver
    decreases |s|, 0
  {
    match h.opcode
    case Ping => Prepend([payload], Receive(cfg, frag, rest, deliver))
    case Pong => Receive(cfg, frag, rest, deliver)
    case Close =>
      if ClosePayloadValid(payload) then Outcome([], CloseArrived(payload), frag, rest)
      else Outcome([], Violation(InvalidCloseCode, PROTOCOL_ERROR), frag, rest)
    case _ =>
      if !h.fin then Receive(cfg, Extended(frag, h, payload), rest, deliver)
      else if deliver then Outcome([], Delivered(Completed(frag, h, payload)), Idle, rest)
      else Receive(cfg, Idle, rest, deliver)
  }

  // ---------------------------------------------------------------- whole runs

  datatype Transcript = Transcript(messages: seq<Message>, pongs: seq<seq<Byte>>, end: Event)

  function After(m: Message, pongs: seq<seq<Byte>>, t: Transcript): Transcript {
    Transcript([m] + t.messages, pongs + t.pongs, t.end)
  }

  /** Everything a reader that keeps asking gets from a stream. */
  function Run(cfg: Config, frag: Fragments, s: seq<Byte>): Transcript
    decreases |s|
  {
    var o := Receive(cfg, frag, s, true);
    match o.event
    case Delivered(m) => After(m, o.pongs, Run(cfg, o.frag, o.rest))
    case CloseArrived(p) => Transcript([Message(Close, p)], o.pongs, o.event)
    case _ => Transcript([], o.pongs, o.event)
  }

  lemma RunOfSame(cfg: Config, frag: Fragments, s: seq<Byte>, frag': Fragments, s': seq<Byte>)
    requires Receive(cfg, frag, s, true) == Receive(cfg, frag', s', true)
    ensures Run(cfg, frag, s) == Run(cfg, frag', s')
  {
    hide Receive;
  }

  lemma RunOfEnd(cfg: Config, frag: Fragments, s: seq<Byte>)
    requires !Receive(cfg, frag, s, true).event.Delivered?
    ensures var o := Receive(cfg, frag, s, true);
            Run(cfg, frag, s) ==
            Transcript(if o.event.CloseArrived? then [Message(Close, o.event.payload)] else [], o.pongs, o.event)
  {
    hide Receive;
  }

  lemma RunOfPrepend(cfg: Config, frag: Fragments, s: seq<Byte>, frag': Fragments, s': seq<Byte>, pongs: seq<seq<Byte>>)
    requires Receive(cfg, frag, s, true) == Prepend(pongs, Receive(cfg, frag', s', true))
    ensures Run(cfg, frag, s) == Run(cfg, frag', s').(pongs := pongs + Run(cfg, frag', s').pongs)
  {
    hide Receive;
    var o := Receive(cfg, frag', s', true);
    if o.event.Delivered? {
      RunOfDelivered(cfg, frag', s', o.event.message, o.pongs);
      RunOfDelivered(cfg, frag, s, o.event.message, pongs + o.pongs);
      Concat3(pongs, o.pongs, Run(cfg, o.frag, o.rest).pongs);
    }
  }

  lemma RunOfDelivered(cfg: Config, frag: Fragments, s: seq<Byte>, m: Message, pongs: seq<seq<Byte>>)
    requires Receive(cfg, frag, s, true).event == Delivered(m) && Receive(cfg, frag, s, true).pongs == pongs
    ensures Run(cfg, frag, s) == After(m, pongs, Run(cfg, Idle, Receive(cfg, frag, s, true).rest))
  {
    hide Receive;
  }

  lemma Concat3<T>(a: seq<T>, b: seq<T>, c: seq<T>)
    ensures a + b + c == a + (b + c)
  {
  }

  // ---------------------------------------------------------- the peer's side

  datatype WireFrame = WireFrame(fin: bool, opcode: Opcode, key: nat, payload: seq<Byte>)

  function EncodeFrame(role: Role, f: WireFrame): seq<Byte> {
    EncodeHeader(f.fin, f.opcode, |f.payload|, role == Server, f.key)
    + (if role == Server then Mask(f.key, 0, f.payload) else f.payload)
  }

  function Encode(role: Role, fs: seq<WireFrame>): seq<Byte> {
    if fs == [] then [] else EncodeFrame(role, fs[0]) + Encode(role, fs[1..])
  }

  predicate LegalFrame(role: Role, f: WireFrame) {
    Legal(role, f.fin, f.opcode, |f.payload|, role == Server, f.key)
  }

  /** A message as its frames make it up. */
  datatype Assembly = Assembly(opcode: Opcode, payload: seq<Byte>, frames: nat)

  function Assembled(open: Option<Assembly>, f: WireFrame): Assembly {
    match open
    case None => Assembly(f.opcode, f.payload, 1)
    case Some(a) => Assembly(a.opcode, a.payload + f.payload, a.frames + 1)
  }

  /** What a conforming peer may send to an endpoint with this configuration while the
      message `open` is unfinished: control frames anywhere, a Close last. */
  predicate Conforming(cfg: Config, open: Option<Assembly>, fs: seq<WireFrame>)
    decreases |fs|
  {
    fs == [] ||
    (LegalFrame(cfg.role, fs[0]) &&
     match fs[0].opcode
     case Ping => Conforming(cfg, open, fs[1..])
     case Pong => Conforming(cfg, open, fs[1..])
     case Close => ClosePayloadValid(fs[0].payload) && fs[1..] == []
     case _ =>
       var a := Assembled(open, fs[0]);
       && (fs[0].opcode == Continue <==> open.Some?)
       && |a.payload| <= cfg.maxMessage
       && Conforming(cfg, if fs[0].fin then None else Some(a), fs[1..]))
  }

  /** The messages a peer means, in order. */
  function Messages(open: Option<Assembly>, fs: seq<WireFrame>): seq<Assembly>
    decreases |fs|
  {
    if fs == [] then []
    else if fs[0].opcode == Close then [Assembly(Close, fs[0].payload, 1)]
    else if fs[0].opcode.IsControl() then Messages(open, fs[1..])
    else
      var a := Assembled(open, fs[0]);
      if fs[0].fin then [a] + Messages(None, fs[1..]) else Messages(Some(a), fs[1..])
  }

  function Pings(fs: seq<WireFrame>): seq<seq<Byte>> {
    if fs == [] then []
    else (if fs[0].opcode == Ping then [fs[0].payload] else []) + Pings(fs[1..])
  }

  predicate Lags(f: WireFrame) { !f.opcode.IsControl() && f.payload == [] }

  /** The frames acted on by the time the stream has been read: a trailing empty data frame
      is not. */
  function Settled(fs: seq<WireFrame>): seq<WireFrame> {
    if fs != [] && Lags(fs[|fs| - 1]) then fs[..|fs| - 1] else fs
  }

  /** What the receiver hands over for a message: of three frames or more, the opcode is the
      last middle frame's, not the first's. */
  function AsReceived(a: Assembly): Message {
    Message(if a.frames <= 2 then a.opcode else Continue, a.payload)
  }

  function AllAsReceived(ms: seq<Assembly>): (r: seq<Message>)
    ensures |r| == |ms|
    ensures forall i :: 0 <= i < |ms| ==> r[i] == AsReceived(ms[i])
  {
    if ms == [] then [] else [AsReceived(ms[0])] + AllAsReceived(ms[1..])
  }

  /** The receiver's view of the message the peer is in the middle of. */
  function InProgress(open: Option<Assembly>): Fragments {
    match open
    case None => Idle
    case Some(a) => Open(if a.frames <= 1 then a.opcode else Continue, a.payload)
  }

  function HeaderOf(role: Role, f: WireFrame): Header {
    Header(f.fin, f.opcode, |f.payload|, role == Server, f.key,
           |EncodeHeader(f.fin, f.opcode, |f.payload|, role == Server, f.key)|)
  }

  /** A frame at the head of a stream is received as the peer meant it, unless it is an empty
      data frame with nothing behind it. */
  lemma ReceiveEncoded(cfg: Config, frag: Fragments, f: WireFrame, rest: seq<Byte>)
    requires LegalFrame(cfg.role, f) && Refusal(cfg, frag, HeaderOf(cfg.role, f)).None?
    ensures var s := EncodeFrame(cfg.role, f) + rest;
            Receive(cfg, frag, s, true) ==
            if Lags(f) && rest == [] then Outcome([], Starved, frag, s)
            else ReceiveFrame(cfg, frag, HeaderOf(cfg.role, f), f.payload, rest, true, s)
  {
    hide Mask, EncodeHeader, Refusal, Parse;
    var s := EncodeFrame(cfg.role, f) + rest;
    var e := EncodeHeader(f.fin, f.opcode, |f.payload|, cfg.role == Server, f.key);
    var masked := if cfg.role == Server then Mask(f.key, 0, f.payload) else f.payload;
    ParseEncoded(cfg.role, f.fin, f.opcode, |f.payload|, cfg.role == Server, f.key, masked + rest);
    assert s == e + (masked + rest);
    var body := s[|e|..];
    assert body == masked + rest;
    assert body[..|f.payload|] == masked && body[|f.payload|..] == rest;
    MaskInvolutive(f.key, 0, f.payload);
  }

  lemma SettledTail(fs: seq<WireFrame>)
    requires |fs| >= 2
    ensures Settled(fs) == [fs[0]] + Settled(fs[1..])
  {
    assert fs[1..][|fs| - 2] == fs[|fs| - 1];
    assert fs[..|fs| - 1] == [fs[0]] + fs[1..][..|fs| - 2];
  }

  function Ending(fs: seq<WireFrame>): Event {
    if fs != [] && fs[|fs| - 1].opcode == Close then CloseArrived(fs[|fs| - 1].payload) else Starved
  }

  lemma EncodeNonEmpty(role: Role, fs: seq<WireFrame>)
    ensures Encode(role, fs) == [] <==> fs == []
  {
  }

  lemma NotRefused(cfg: Config, open: Option<Assembly>, fs: seq<WireFrame>)
    requires fs != [] && Conforming(cfg, open, fs)
    ensures Refusal(cfg, InProgress(open), HeaderOf(cfg.role, fs[0])).None?
  {
  }

  /** A data frame takes the receiver from one view of the peer's message to the next. */
  lemma DataFrame(role: Role, open: Option<Assembly>, f: WireFrame)
    requires open.Some? ==> open.value.frames >= 1
    requires !f.opcode.IsControl() && (f.opcode == Continue <==> open.Some?)
    ensures Extended(InProgress(open), HeaderOf(role, f), f.payload) == InProgress(Some(Assembled(open, f)))
    ensures Completed(InProgress(open), HeaderOf(role, f), f.payload) == AsReceived(Assembled(open, f))
    ensures InProgress(None) == Idle && Assembled(open, f).frames >= 1
  {
    if open.None? { assert [] + f.payload == f.payload; }
  }

  /** The peer's frames as a reader should see them. */
  function Expected(open: Option<Assembly>, fs: seq<WireFrame>): Transcript {
    Transcript(AllAsReceived(Messages(open, Settled(fs))), Pings(fs), Ending(fs))
  }

  lemma ExpectedStep(cfg: Config, open: Option<Assembly>, fs: seq<WireFrame>)
    requires fs != [] && Conforming(cfg, open, fs) && !(|fs| == 1 && Lags(fs[0]))
    ensures var f, tail, a := fs[0], fs[1..], Assembled(open, fs[0]);
            Expected(open, fs) ==
            match f.opcode
            case Ping => var t := Expected(open, tail); t.(pongs := [f.payload] + t.pongs)
            case Pong => Expected(open, tail)
            case Close => Transcript([Message(Close, f.payload)], [], CloseArrived(f.payload))
            case _ => if f.fin then After(AsReceived(a), [], Expected(None, tail)) else Expected(Some(a), tail)
  {
    var f, tail := fs[0], fs[1..];
    SettledStep(fs);
    MessagesStep(open, f, Settled(tail));
    PingsStep(fs);
    if f.opcode == Close {
      CloseIsLast(cfg, open, fs);
      AllCons(Assembly(Close, f.payload, 1), []);
      CloseAsReceived(f.payload);
    } else {
      EndingStep(fs);
      if !f.opcode.IsControl() && f.fin { AllCons(Assembled(open, f), Messages(None, Settled(tail))); }
    }
    hide AsReceived, Assembled, Settled, Messages, Pings, Conforming, AllAsReceived;
  }

  lemma SettledStep(fs: seq<WireFrame>)
    requires fs != [] && !(|fs| == 1 && Lags(fs[0]))
    ensures Settled(fs) == [fs[0]] + Settled(fs[1..])
  {
    if |fs| >= 2 { SettledTail(fs); }
  }

  lemma MessagesStep(open: Option<Assembly>, f: WireFrame, rest: seq<WireFrame>)
    ensures Messages(open, [f] + rest) ==
            if f.opcode == Close then [Assembly(Close, f.payload, 1)]
            else if f.opcode.IsControl() then Messages(open, rest)
            else if f.fin then [Assembled(open, f)] + Messages(None, rest)
            else Messages(Some(Assembled(open, f)), rest)
  {
    assert ([f] + rest)[1..] == rest;
  }

  lemma PingsStep(fs: seq<WireFrame>)
    requires fs != []
    ensures Pings(fs) == (if fs[0].opcode == Ping then [fs[0].payload] else []) + Pings(fs[1..]) && Pings([]) == []
  {
  }

  lemma CloseIsLast(cfg: Config, open: Option<Assembly>, fs: seq<WireFrame>)
    requires fs != [] && Conforming(cfg, open, fs) && fs[0].opcode == Close
    ensures fs[1..] == [] && Ending(fs) == CloseArrived(fs[0].payload)
  {
  }

  lemma EndingStep(fs: seq<WireFrame>)
    requires fs != [] && fs[0].opcode != Close
    ensures Ending(fs) == Ending(fs[1..])
  {
    if |fs| >= 2 { assert fs[1..][|fs| - 2] == fs[|fs| - 1]; }
  }

  /** A reader of a conforming peer's byte stream gets the peer's messages, all of them, in
      order and whole, and answers its pings; only a trailing empty data frame is outstanding. */
  lemma {:induction false} ReceivesWhatWasSent(cfg: Config, open: Option<Assembly>, fs: seq<WireFrame>)
    requires Conforming(cfg, open, fs) && (open.Some? ==> open.value.frames >= 1)
    ensures Run(cfg, InProgress(open), Encode(cfg.role, fs)) == Expected(open, fs)
    decreases |fs|
  {
    var frag, s := InProgress(open), Encode(cfg.role, fs);
    if fs == [] {
      ReceiveNothing(cfg, frag);
      return;
    }
    hide Parse, EncodeFrame, Refusal, InProgress, LegalFrame, AsReceived, Assembled, Completed, Extended;
    hide Receive, Expected, Run;
    var f, tail := fs[0], fs[1..];
    var rest := Encode(cfg.role, tail);
    NotRefused(cfg, open, fs);
    ReceiveEncoded(cfg, frag, f, rest);
    EncodeNonEmpty(cfg.role, tail);
    if tail == [] && Lags(f) {
      assert fs == [f];
      ExpectedLag(open, f);
      RunOfEnd(cfg, frag, s);
      return;
    }
    ExpectedStep(cfg, open, fs);
    match f.opcode {
      case Ping =>
        RunOfPrepend(cfg, frag, s, frag, rest, [f.payload]);
        ReceivesWhatWasSent(cfg, open, tail);
      case Pong =>
        RunOfSame(cfg, frag, s, frag, rest);
        ReceivesWhatWasSent(cfg, open, tail);
      case Close =>
        RunOfEnd(cfg, frag, s);
      case _ =>
        var a := Assembled(open, f);
        DataFrame(cfg.role, open, f);
        if f.fin {
          RunOfDelivered(cfg, frag, s, AsReceived(a), []);
          ReceivesWhatWasSent(cfg, None, tail);
        } else {
          RunOfSame(cfg, frag, s, InProgress(Some(a)), rest);
          ReceivesWhatWasSent(cfg, Some(a), tail);
        }
    }
  }

  lemma ExpectedLag(open: Option<Assembly>, f: WireFrame)
    requires Lags(f)
    ensures Expected(open, [f]) == Transcript([], [], Starved)
  {
    assert [f][..0] == [] && [f][1..] == [];
    assert Ping.IsControl() && Close.IsControl();
    assert Pings([f]) == Pings([]);
  }

  lemma AllCons(a: Assembly, ms: seq<Assembly>)
    ensures AllAsReceived([a] + ms) == [AsReceived(a)] + AllAsReceived(ms)
  {
  }

  lemma CloseAsReceived(p: seq<Byte>)
    ensures AsReceived(Assembly(Close, p, 1)) == Message(Close, p)
  {
  }

  lemma ReceiveNothing(cfg: Config, frag: Fragments)
    ensures Receive(cfg, frag, [], true) == Outcome([], Starved, frag, [])
  {
  }

  // ------------------------------------------------------- what is exactly lost

  lemma {:induction false} MessageOpcodes(cfg: Config, open: Option<Assembly>, fs: seq<WireFrame>)
    requires Conforming(cfg, open, fs) && (open.Some? ==> open.value.opcode != Continue)
    ensures forall a :: a in Messages(open, fs) ==> a.opcode != Continue
    decreases |fs|
  {
    hide LegalFrame;
    if fs != [] {
      var tail := fs[1..];
      match fs[0].opcode {
        case Ping => MessageOpcodes(cfg, open, tail);
        case Pong => MessageOpcodes(cfg, open, tail);
        case Close =>
        case _ => MessageOpcodes(cfg, if fs[0].fin then None else Some(Assembled(open, fs[0])), tail);
      }
    }
  }

  lemma {:induction false} SettledMessages(open: Option<Assembly>, fs: seq<WireFrame>)
    ensures Messages(open, Settled(fs)) <= Messages(open, fs)
    decreases |fs|
  {
    if |fs| >= 2 {
      SettledTail(fs);
      assert Settled(fs)[1..] == Settled(fs[1..]);
      var a := Assembled(open, fs[0]);
      SettledMessages(if fs[0].opcode.IsControl() then open else if fs[0].fin then None else Some(a), fs[1..]);
    }
  }

  /** A message that is delivered has the payload it was sent with, and its opcode if and only if it
      was sent in at most two frames. */
  lemma OpcodeKeptIff(cfg: Config, fs: seq<WireFrame>, i: nat)
    requires Conforming(cfg, None, fs) && i < |Run(cfg, Idle, Encode(cfg.role, fs)).messages|
    ensures var got, sent := Run(cfg, Idle, Encode(cfg.role, fs)).messages, Messages(None, fs);
            && |got| <= |sent| && got[i].payload == sent[i].payload
            && (got[i].opcode == sent[i].opcode <==> sent[i].frames <= 2)
  {
    hide Run, Conforming, Encode, Messages, Settled;
    ReceivesWhatWasSent(cfg, None, fs);
    SettledMessages(None, fs);
    MessageOpcodes(cfg, None, fs);
    assert Messages(None, fs)[i] in Messages(None, fs);
  }

  /** A text message in three frames arrives as a continuation. */
  lemma ThreeFramesLoseOpcode()
    ensures var cfg := Config(Client, 100);
            var fs := [WireFrame(false, Text, 0, [1]), WireFrame(false, Continue, 0, [2]),
                       WireFrame(true, Continue, 0, [3])];
            && Conforming(cfg, None, fs) && Messages(None, fs) == [Assembly(Text, [1, 2, 3], 3)]
            && Run(cfg, Idle, Encode(Client, fs)).messages == [Message(Continue, [1, 2, 3])]
  {
    hide Run, Conforming, Encode, Messages;
    ThreeFrames();
    ReceivesWhatWasSent(Config(Client, 100), None, [WireFrame(false, Text, 0, [1]), WireFrame(false, Continue, 0, [2]),
                                                    WireFrame(true, Continue, 0, [3])]);
  }

  lemma ThreeFrames()
    ensures var fs := [WireFrame(false, Text, 0, [1]), WireFrame(false, Continue, 0, [2]),
                       WireFrame(true, Continue, 0, [3])];
            Conforming(Config(Client, 100), None, fs) && Messages(None, fs) == [Assembly(Text, [1, 2, 3], 3)]
  {
    var cfg, a, b := Config(Client, 100), WireFrame(false, Text, 0, [1]), WireFrame(false, Continue, 0, [2]);
    var c := WireFrame(true, Continue, 0, [3]);
    var fs := [a, b, c];
    assert fs[1..] == [b, c] && [b, c][1..] == [c] && [c][1..] == [];
    assert [1] + [2] == [1, 2] && [1, 2] + [3] == [1, 2, 3];
    var one, two := Assembly(Text, [1], 1), Assembly(Text, [1, 2], 2);
    assert Conforming(cfg, Some(two), [c]) && Conforming(cfg, Some(one), [b, c]);
    assert Messages(Some(two), [c]) == [Assembly(Text, [1, 2, 3], 3)];
    assert Messages(Some(one), [b, c]) == Messages(Some(two), [c]);
  }

  /** An empty text message that ends the stream is not delivered. */
  lemma EmptyMessageWaits()
    ensures var cfg, fs := Config(Client, 100), [WireFrame(true, Text, 0, [])];
            && Conforming(cfg, None, fs) && Messages(None, fs) == [Assembly(Text, [], 1)]
            && Run(cfg, Idle, Encode(Client, fs)) == Transcript([], [], Starved)
  {
    var cfg, f := Config(Client, 100), WireFrame(true, Text, 0, []);
    assert [f][1..] == [] && [f] + [] == [f];
    assert Conforming(cfg, None, [f]);
    MessagesStep(None, f, []);
    assert Messages(None, []) == [];
    hide Run, Conforming, Encode, Messages;
    ReceivesWhatWasSent(cfg, None, [f]);
    ExpectedLag(None, f);
  }

  function Last(fs: seq<WireFrame>): WireFrame {
    if fs == [] then WireFrame(true, Close, 0, []) else fs[|fs| - 1]
  }

  /** A message is outstanding at the end of the stream if and only if its last frame is the
      stream's last and carries nothing. */
  lemma {:induction false} OutstandingIff(open: Option<Assembly>, fs: seq<WireFrame>)
    requires forall i :: 0 <= i < |fs| - 1 ==> fs[i].opcode != Close
    ensures Messages(open, Settled(fs)) != Messages(open, fs) <==> Lags(Last(fs)) && Last(fs).fin
    decreases |fs|
  {
    if |fs| >= 2 {
      var tail := fs[1..];
      SettledTail(fs);
      assert Settled(fs)[1..] == Settled(tail);
      assert fs[0].opcode != Close;
      var a := Assembled(open, fs[0]);
      OutstandingIff(if fs[0].opcode.IsControl() then open else if fs[0].fin then None else Some(a), tail);
      var x, y := Messages(None, Settled(tail)), Messages(None, tail);
      assert ([a] + x)[1..] == x && ([a] + y)[1..] == y;
    } else if |fs| == 1 {
      assert fs[1..] == [] && fs[..0] == [];
      assert Messages(open, []) == [];
    }
  }

  /** Whatever the bytes, no message over the limit is delivered or aggregated. */
  lemma {:induction false} DeliveredFits(cfg: Config, frag: Fragments, s: seq<Byte>, deliver: bool)
    requires |frag.Bytes()| <= cfg.maxMessage
    ensures var o := Receive(cfg, frag, s, deliver);
            && |o.frag.Bytes()| <= cfg.maxMessage
            && (o.event.Delivered? ==> |o.event.message.payload| <= cfg.maxMessage)
    decreases |s|
  {
    hide Parse, Unmask;
    var v := Parse(cfg.role, s);
    if v.Parsed? {
      EncodeParsed(cfg.role, s);
      var h := v.header;
      var body := s[h.headerLen..];
      if Refusal(cfg, frag, h).None? && Arrived(h, body) {
        var payload, rest := Unmask(h, body[..h.payloadLen]), body[h.payloadLen..];
        if h.opcode.IsControl() {
          DeliveredFits(cfg, frag, rest, deliver);
        } else if !h.fin {
          DeliveredFits(cfg, Extended(frag, h, payload), rest, deliver);
        } else {
          DeliveredFits(cfg, Idle, rest, deliver);
        }
      }
    }
  }
}
