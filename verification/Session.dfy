/** The post-handshake WebSocket session: reads of any size in, whole messages out, and the
    closing handshake (section 5.5.1 of RFC 6455). */
module Session {
  import opened Bits
  import opened Frame
  import opened HeadBuffer
  import opened Host
  import opened Optional
  import opened Reassembly
  import opened Wire

  // the smallest block the buffer pool leases
  const MIN_BLOCK := 4096

  datatype State = Running | CloseSent | CloseReceived {
    function Rank(): nat {
      match this
      case Running => 0
      case CloseSent => 1
      case CloseReceived => 2
    }
  }

  datatype Result = Got(message: Message) | Failed(error: Error) | PeerGone | IoError | NoMemory

  datatype Filled = Data | Eof | Fault

  datatype HeaderStep = Ready | More | Bad(event: Event)

  datatype RunStep = Fragment | Whole(message: Message) | Unallocated

  function PeerOf(role: Role): Role {
    if role == Client then Server else Client
  }

  /** What a handler may call on its session; or it does something else, and time passes. */
  datatype Call =
    | CallSend(payload: seq<Byte>, op: Opcode)
    | CallPing(payload: seq<Byte>)
    | CallClose(code: nat, reason: seq<Byte>)
    | CallRecv
    | CallFinish
    | CallRequestClose
    | Idling
  {
    predicate Admissible() {
      (CallSend? ==> |payload| < 0x8000_0000_0000_0000) && (CallClose? ==> code < 0x1_0000)
    }
  }

  /** At most one Close goes out, and no data after it. */
  predicate Polite(sent: seq<WireFrame>) {
    forall i, j :: 0 <= i < j < |sent| && sent[i].opcode == Close ==>
      sent[j].opcode.IsControl() && sent[j].opcode != Close
  }

  predicate NoClose(sent: seq<WireFrame>) {
    forall i :: 0 <= i < |sent| ==> sent[i].opcode != Close
  }

  /** A frame that is a message of its own, or a control frame with a proper payload. */
  predicate Acceptable(role: Role, f: WireFrame) {
    LegalFrame(role, f) && f.fin && f.opcode != Continue && (f.opcode == Close ==> ClosePayloadValid(f.payload))
  }

  lemma PoliteMore(sent: seq<WireFrame>, f: WireFrame)
    requires Polite(sent) && f.opcode != Continue && (f.opcode.IsData() || f.opcode == Close ==> NoClose(sent))
    ensures Polite(sent + [f]) && (f.opcode != Close && NoClose(sent) ==> NoClose(sent + [f]))
  {
  }

  /** A frame on the wire, as far as its reader can tell one from another. */
  datatype Reply = Reply(opcode: Opcode, payload: seq<Byte>)

  ghost function Replies(log: seq<WireFrame>): seq<Reply> {
    seq(|log|, i requires 0 <= i < |log| => Reply(log[i].opcode, log[i].payload))
  }

  /** The answers section 5.5.3 of RFC 6455 asks for: a Pong for every ping, with its payload. */
  ghost function PongsFor(pings: seq<seq<Byte>>): seq<Reply> {
    seq(|pings|, i requires 0 <= i < |pings| => Reply(Pong, pings[i]))
  }

  /** A close code in front of its reason, high byte first. */
  function CloseBody(code: nat): (b: seq<Byte>)
    ensures |b| == 2 && (code < 0x1_0000 ==> 256 * (b[0] as int) + b[1] == code)
  {
    [code / 256 % 256, code % 256]
  }

  /** What the event at the end of a stream is answered with: a Close is echoed if we had not sent
      ours, a violation is told with its code if that closed the session. */
  function Farewell(e: Event, was: State, now: State): seq<Reply> {
    match e
    case CloseArrived(p) => if was == Running then [Reply(Close, p)] else []
    case Violation(_, code) => if now != was then [Reply(Close, CloseBody(code))] else []
    case _ => []
  }

  lemma {:induction false} EncodeMore(role: Role, fs: seq<WireFrame>, f: WireFrame)
    ensures Encode(role, fs + [f]) == Encode(role, fs) + EncodeFrame(role, f)
  {
    hide EncodeFrame;
    if fs == [] {
      assert fs + [f] == [f] && [f][1..] == [];
    } else {
      EncodeMore(role, fs[1..], f);
      assert (fs + [f])[1..] == fs[1..] + [f];
    }
  }

  /** Where a session stood: the pings read, the frames written and the state, and what had gone
      wrong around it. */
  datatype Mark = Mark(pings: seq<seq<Byte>>, sent: seq<WireFrame>, state: State,
                       faults: nat, shortages: nat, fired: bool)

  lemma OneMoreReply(first: seq<WireFrame>, log: seq<WireFrame>, f: WireFrame)
    requires first <= log
    ensures Replies((log + [f])[|first|..]) == Replies(log[|first|..]) + [Reply(f.opcode, f.payload)]
  {
  }

  lemma OneMorePing(first: seq<seq<Byte>>, pings: seq<seq<Byte>>, p: seq<Byte>)
    requires first <= pings
    ensures PongsFor((pings + [p])[|first|..]) == PongsFor(pings[|first|..]) + [Reply(Pong, p)]
  {
  }

  /** Replies to one part of the pings and then to the rest are replies to them all. */
  lemma RepliesThen(first: Mark, mid: Mark, sent: seq<WireFrame>, pings: seq<seq<Byte>>, more: seq<Reply>)
    requires first.sent <= mid.sent <= sent && first.pings <= mid.pings <= pings
    requires Replies(mid.sent[|first.sent|..]) == PongsFor(mid.pings[|first.pings|..])
    requires Replies(sent[|mid.sent|..]) == PongsFor(pings[|mid.pings|..]) + more
    ensures Replies(sent[|first.sent|..]) == PongsFor(pings[|first.pings|..]) + more
  {
    RepliesSplit(first.sent, mid.sent, sent);
    PongsSplit(first.pings, mid.pings, pings);
  }

  lemma RepliesSplit(a: seq<WireFrame>, b: seq<WireFrame>, c: seq<WireFrame>)
    requires a <= b <= c
    ensures Replies(c[|a|..]) == Replies(b[|a|..]) + Replies(c[|b|..])
  {
  }

  lemma PongsSplit(a: seq<seq<Byte>>, b: seq<seq<Byte>>, c: seq<seq<Byte>>)
    requires a <= b <= c
    ensures PongsFor(c[|a|..]) == PongsFor(b[|a|..]) + PongsFor(c[|b|..])
  {
  }

  lemma PongsPrefix(a: seq<seq<Byte>>, b: seq<seq<Byte>>)
    requires a <= b
    ensures PongsFor(a) <= PongsFor(b)
  {
  }

  lemma RunStarts(cfg: Config, frag: Fragments, s: seq<Byte>)
    ensures Receive(cfg, frag, s, true).pongs <= Run(cfg, frag, s).pongs
  {
    hide Receive;
  }

  lemma HeaderAlone(role: Role, w: seq<Byte>)
    requires Parse(role, w).Parsed?
    ensures var h := Parse(role, w).header;
            h.headerLen <= |w| && Parse(role, w[..h.headerLen]) == Parsed(h)
  {
    hide Parse, EncodeHeader;
    EncodeParsed(role, w);
    var h := Parse(role, w).header;
    var e := w[..h.headerLen];
    ParseEncoded(role, h.fin, h.opcode, h.payloadLen, h.masked, h.key, []);
    assert e + [] == e;
    ParseEncoded(role, h.fin, h.opcode, h.payloadLen, h.masked, h.key, w[h.headerLen..]);
    assert e + w[h.headerLen..] == w;
  }

  /** A frame whose last byte has just been consumed is received as the stream means it. */
  lemma FrameDone(cfg: Config, frag: Fragments, h: Header, frame: seq<Byte>, rest: seq<Byte>, deliver: bool)
    requires Parse(cfg.role, frame) == Parsed(h) && |frame| == h.headerLen + h.payloadLen
    requires h.headerLen > 0 && Refusal(cfg, frag, h).None?
    requires h.opcode.IsControl() || h.payloadLen > 0 || rest != []
    ensures Receive(cfg, frag, frame + rest, deliver) ==
            ReceiveFrame(cfg, frag, h, Unmask(h, frame[h.headerLen..]), rest, deliver, frame + rest)
  {
    hide Parse, Refusal, Unmask, ReceiveFrame;
    VerdictIsStable(cfg.role, frame, rest);
    var body := (frame + rest)[h.headerLen..];
    assert body == frame[h.headerLen..] + rest;
    assert body[..h.payloadLen] == frame[h.headerLen..] && body[h.payloadLen..] == rest;
  }

  function Xorshift(x: bv32): bv32 {
    var a := x ^ (x << 13);
    var b := a ^ (a >> 17);
    b ^ (b << 5)
  }

  /** The generator never leaves the nonzero words, so its retry loop runs once. */
  lemma XorshiftNonzero(x: bv32)
    requires x != 0
    ensures Xorshift(x) != 0
  {
    var a := x ^ (x << 13);
    assert a != 0;
    assert a ^ (a >> 17) != 0;
  }

  /** The generator's first steps from 1: shifts by 13, 17 and 5. */
  lemma XorshiftFromOne()
    ensures Xorshift(1) == 0x0004_2021 && Xorshift(0x0004_2021) == 0x0408_0601
  {
  }

  lemma WordRange(x: bv32)
    requires x != 0
    ensures 0 < x as int < 0x1_0000_0000
  {
    assert (x as int) as bv32 == x;
  }

  function KeyOf(x: bv32): (key: nat)
    requires x != 0
    ensures 0 < key < 0x1_0000_0000
  {
    WordRange(x);
    x as int
  }

  /** The payload as it goes on the wire; a masking sender works on a copy. */
  method MaskedCopy(key: nat, payload: seq<Byte>) returns (s: seq<Byte>)
    requires key < 0x1_0000_0000
    ensures s == if key != 0 then Mask(key, 0, payload) else payload
  {
    hide Mask;
    if key == 0 { return payload; }
    var body := new Byte[|payload|](i requires 0 <= i < |payload| => payload[i]);
    assert body[0..0 + |payload|] == payload;
    ApplyMask(key, body, 0, |payload|, 0);
    return body[0..0 + |payload|];
  }

  predicate Rejects(cfg: Config, frag: Fragments, v: Verdict, e: Event) {
    match v
    case NeedMore => false
    case Refused(err) => e == Violation(err, PROTOCOL_ERROR)
    case Parsed(h) => Refusal(cfg, frag, h) == Some(e)
  }

  /** A refusal reached on a window is the stream's next event. */
  lemma RefusedStream(cfg: Config, frag: Fragments, window: seq<Byte>, more: seq<Byte>, e: Event)
    requires Rejects(cfg, frag, Parse(cfg.role, window), e)
    ensures forall d :: Receive(cfg, frag, window + more, d) == Outcome([], e, frag, window + more)
  {
    hide Parse, Refusal;
    VerdictIsStable(cfg.role, window, more);
  }

  lemma LegalFacts(role: Role, h: Header)
    requires Legal(role, h.fin, h.opcode, h.payloadLen, h.masked, h.key)
    ensures h.key < 0x1_0000_0000 && (h.opcode.IsControl() ==> h.payloadLen <= MAX_CONTROL_PAYLOAD)
  {
  }

  /** What a data frame amounts to. */
  lemma DataFrameDone(cfg: Config, frag: Fragments, h: Header, frame: seq<Byte>, rest: seq<Byte>)
    requires Parse(cfg.role, frame) == Parsed(h) && |frame| == h.headerLen + h.payloadLen
    requires h.headerLen > 0 && Refusal(cfg, frag, h).None? && !h.opcode.IsControl() && (h.payloadLen > 0 || rest != [])
    ensures var payload, s := Unmask(h, frame[h.headerLen..]), frame + rest;
            && (!h.fin ==> forall d :: Receive(cfg, frag, s, d) == Receive(cfg, Extended(frag, h, payload), rest, d))
            && (h.fin ==> Receive(cfg, frag, s, true) ==
                            Outcome([], Delivered(Completed(frag, h, payload)), Idle, rest))
            && (h.fin ==> Receive(cfg, frag, s, false) == Receive(cfg, Idle, rest, false))
  {
    hide Receive, Extended, Completed, Parse, Refusal, Unmask;
    FrameDone(cfg, frag, h, frame, rest, true);
    FrameDone(cfg, frag, h, frame, rest, false);
  }

  /** The loop goes on after a ping or a pong. */
  lemma PassedOver(cfg: Config, frag: Fragments, h: Header, payload: seq<Byte>, rest: seq<Byte>, deliver: bool,
                   s: seq<Byte>, seen: seq<seq<Byte>>)
    requires h.opcode == Ping || h.opcode == Pong
    requires |rest| < |s|
    ensures Prepend(seen, ReceiveFrame(cfg, frag, h, payload, rest, deliver, s)) ==
            Prepend(seen + if h.opcode == Ping then [payload] else [], Receive(cfg, frag, rest, deliver))
  {
    hide Receive;
    var o := Receive(cfg, frag, rest, deliver);
    assert seen + ([payload] + o.pongs) == seen + [payload] + o.pongs && seen + [] == seen;
  }

  lemma UnmaskRun(h: Header, s: seq<Byte>, t: seq<Byte>)
    ensures Unmask(h, s + t) == Unmask(h, s) + if h.masked then Mask(h.key, |s|, t) else t
    ensures Unmask(h, []) == []
  {
    MaskRuns(h.key, 0, s, t);
  }

  /** Taking a run off the window extends the frame read so far by as much payload. */
  lemma RunTaken(role: Role, h: Header, started: seq<Byte>, window: seq<Byte>, incoming: seq<Byte>, run: nat,
                 head: seq<Byte>, part: seq<Byte>, s: seq<Byte>, rest: seq<Byte>)
    requires Parse(role, started) == Parsed(h) && h.headerLen <= |started| && run <= |window|
    requires part == if h.masked then Mask(h.key, |started| - h.headerLen, window[..run]) else window[..run]
    requires s == started + window[..run] && rest == window[run..]
    ensures Parse(role, s) == Parsed(h) && s + (rest + incoming) == started + (window + incoming)
    ensures |s| == |started| + run && |rest| == |window| - run
    ensures head + Unmask(h, s[h.headerLen..]) == head + Unmask(h, started[h.headerLen..]) + part
    ensures |started| == h.headerLen ==>
              && Unmask(h, s[h.headerLen..]) == part && Unmask(h, started[h.headerLen..]) == []
              && head + Unmask(h, started[h.headerLen..]) == head
  {
    hide Parse, Mask, Unmask;
    var raw, got := window[..run], started[h.headerLen..];
    VerdictIsStable(role, started, raw);
    UnmaskRun(h, got, raw);
    DropOfConcat(started, raw, h.headerLen);
    MoveCut(started, window, run, incoming);
    Concat3(head, Unmask(h, got), part);
    if |started| == h.headerLen {
      NothingFirst(part);
      assert head + [] == head;
    }
  }

  lemma DropOfConcat<T>(a: seq<T>, b: seq<T>, n: nat)
    requires n <= |a|
    ensures (a + b)[n..] == a[n..] + b
  {
  }

  lemma MoveCut<T>(a: seq<T>, b: seq<T>, n: nat, c: seq<T>)
    requires n <= |b|
    ensures a + b[..n] + (b[n..] + c) == a + (b + c)
  {
  }

  lemma NothingFirst<T>(a: seq<T>)
    ensures [] + a == a
  {
  }

  class Session {
    const cfg: Config
    const decoder: FrameDecoder
    const inbox: HeadBuffer
    const host: Host
    // what the peer has sent or will send and recv() has not returned yet
    var incoming: seq<Byte>
    // aggregation buffer
    var msg: seq<Byte>
    // the frame being consumed
    var cur: Header
    var frameOpen: bool
    var curRemaining: nat
    var fragOpcode: Opcode
    var fragmentOpen: bool
    var state: State
    var maskSeed: bv32
    var closing: bool
    var finished: bool

    // bytes of the current frame consumed so far, as they came off the wire
    ghost var started: seq<Byte>
    // what was aggregated when the current frame began
    ghost var base: seq<Byte>
    // pings read, and frames written out in full
    ghost var pings: seq<seq<Byte>>
    ghost var sent: seq<WireFrame>
    // Close messages handed to the caller
    ghost var surfaced: nat

    /** A session over a fresh block, with the bytes read past the upgrade request already in
        the window. */
    constructor (cfg: Config, host: Host, blockSize: nat, leftover: seq<Byte>, incoming: seq<Byte>, seed: bv32)
      requires host.sock.taken == []
      requires blockSize >= MIN_BLOCK && blockSize >= |leftover|
      requires cfg.role == Client ==> seed != 0
      ensures this.cfg == cfg && this.host == host && Valid() && fresh(inbox) && fresh(inbox.data) && fresh(decoder)
      ensures Stream() == leftover + incoming && Frag() == Idle
      ensures state == Running && !finished && pings == [] && sent == []
    {
      this.cfg, this.host := cfg, host;
      decoder := new FrameDecoder(cfg.role);
      inbox := new HeadBuffer(blockSize, leftover);
      this.incoming := incoming;
      msg, frameOpen, curRemaining := [], false, 0;
      cur := Header(false, Continue, 0, false, 0, 0);
      fragOpcode, fragmentOpen := Continue, false;
      state, maskSeed := Running, seed;
      closing, finished := false, false;
      started, base, pings, sent, surfaced := [], [], [], [], 0;
    }

    /** Everything from the start of the current frame on. */
    ghost function Stream(): seq<Byte>
      requires inbox.Valid()
      reads `started, `incoming, inbox, inbox.data
    {
      started + (inbox.View() + incoming)
    }

    /** The message in progress when the current frame began. */
    ghost function Frag(): Fragments
      reads `fragmentOpen, `fragOpcode, `base
    {
      if fragmentOpen then Open(fragOpcode, base) else Idle
    }

    ghost predicate Buffered()
      reads `frameOpen, `started, `cur, `curRemaining, `msg, `fragmentOpen, `fragOpcode, `base, inbox
      reads inbox.data, decoder
      ensures Buffered() ==> inbox.Valid()
    {
      && inbox.Valid() && inbox.data.Length >= MIN_BLOCK
      && decoder.role == cfg.role
      && (fragmentOpen ==> !fragOpcode.IsControl())
      && (decoder.err.Some? ==> !frameOpen && Parse(cfg.role, inbox.View()) == Verdict.Refused(decoder.err.value))
      && (if frameOpen then FrameValid() else started == [] && (fragmentOpen ==> base == msg))
    }

    ghost predicate FrameValid()
      reads `started, `cur, `curRemaining, `msg, `fragmentOpen, `fragOpcode, `base
    {
      && Parse(cfg.role, started) == Parsed(cur)
      && 2 <= cur.headerLen <= MAX_HEADER_LEN && cur.key < 0x1_0000_0000
      && curRemaining <= cur.payloadLen
      && |started| == cur.headerLen + cur.payloadLen - curRemaining
      && Refusal(cfg, Frag(), cur).None?
      && (if cur.opcode.IsControl() then
            curRemaining == cur.payloadLen <= MAX_CONTROL_PAYLOAD && (fragmentOpen ==> base == msg)
          else
            (curRemaining > 0 || cur.payloadLen == 0) && msg == Frag().Bytes() + Unmask(cur, started[cur.headerLen..]))
    }

    ghost predicate Valid()
      reads this, inbox, inbox.data, decoder, host, host.sock
    {
      Buffered() && Handshake()
    }

    // ------------------------------------------------------------------ reading

    /** One recv() into the window: some bytes, the end of the stream, or a failure. The
        "window is never pinned" branch is unreachable. */
    method Fill() returns (f: Filled)
      requires Buffered() && |inbox.View()| < MIN_BLOCK
      modifies this`incoming, inbox, inbox.data, host`faults, host`fired
      ensures host.faults == old(host.faults) + (if f.Fault? then 1 else 0) && (old(host.fired) ==> host.fired)
      ensures Buffered() && Stream() == old(Stream())
      ensures f.Data? ==>
                |incoming| < |old(incoming)| && |incoming| + |inbox.View()| == old(|incoming| + |inbox.View()|)
      ensures !f.Data? ==> incoming == old(incoming) && inbox.View() == old(inbox.View())
      ensures f.Eof? ==> incoming == []
    {
      hide Parse, FrameValid, HeadBuffer.View;
      if inbox.w == inbox.data.Length { inbox.Compact(); }
      var got := host.Recv(|incoming|, inbox.data.Length - inbox.w);
      if got.None? { return Fault; }
      var n := got.value;
      if n == 0 { return Eof; }
      Arrives(n);
      return Data;
    }

    /** The next bytes of the wire are in the window. */
    method Arrives(n: nat)
      requires Buffered() && n <= |incoming| && n <= inbox.data.Length - inbox.w
      modifies this`incoming, inbox, inbox.data
      ensures Buffered() && Stream() == old(Stream())
      ensures |incoming| == |old(incoming)| - n && |inbox.View()| == |old(inbox.View())| + n
    {
      hide Parse, FrameValid, HeadBuffer.View;
      ghost var window, all := inbox.View(), inbox.View() + incoming;
      ghost var more := incoming[..n];
      inbox.Commit(incoming[..n]);
      incoming := incoming[n..];
      assert inbox.View() + incoming == window + (more + incoming) == all;
      if decoder.err.Some? { VerdictIsStable(cfg.role, window, more); }
    }

    /** Parse the header at the front of the window and apply the rules between frames. */
    method ParseHeader() returns (p: HeaderStep)
      requires Buffered() && !frameOpen
      modifies this`msg, this`cur, this`frameOpen, this`curRemaining, this`started, decoder`err, inbox`r
      ensures Buffered() && Stream() == old(Stream()) && Frag() == old(Frag()) && frameOpen == p.Ready?
      ensures p.More? ==> Parse(cfg.role, inbox.View()) == NeedMore && inbox.View() == old(inbox.View())
      ensures p.Ready? ==> |inbox.View()| < |old(inbox.View())|
      ensures p.Bad? ==> p.event.Violation? && CloseCodeValid(p.event.code)
      ensures p.Bad? ==> forall d :: Receive(cfg, Frag(), Stream(), d) == Outcome([], p.event, Frag(), Stream())
    {
      hide Parse, Refusal, Unmask, Receive;
      var window := inbox.View();
      var v := decoder.ParseWindow(window);
      assert Stream() == window + incoming;
      match v {
        case NeedMore => return More;
        case Refused(e) =>
          RefusedStream(cfg, Frag(), window, incoming, Violation(e, PROTOCOL_ERROR));
          return Bad(Violation(e, PROTOCOL_ERROR));
        case Parsed(h) =>
          var no := Check(h);
          if no.Some? {
            RefusedStream(cfg, Frag(), window, incoming, no.value);
            return Bad(no.value);
          }
          EncodeParsed(cfg.role, window);
          OpenFrame(h);
          return Ready;
      }
    }

    method OpenFrame(h: Header)
      requires Buffered() && !frameOpen && Parse(cfg.role, inbox.View()) == Parsed(h)
      requires Refusal(cfg, Frag(), h).None? && Legal(cfg.role, h.fin, h.opcode, h.payloadLen, h.masked, h.key)
      requires 2 <= h.headerLen <= |inbox.View()| && h.headerLen <= MAX_HEADER_LEN
      requires h.opcode.IsData() ==> !fragmentOpen
      requires h.opcode == Continue ==> fragmentOpen
      modifies this`msg, this`cur, this`frameOpen, this`curRemaining, this`started, inbox`r
      ensures Buffered() && Stream() == old(Stream()) && Frag() == old(Frag()) && frameOpen
      ensures |inbox.View()| < |old(inbox.View())|
    {
      hide Parse, Unmask, Refusal, Legal, Mask, HeadBuffer.Valid;
      LegalFacts(cfg.role, h);
      HeaderAlone(cfg.role, inbox.View());
      UnmaskRun(h, [], []);
      SkipHeader(h.headerLen);
      if h.opcode.IsData() { msg := []; }
      cur, curRemaining, frameOpen := h, h.payloadLen, true;
      assert started[h.headerLen..] == [];
      assert Frag().Bytes() + [] == Frag().Bytes();
    }

    method SkipHeader(n: nat)
      requires inbox.Valid() && n <= |inbox.View()| && started == []
      modifies this`started, inbox`r
      ensures inbox.Valid() && inbox.View() == old(inbox.View())[n..] && started == old(inbox.View())[..n]
      ensures Stream() == old(Stream())
    {
      started := inbox.View()[..n];
      MoveCut([], inbox.View(), n, incoming);
      inbox.Consume(n);
    }

    method Check(h: Header) returns (no: Option<Event>)
      requires fragmentOpen ==> base == msg
      ensures no == Refusal(cfg, Frag(), h)
      ensures no.Some? ==> no.value.Violation? && CloseCodeValid(no.value.code)
      ensures no.None? && h.opcode.IsData() ==> !fragmentOpen
      ensures no.None? && h.opcode == Continue ==> fragmentOpen
    {
      if h.opcode.IsData() {
        if fragmentOpen { return Some(Violation(ContinuationExpected, PROTOCOL_ERROR)); }
        if h.payloadLen > cfg.maxMessage { return Some(Violation(MessageTooLarge, MESSAGE_TOO_BIG)); }
      } else if h.opcode == Continue {
        if !fragmentOpen { return Some(Violation(ContinuationUnexpected, PROTOCOL_ERROR)); }
        if |msg| + h.payloadLen > cfg.maxMessage { return Some(Violation(MessageTooLarge, MESSAGE_TOO_BIG)); }
      }
      return None;
    }

    /** A control payload is taken whole, once it is all there. */
    method TakeControl() returns (payload: seq<Byte>)
      requires Buffered() && frameOpen && cur.opcode.IsControl() && curRemaining <= |inbox.View()|
      modifies `curRemaining, `frameOpen, `started, inbox`r, inbox.data
      ensures Buffered() && !frameOpen && Frag() == old(Frag()) && |payload| <= MAX_CONTROL_PAYLOAD
      ensures |inbox.View()| <= |old(inbox.View())|
      ensures |Stream()| < |old(Stream())|
      ensures forall d :: Receive(cfg, Frag(), old(Stream()), d) ==
                ReceiveFrame(cfg, Frag(), cur, payload, Stream(), d, old(Stream()))
    {
      hide Parse, Refusal, Receive, ReceiveFrame, Mask;
      ghost var window, frame := inbox.View(), started + inbox.View()[..curRemaining];
      payload := inbox.Take(curRemaining, cur.masked, cur.key, cur.payloadLen - curRemaining);
      MoveCut(started, window, curRemaining, incoming);
      assert frame[cur.headerLen..] == window[..curRemaining];
      VerdictIsStable(cfg.role, started, window[..curRemaining]);
      forall d | true ensures Receive(cfg, Frag(), old(Stream()), d) ==
        ReceiveFrame(cfg, Frag(), cur, payload, window[curRemaining..] + incoming, d, old(Stream()))
      {
        FrameDone(cfg, Frag(), cur, frame, window[curRemaining..] + incoming, d);
      }
      started, curRemaining, frameOpen := [], 0, false;
      assert Stream() == window[cur.payloadLen..] + incoming;
    }

    /** The last byte of the current data frame has been read; `part` is the run that held it. */
    ghost predicate FrameRead(part: seq<Byte>, direct: bool)
      requires inbox.Valid()
      reads this, inbox, inbox.data
    {
      && frameOpen && curRemaining == 0 && !cur.opcode.IsControl()
      && (fragmentOpen ==> !fragOpcode.IsControl())
      && Parse(cfg.role, started) == Parsed(cur) && Refusal(cfg, Frag(), cur).None?
      && 2 <= cur.headerLen && |started| == cur.headerLen + cur.payloadLen
      && (cur.payloadLen == 0 ==> inbox.View() + incoming != [])
      && (if direct then !fragmentOpen && msg == [] && part == Unmask(cur, started[cur.headerLen..])
          else msg == Frag().Bytes() + Unmask(cur, started[cur.headerLen..]))
    }

    /** Data is taken in runs: whatever of the frame is buffered, unmasked in place. A whole
        payload in one run, outside a fragmented message, skips the aggregation buffer. */
    method TakeRun() returns (ok: bool, part: seq<Byte>, direct: bool)
      requires Buffered() && frameOpen && !cur.opcode.IsControl() && |inbox.View()| > 0
      modifies `curRemaining, `started, `msg, inbox`r, inbox.data, host`shortages
      ensures host.shortages == old(host.shortages) + if ok then 0 else 1
      ensures ok ==> inbox.Valid() && Stream() == old(Stream())
      ensures ok && curRemaining > 0 ==> Buffered() && |inbox.View()| < |old(inbox.View())|
      ensures ok && curRemaining == 0 ==> FrameRead(part, direct) && |inbox.View()| <= |old(inbox.View())|
    {
      hide Buffered, FrameRead, HeadBuffer.View, HeadBuffer.Valid;
      ReadSoFar();
      var run := if |inbox.View()| < curRemaining then |inbox.View()| else curRemaining;
      direct := !fragmentOpen && run == cur.payloadLen;
      ok := true;
      if direct { part := TakeWhole(run); } else { ok, part := TakePart(run); }
    }

    lemma ReadSoFar()
      requires Buffered() && frameOpen
      ensures inbox.Valid() && curRemaining <= cur.payloadLen
    {
    }

    method TakeWhole(run: nat) returns (part: seq<Byte>)
      requires Buffered() && frameOpen && !cur.opcode.IsControl() && !fragmentOpen
      requires run == cur.payloadLen <= curRemaining && run <= |inbox.View()| && |inbox.View()| > 0
      modifies `curRemaining, `started, inbox`r, inbox.data
      ensures inbox.Valid() && Stream() == old(Stream()) && curRemaining == 0
      ensures FrameRead(part, true) && |inbox.View()| <= |old(inbox.View())|
    {
      hide Parse, Refusal, Unmask, Mask, Opcode.IsControl, HeadBuffer.View, HeadBuffer.Valid;
      part := Unload(run);
      curRemaining := curRemaining - run;
    }

    method TakePart(run: nat) returns (ok: bool, part: seq<Byte>)
      requires Buffered() && frameOpen && !cur.opcode.IsControl() && |inbox.View()| > 0
      requires run == if |inbox.View()| < curRemaining then |inbox.View()| else curRemaining
      modifies `curRemaining, `started, `msg, inbox`r, inbox.data, host`shortages
      ensures host.shortages == old(host.shortages) + if ok then 0 else 1
      ensures ok ==> inbox.Valid() && Stream() == old(Stream())
      ensures ok && curRemaining > 0 ==> Buffered() && |inbox.View()| < |old(inbox.View())|
      ensures ok && curRemaining == 0 ==> FrameRead(part, false) && |inbox.View()| <= |old(inbox.View())|
    {
      hide Parse, Refusal, Unmask, Mask, Opcode.IsControl, HeadBuffer.View, HeadBuffer.Valid;
      part := Unload(run);
      ok := Aggregate(part);
      if ok { curRemaining := curRemaining - run; }
    }

    /** The aggregation buffer takes the run, if it can grow. */
    method Aggregate(part: seq<Byte>) returns (ok: bool)
      modifies `msg, host`shortages
      ensures host.shortages == old(host.shortages) + if ok then 0 else 1
      ensures msg == if ok then old(msg) + part else old(msg)
    {
      ok := host.Grow();
      if ok { msg := msg + part; }
    }

    /** The next `run` bytes of the frame leave the buffer and are unmasked as the payload's next. */
    method Unload(run: nat) returns (part: seq<Byte>)
      requires Buffered() && frameOpen && !cur.opcode.IsControl() && run <= |inbox.View()| && run <= curRemaining
      modifies `started, inbox`r, inbox.data
      ensures inbox.Valid() && |inbox.View()| == |old(inbox.View())| - run
      ensures Stream() == old(Stream()) && |started| == |old(started)| + run
      ensures Parse(cfg.role, started) == Parsed(cur)
      ensures Frag().Bytes() + Unmask(cur, started[cur.headerLen..]) == msg + part
      ensures run == cur.payloadLen ==> Unmask(cur, started[cur.headerLen..]) == part && msg == Frag().Bytes()
    {
      hide Buffered, Parse, Unmask, Mask, Frag, HeadBuffer.View;
      MidFrame();
      ghost var window := inbox.View();
      part := inbox.Take(run, cur.masked, cur.key, cur.payloadLen - curRemaining);
      ghost var s := started + window[..run];
      RunTaken(cfg.role, cur, started, window, incoming, run, Frag().Bytes(), part, s, inbox.View());
      started := s;
    }

    lemma MidFrame()
      requires Buffered() && frameOpen && !cur.opcode.IsControl()
      ensures Parse(cfg.role, started) == Parsed(cur) && cur.headerLen <= |started| && cur.key < 0x1_0000_0000
      ensures |started| - cur.headerLen == cur.payloadLen - curRemaining && curRemaining <= cur.payloadLen
      ensures msg == Frag().Bytes() + Unmask(cur, started[cur.headerLen..])
    {
      hide Parse, Unmask, Refusal;
    }

    /** What a fully read data frame amounts to. */
    method FinishFrame(part: seq<Byte>, direct: bool) returns (step: RunStep)
      requires inbox.Valid() && inbox.data.Length >= MIN_BLOCK && decoder.role == cfg.role && decoder.err.None?
      requires FrameRead(part, direct)
      modifies `frameOpen, `started, `msg, `base, `fragmentOpen, `fragOpcode, host`shortages
      ensures host.shortages == old(host.shortages) + if step.Unallocated? then 1 else 0
      ensures !step.Unallocated? ==> Buffered() && !frameOpen && |Stream()| < |old(Stream())|
      ensures step.Fragment? ==>
                forall d :: Receive(cfg, old(Frag()), old(Stream()), d) == Receive(cfg, Frag(), Stream(), d)
      ensures step.Whole? ==> step.message.opcode != Close && Frag() == Idle
      ensures step.Whole? ==>
                Receive(cfg, old(Frag()), old(Stream()), true) == Outcome([], Delivered(step.message), Idle, Stream())
      ensures step.Whole? ==> Receive(cfg, old(Frag()), old(Stream()), false) == Receive(cfg, Idle, Stream(), false)
    {
      hide Parse, Refusal, Receive, Unmask;
      ghost var frag, payload, rest := Frag(), Unmask(cur, started[cur.headerLen..]), inbox.View() + incoming;
      DataFrameDone(cfg, frag, cur, started, rest);
      started, frameOpen := [], false;
      assert Stream() == rest;
      var op := if fragmentOpen then fragOpcode else cur.opcode;
      var m := Message(op, if direct then part else msg);
      assert [] + payload == payload;
      if !direct { fragmentOpen := false; }
      if !cur.fin {
        if !fragmentOpen { fragmentOpen, fragOpcode := true, cur.opcode; }
        if direct {
          var ok := Aggregate(part);
          if !ok { return Unallocated; }
        }
        base := msg;
        return Fragment;
      }
      return Whole(m);
    }

    // ------------------------------------------------------------------ writing

    /** The next masking key: one xorshift step, never zero. */
    method NextMaskKey() returns (key: nat)
      requires maskSeed != 0
      modifies `maskSeed
      ensures 0 < key < 0x1_0000_0000 && maskSeed == Xorshift(old(maskSeed)) && maskSeed != 0 && key == KeyOf(maskSeed)
    {
      hide Xorshift, KeyOf;
      var seed := maskSeed;
      var x, again := seed, true;
      while again
        invariant x != 0 && x == if again then seed else Xorshift(seed)
        decreases again
      {
        XorshiftNonzero(x);
        x := Xorshift(x);
        again := x == 0;
      }
      maskSeed := x;
      return KeyOf(x);
    }

    /** Every frame sent is one the peer accepts, and while no write has failed, the wire holds the
        frames sent and nothing else. */
    ghost predicate OnWire()
      reads `sent, host`torn, host.sock`taken
    {
      && (forall i :: 0 <= i < |sent| ==> Acceptable(PeerOf(cfg.role), sent[i]))
      && (!host.torn ==> host.sock.taken == Encode(PeerOf(cfg.role), sent))
    }

    /** One frame on the wire: its bytes are what the peer decodes as that frame, and it is logged
        exactly if the gather write goes through. A masked data payload needs a block for its copy. */
    method WriteFrame(op: Opcode, payload: seq<Byte>) returns (ok: bool, bytes: seq<Byte>)
      requires (cfg.role == Client ==> maskSeed != 0) && OnWire()
      requires Polite(sent) && (op.IsData() || op == Close ==> NoClose(sent)) && op != Continue
      requires op == Close ==> ClosePayloadValid(payload)
      requires |payload| < 0x8000_0000_0000_0000 && (op.IsControl() ==> |payload| <= MAX_CONTROL_PAYLOAD)
      modifies `maskSeed, `sent, host`faults, host`torn, host`fired, host`shortages, host.sock
      ensures (cfg.role == Client ==> maskSeed != 0) && OnWire() && (old(host.fired) ==> host.fired)
      ensures ok ==> host.faults == old(host.faults) && host.shortages == old(host.shortages)
      ensures !ok ==> host.faults + host.shortages == old(host.faults) + old(host.shortages) + 1
      ensures host.faults >= old(host.faults) && host.shortages >= old(host.shortages)
      ensures op.IsControl() || cfg.role == Server || payload == [] ==> host.shortages == old(host.shortages)
      ensures Polite(sent) && (op != Close && NoClose(old(sent)) ==> NoClose(sent))
      ensures !ok ==> sent == old(sent)
      ensures ok ==> |sent| == |old(sent)| + 1 && sent[..|sent| - 1] == old(sent)
      ensures ok ==> var f := sent[|sent| - 1];
                f.opcode == op && f.fin && f.payload == payload && LegalFrame(PeerOf(cfg.role), f) &&
                bytes == EncodeFrame(PeerOf(cfg.role), f) && host.sock.taken == old(host.sock.taken) + bytes
      ensures host.shortages == old(host.shortages) ==>
                |bytes| >= |payload| && forall i :: 0 <= i < |payload| ==>
                  Carries(bytes, |bytes| - |payload|, cfg.role == Client, i, payload[i])
    {
      hide EncodeHeader, EncodeFrame, Carries, OnWire, Polite, NoClose;
      var key := 0;
      if cfg.role == Client { key := NextMaskKey(); }
      var hdr := new Byte[MAX_HEADER_LEN](i => 0);
      var off := WriteFrameHeader(hdr, true, op, |payload|, key);
      if cfg.role == Client && op.IsData() && payload != [] {
        ok := host.Grow();
        if !ok { return false, []; }
      }
      PoliteMore(sent, WireFrame(true, op, key, payload));
      ok, bytes := Put(hdr[..off], WireFrame(true, op, key, payload));
    }

    /** Header and payload go out together. */
    method Put(head: seq<Byte>, f: WireFrame) returns (ok: bool, bytes: seq<Byte>)
      requires OnWire() && Acceptable(PeerOf(cfg.role), f)
      requires head == EncodeHeader(f.fin, f.opcode, |f.payload|, cfg.role == Client, f.key)
      requires f.key != 0 <==> cfg.role == Client
      modifies `sent, host`faults, host`torn, host`fired, host.sock
      ensures OnWire() && (old(host.fired) ==> host.fired) && host.faults == old(host.faults) + if ok then 0 else 1
      ensures bytes == EncodeFrame(PeerOf(cfg.role), f) && |bytes| >= |f.payload|
      ensures sent == if ok then old(sent) + [f] else old(sent)
      ensures ok ==> host.sock.taken == old(host.sock.taken) + bytes
      ensures forall i :: 0 <= i < |f.payload| ==>
                Carries(bytes, |bytes| - |f.payload|, cfg.role == Client, i, f.payload[i])
    {
      hide Mask, EncodeHeader, Carries, Encode;
      var body := MaskedCopy(f.key, f.payload);
      bytes := head + body;
      assert bytes == EncodeFrame(PeerOf(cfg.role), f);
      forall i | 0 <= i < |f.payload|
        ensures Carries(bytes, |bytes| - |f.payload|, cfg.role == Client, i, f.payload[i])
      {
        SentByte(PeerOf(cfg.role), f, i);
      }
      ok := host.Send(head, body);
      if ok {
        EncodeMore(PeerOf(cfg.role), sent, f);
        sent := sent + [f];
      }
    }

    method SendControl(op: Opcode, payload: seq<Byte>) returns (ok: bool)
      requires op.IsControl() && Handshake() && (op == Close ==> NoClose(sent))
      requires op == Close ==> |payload| <= MAX_CONTROL_PAYLOAD && ClosePayloadValid(payload)
      modifies `maskSeed, `sent, host`faults, host`torn, host`fired, host`shortages, host.sock
      ensures (cfg.role == Client ==> maskSeed != 0) && OnWire() && (old(host.fired) ==> host.fired)
      ensures host.faults == old(host.faults) + (if ok then 0 else 1) && host.shortages == old(host.shortages)
      ensures Polite(sent) && (op != Close && NoClose(old(sent)) ==> NoClose(sent))
      ensures !ok ==> sent == old(sent)
      ensures ok ==>
                Logged(old(sent), op,
                       if |payload| <= MAX_CONTROL_PAYLOAD then payload else payload[..MAX_CONTROL_PAYLOAD])
    {
      hide OnWire;
      var p := if |payload| <= MAX_CONTROL_PAYLOAD then payload else payload[..MAX_CONTROL_PAYLOAD];
      var bytes;
      ok, bytes := WriteFrame(op, p);
    }

    /** One more frame than before went out, and this is it. */
    ghost predicate Logged(before: seq<WireFrame>, op: Opcode, payload: seq<Byte>)
      reads `sent
    {
      && |sent| == |before| + 1 && sent[..|before|] == before
      && sent[|before|].opcode == op && sent[|before|].fin && sent[|before|].payload == payload
    }

    ghost predicate Handshake()
      reads `sent, `state, `maskSeed, `surfaced, host`torn, host.sock`taken
    {
      && (cfg.role == Client ==> maskSeed != 0) && OnWire()
      && Polite(sent)
      && (state == Running ==> NoClose(sent))
      && (surfaced == 0 || (surfaced == 1 && state == CloseReceived))
    }

    method Send(payload: seq<Byte>, op: Opcode) returns (r: Result)
      requires Handshake() && |payload| < 0x8000_0000_0000_0000
      modifies `maskSeed, `sent, host`faults, host`torn, host`fired, host`shortages, host.sock
      ensures Handshake() && (old(host.fired) ==> host.fired)
      ensures !op.IsData() ==> r == Failed(InvalidOpcode)
      ensures op.IsData() && state != Running ==> r == Failed(Closed)
      ensures op.IsData() && state == Running ==> !r.Failed? && !r.PeerGone?
      ensures if r.Got? then r == Got(Message(op, payload)) && Logged(old(sent), op, payload) else sent == old(sent)
      ensures host.faults == old(host.faults) + if r.IoError? then 1 else 0
      ensures host.shortages == old(host.shortages) + if r.NoMemory? then 1 else 0
    {
      hide OnWire;
      if !op.IsData() { return Failed(InvalidOpcode); }
      if state != Running { return Failed(Closed); }
      var before := host.shortages;
      var ok, bytes := WriteFrame(op, payload);
      if !ok { return if host.shortages > before then NoMemory else IoError; }
      return Got(Message(op, payload));
    }

    method SendPing(payload: seq<Byte>) returns (r: Result)
      requires Handshake()
      modifies `maskSeed, `sent, host`faults, host`torn, host`fired, host`shortages, host.sock
      ensures Handshake() && (old(host.fired) ==> host.fired)
      ensures state != Running ==> r == Failed(Closed)
      ensures state == Running ==> r.Got? || r.IoError?
      ensures if state == Running && !r.IoError?
              then Logged(old(sent), Ping,
                          if |payload| <= MAX_CONTROL_PAYLOAD then payload else payload[..MAX_CONTROL_PAYLOAD])
              else sent == old(sent)
      ensures host.faults == old(host.faults) + (if r.IoError? then 1 else 0) && host.shortages == old(host.shortages)
    {
      hide OnWire;
      if state != Running { return Failed(Closed); }
      var ok := SendControl(Ping, payload);
      if !ok { return IoError; }
      return Got(Message(Ping, payload));
    }

    /** Begin the closing handshake; a no-op once it has begun. */
    method BeginClose(code: nat, reason: seq<Byte>) returns (r: Option<Result>)
      requires Handshake() && code < 0x1_0000
      modifies `maskSeed, `sent, `state, host`faults, host`torn, host`fired, host`shortages, host.sock
      ensures Handshake() && state.Rank() >= old(state).Rank() && (old(host.fired) ==> host.fired)
      ensures state == CloseReceived <==> old(state) == CloseReceived
      ensures old(state) != Running ==> r.None? && state == old(state) && sent == old(sent)
      ensures old(state) == Running ==> (r.None? <==> state == CloseSent)
      ensures old(state) == Running ==>
                (state == CloseSent <==> CloseCodeValid(code) && host.faults == old(host.faults))
      ensures host.faults == old(host.faults) + (if r == Some(IoError) then 1 else 0)
      ensures host.shortages == old(host.shortages)
      ensures r == Some(IoError) ==> old(state) == Running && CloseCodeValid(code)
      ensures state == old(state) ==> sent == old(sent)
      ensures state != old(state) ==> CloseCodeValid(code) && Logged(old(sent), Close,
                CloseBody(code) +
                if |reason| <= MAX_CONTROL_PAYLOAD - 2 then reason else reason[..MAX_CONTROL_PAYLOAD - 2])
    {
      hide OnWire;
      if state != Running { return None; }
      if !CloseCodeValid(code) { return Some(Failed(InvalidCloseCode)); }
      var text := if |reason| <= MAX_CONTROL_PAYLOAD - 2 then reason else reason[..MAX_CONTROL_PAYLOAD - 2];
      var ok := SendControl(Close, CloseBody(code) + text);
      if !ok { return Some(IoError); }
      state := CloseSent;
      return None;
    }

    /** Answer a protocol violation with its close code, unless closing has begun or the read
        deadline has fired. */
    method FailProtocol(e: Error, code: nat) returns (r: Result)
      requires Handshake() && code < 0x1_0000
      modifies `maskSeed, `sent, `state, host`faults, host`torn, host`fired, host`shortages, host.sock
      ensures Handshake() && state.Rank() >= old(state).Rank() && r == Failed(e) && (old(host.fired) ==> host.fired)
      ensures state == CloseReceived <==> old(state) == CloseReceived
      ensures state != old(state) <==>
                old(state) == Running && !old(host.fired) && CloseCodeValid(code) && host.faults == old(host.faults)
      ensures state != old(state) ==> state == CloseSent
      ensures host.faults == old(host.faults) || host.faults == old(host.faults) + 1
      ensures host.shortages == old(host.shortages)
      ensures state == old(state) ==> sent == old(sent)
      ensures state != old(state) ==> Logged(old(sent), Close, CloseBody(code))
    {
      hide OnWire;
      if state == Running && !host.fired {
        assert CloseBody(code) + [] == CloseBody(code);
        var ignored := BeginClose(code, []);
      }
      return Failed(e);
    }

    /** Pings are echoed, pongs dropped; a Close is checked, echoed if we had not closed yet,
        and handed over. */
    method HandleControl(op: Opcode, payload: seq<Byte>) returns (r: Option<Result>)
      requires Handshake() && op.IsControl() && |payload| <= MAX_CONTROL_PAYLOAD && state != CloseReceived
      modifies `maskSeed, `sent, `state, `pings, host`faults, host`torn, host`fired, host`shortages, host.sock
      ensures Handshake() && state.Rank() >= old(state).Rank() && old(sent) <= sent
      ensures host.shortages == old(host.shortages) && (old(host.fired) ==> host.fired)
      ensures r.None? || !r.value.Failed? ==> host.faults == old(host.faults) + if r == Some(IoError) then 1 else 0
      ensures r.Some? && r.value.Failed? ==>
                && (host.faults == old(host.faults) || host.faults == old(host.faults) + 1)
                && (state != old(state) <==>
                      old(state) == Running && !old(host.fired) && host.faults == old(host.faults))
                && (state != old(state) ==> state == CloseSent)
      ensures pings == old(pings) + if op == Ping then [payload] else []
      ensures op != Close ==> state == old(state)
      ensures op == Ping ==>
                if r.None? then Logged(old(sent), Pong, payload) else r == Some(IoError) && sent == old(sent)
      ensures op == Pong ==> r.None? && sent == old(sent)
      ensures op == Close && !ClosePayloadValid(payload) ==>
                && r == Some(Failed(InvalidCloseCode)) && state != CloseReceived
                && if state == old(state) then sent == old(sent)
                   else Logged(old(sent), Close, CloseBody(PROTOCOL_ERROR))
      ensures op == Close && ClosePayloadValid(payload) ==>
                && state == CloseReceived && (r == Some(Got(Message(Close, payload))) || r == Some(IoError))
                && if old(state) == Running && r.value.Got? then Logged(old(sent), Close, payload)
                   else sent == old(sent)
      ensures op == Close && r == Some(IoError) ==> old(state) == Running
    {
      hide OnWire;
      match op {
        case Ping =>
          pings := pings + [payload];
          var ok := SendControl(Pong, payload);
          if !ok { return Some(IoError); }
          return None;
        case Pong =>
          return None;
        case Close =>
          if |payload| == 1 || (|payload| >= 2 && !CloseCodeValid(256 * (payload[0] as int) + payload[1])) {
            var e := FailProtocol(InvalidCloseCode, PROTOCOL_ERROR);
            return Some(e);
          }
          var echo := state == Running;
          state := CloseReceived;
          if echo {
            var ok := SendControl(Close, payload);
            if !ok { return Some(IoError); }
          }
          return Some(Got(Message(Close, payload)));
      }
    }

    // ---------------------------------------------------------------- receiving

    ghost function Now(): Mark
      reads `pings, `sent, `state, host
    {
      Mark(pings, sent, state, host.faults, host.shortages, host.fired)
    }

    /** What has gone wrong since. */
    ghost predicate Luck(at: Mark, faults: nat, shortages: nat)
      reads host
    {
      host.faults == at.faults + faults && host.shortages == at.shortages + shortages && (at.fired ==> host.fired)
    }

    /** A violation is told if and only if there was still a Close to send, the deadline had not
        fired, and the write went through. */
    ghost predicate Tells(at: Mark)
      reads `state, host
    {
      && (Luck(at, 0, 0) || Luck(at, 1, 0))
      && (state != at.state ==> at.state == Running && state == CloseSent && !at.fired && Luck(at, 0, 0))
      && (at.state == Running && !host.fired && Luck(at, 0, 0) ==> state != at.state)
    }

    /** Since `at` every ping read has been answered, in order, and `more` has been sent after
        that; nothing else went out. */
    ghost predicate Wrote(at: Mark, more: seq<Reply>)
      reads `pings, `sent
    {
      && at.sent <= sent && at.pings <= pings
      && Replies(sent[|at.sent|..]) == PongsFor(pings[|at.pings|..]) + more
    }

    /** The same, but for the Pong to the last ping, which could not be sent. */
    ghost predicate Unanswered(at: Mark)
      reads `pings, `sent
    {
      && at.sent <= sent && at.pings < pings
      && Replies(sent[|at.sent|..]) == PongsFor(pings[|at.pings|..|pings| - 1])
    }

    /** The outcome promised at the start is this event, reached here. */
    ghost predicate Reached(o: Outcome, at: Mark, e: Event)
      requires inbox.Valid()
      reads this, inbox, inbox.data
    {
      at.pings <= pings && o == Outcome(pings[|at.pings|..], e, Frag(), Stream())
    }

    /** It is reached, and it has been answered. */
    ghost predicate Settles(o: Outcome, at: Mark, e: Event)
      requires inbox.Valid()
      reads this, inbox, inbox.data
    {
      Reached(o, at, e) && Wrote(at, Farewell(e, at.state, state))
    }

    /** The outcome promised at the start is still ahead. */
    ghost predicate Ahead(o: Outcome, at: Mark, deliver: bool)
      requires inbox.Valid()
      reads this, inbox, inbox.data
    {
      at.pings <= pings && o == Prepend(pings[|at.pings|..], Receive(cfg, Frag(), Stream(), deliver))
    }

    /** The transport failed: in a read, at the Pong to the last ping, or at the echo of a Close. */
    ghost predicate Failing(o: Outcome, at: Mark, deliver: bool)
      requires inbox.Valid()
      reads this, inbox, inbox.data, host
    {
      && Luck(at, 1, 0)
      && (|| (state == at.state && Ahead(o, at, deliver) && (Wrote(at, []) || Unanswered(at)))
          || (at.state == Running && state == CloseReceived && o.event.CloseArrived? && Reached(o, at, o.event)
              && Wrote(at, [])))
    }

    ghost predicate StepDone(o: Outcome, at: Mark, deliver: bool, r: Result)
      requires inbox.Valid()
      reads this, inbox, inbox.data, host
    {
      match r
      case Got(m) =>
        && Luck(at, 0, 0)
        && if state == CloseReceived then m.opcode == Close && Settles(o, at, CloseArrived(m.payload))
           else state == at.state && deliver && m.opcode != Close && Settles(o, at, Delivered(m))
      case Failed(e) => o.event.Violation? && o.event.error == e && Settles(o, at, o.event) && Tells(at)
      case PeerGone => Luck(at, 0, 0) && state == at.state && Settles(o, at, Starved)
      case IoError => Failing(o, at, deliver)
      case NoMemory => false
    }

    /** Bytes moved on, or a frame was left behind. */
    ghost predicate Below(unread: nat, pending: nat, open: bool)
      requires inbox.Valid()
      reads `incoming, `frameOpen, inbox, inbox.data
    {
      var u := |incoming| + |inbox.View()|;
      u < unread || (u == unread && (|incoming| < pending || (|incoming| == pending && open && !frameOpen)))
    }

    /** What holds after a turn of the loop that began with `o` ahead. */
    ghost predicate Turned(o: Outcome, at: Mark, deliver: bool, done: Option<Result>)
      reads this, inbox, inbox.data, decoder, host, host.sock
    {
      && Handshake()
      && match done
         case None =>
           Valid() && state == at.state != CloseReceived && Ahead(o, at, deliver) && Wrote(at, []) && Luck(at, 0, 0)
         case Some(NoMemory) => OutOfMemory(o, at)
         case Some(r) => Valid() && StepDone(o, at, deliver, r) &&
                         (r.Got? ==> (state == CloseReceived <==> r.message.opcode == Close))
    }

    /** What holds even then: the pings read are the stream's, and they are answered. */
    ghost predicate OutOfMemory(o: Outcome, at: Mark)
      reads `pings, `sent, `state, host
    {
      at.pings <= pings && pings[|at.pings|..] <= o.pongs && Wrote(at, []) && state == at.state && Luck(at, 0, 1)
    }

    ghost predicate Steady(n: nat, done: bool, wrote: seq<WireFrame>)
      reads `surfaced, `finished, `sent
    {
      surfaced == n && finished == done && wrote <= sent
    }

    /** Wait for more bytes, where the stream would end here if there were none. */
    method Await(deliver: bool, ghost o: Outcome, ghost at: Mark) returns (done: Option<Result>)
      requires Turned(o, at, deliver, None) && |inbox.View()| < MIN_BLOCK
      requires incoming == [] ==> Receive(cfg, Frag(), Stream(), deliver) == Outcome([], Starved, Frag(), Stream())
      modifies this, inbox, inbox.data, decoder, host`faults, host`torn, host`fired, host`shortages, host.sock
      ensures state == old(state) && Turned(o, at, deliver, done) && Steady(old(surfaced), old(finished), old(sent))
      ensures done.None? ==> Below(old(|incoming| + |inbox.View()|), old(|incoming|), old(frameOpen))
    {
      hide Buffered, Receive, Handshake;
      var f := Fill();
      match f {
        case Data => return None;
        case Fault => return Some(IoError);
        case Eof =>
          assert pings[|at.pings|..] + [] == pings[|at.pings|..];
          return Some(PeerGone);
      }
    }

    /** One event. Whatever sizes the reads come in, it is the event the whole stream holds
        next, and what is left is the rest of that stream; a failed read loses nothing. */
    method Step(deliver: bool) returns (r: Result)
      requires Valid() && state != CloseReceived
      modifies this, inbox, inbox.data, decoder, host`faults, host`torn, host`fired, host`shortages, host.sock
      ensures Handshake() && state.Rank() >= old(state).Rank() && Steady(old(surfaced), old(finished), old(sent))
      ensures !r.NoMemory? ==> Valid()
      ensures r.NoMemory? ==> OutOfMemory(Receive(cfg, old(Frag()), old(Stream()), deliver), old(Now()))
      ensures r.NoMemory? || StepDone(Receive(cfg, old(Frag()), old(Stream()), deliver), old(Now()), deliver, r)
      ensures r.Got? ==> (state == CloseReceived <==> r.message.opcode == Close)
    {
      hide Buffered, Receive, Handshake;
      ghost var o, at := Receive(cfg, Frag(), Stream(), deliver), Now();
      assert Ahead(o, at, deliver) by { assert pings[|at.pings|..] == [] && [] + o.pongs == o.pongs; }
      assert Wrote(at, []);
      while true
        invariant Turned(o, at, deliver, None) && state.Rank() >= old(state).Rank()
        invariant Steady(old(surfaced), old(finished), old(sent))
        decreases |incoming| + |inbox.View()|, |incoming|, if frameOpen then 1 else 0
      {
        var done := Turn(deliver, o, at);
        if done.Some? { return done.value; }
      }
    }

    method Turn(deliver: bool, ghost o: Outcome, ghost at: Mark) returns (done: Option<Result>)
      requires Turned(o, at, deliver, None)
      modifies this, inbox, inbox.data, decoder, host`faults, host`torn, host`fired, host`shortages, host.sock
      ensures Turned(o, at, deliver, done) && state.Rank() >= old(state).Rank()
      ensures Steady(old(surfaced), old(finished), old(sent))
      ensures done.None? ==> Below(old(|incoming| + |inbox.View()|), old(|incoming|), old(frameOpen))
    {
      hide Buffered, Receive, Handshake, Parse;
      if !frameOpen {
        var p := ParseHeader();
        match p {
          case Bad(e) =>
            done := Refuse(deliver, o, at, e);
            return;
          case More =>
            HeaderIncomplete(deliver);
            done := Await(deliver, o, at);
            return;
          case Ready =>
        }
      }
      if cur.opcode.IsControl() {
        done := TurnControl(deliver, o, at);
      } else {
        done := TurnData(deliver, o, at);
      }
    }

    method Refuse(deliver: bool, ghost o: Outcome, ghost at: Mark, e: Event) returns (done: Option<Result>)
      requires Turned(o, at, deliver, None) && e.Violation? && CloseCodeValid(e.code)
      requires Receive(cfg, Frag(), Stream(), deliver) == Outcome([], e, Frag(), Stream())
      modifies `maskSeed, `sent, `state, host`faults, host`torn, host`fired, host`shortages, host.sock
      ensures Turned(o, at, deliver, done) && state.Rank() >= old(state).Rank() && done.Some?
      ensures Steady(old(surfaced), old(finished), old(sent))
    {
      hide Buffered, Receive, Handshake, Replies, PongsFor, CloseBody;
      assert pings[|at.pings|..] + [] == pings[|at.pings|..];
      ghost var mid := Now();
      AllAnswered(at);
      var r := FailProtocol(e.error, e.code);
      Replied(at, mid, Close, []);
      return Some(r);
    }

    /** Up to here every ping is answered. */
    lemma AllAnswered(at: Mark)
      requires Wrote(at, [])
      ensures at.sent <= sent && at.pings <= pings
      ensures Replies(sent[|at.sent|..]) == PongsFor(pings[|at.pings|..])
    {
    }

    lemma HeaderIncomplete(deliver: bool)
      requires Buffered() && !frameOpen && Parse(cfg.role, inbox.View()) == NeedMore
      ensures |inbox.View()| < MAX_HEADER_LEN
      ensures incoming == [] ==> Receive(cfg, Frag(), Stream(), deliver) == Outcome([], Starved, Frag(), Stream())
    {
      if incoming == [] { assert Stream() == inbox.View(); }
    }

    lemma FrameIncomplete(deliver: bool)
      requires Buffered() && frameOpen
      requires if cur.opcode.IsControl() then |inbox.View()| < curRemaining else |inbox.View()| == 0
      ensures |inbox.View()| < MIN_BLOCK
      ensures incoming == [] ==> Receive(cfg, Frag(), Stream(), deliver) == Outcome([], Starved, Frag(), Stream())
    {
      if incoming == [] {
        hide Parse, Refusal, Unmask;
        assert Stream() == started + inbox.View();
        VerdictIsStable(cfg.role, started, inbox.View());
        assert |Stream()[cur.headerLen..]| == cur.payloadLen - curRemaining + |inbox.View()|;
      }
    }

    method TurnControl(deliver: bool, ghost o: Outcome, ghost at: Mark) returns (done: Option<Result>)
      requires Turned(o, at, deliver, None) && frameOpen && cur.opcode.IsControl()
      modifies this, inbox, inbox.data, decoder, host`faults, host`torn, host`fired, host`shortages, host.sock
      ensures Turned(o, at, deliver, done) && state.Rank() >= old(state).Rank()
      ensures Steady(old(surfaced), old(finished), old(sent))
      ensures done.None? ==> Below(old(|incoming| + |inbox.View()|), old(|incoming|), old(frameOpen))
    {
      hide Buffered, Receive, Handshake, Logged, Completed, Extended, Parse, Refusal, Unmask;
      if |inbox.View()| < curRemaining {
        FrameIncomplete(deliver);
        done := Await(deliver, o, at);
        return;
      }
      done := TakeAndHandle(deliver, o, at);
    }

    method TakeAndHandle(deliver: bool, ghost o: Outcome, ghost at: Mark) returns (done: Option<Result>)
      requires Turned(o, at, deliver, None) && frameOpen && cur.opcode.IsControl()
      requires curRemaining <= |inbox.View()|
      modifies this, inbox, inbox.data, decoder, host`faults, host`torn, host`fired, host`shortages, host.sock
      ensures Turned(o, at, deliver, done) && state.Rank() >= old(state).Rank()
      ensures Steady(old(surfaced), old(finished), old(sent))
      ensures inbox.Valid() && !frameOpen && incoming == old(incoming) && |inbox.View()| <= |old(inbox.View())|
    {
      hide Buffered, Receive, ReceiveFrame, Handshake, Wrote;
      ghost var s := Stream();
      var payload := TakeControl();
      done := Answer(payload, deliver, o, at, s);
    }

    /** A control frame has been read; what is next is what the rest of the stream holds. */
    ghost predicate ControlRead(payload: seq<Byte>, deliver: bool, o: Outcome, at: Mark, s: seq<Byte>)
      reads this, inbox, inbox.data, decoder, host, host.sock
    {
      && Valid() && state == at.state != CloseReceived && !frameOpen && cur.opcode.IsControl()
      && Wrote(at, []) && Luck(at, 0, 0)
      && |payload| <= MAX_CONTROL_PAYLOAD && |Stream()| < |s|
      && o == Prepend(pings[|at.pings|..], ReceiveFrame(cfg, Frag(), cur, payload, Stream(), deliver, s))
    }

    method Answer(payload: seq<Byte>, deliver: bool, ghost o: Outcome, ghost at: Mark, ghost s: seq<Byte>)
      returns (done: Option<Result>)
      requires ControlRead(payload, deliver, o, at, s)
      modifies `maskSeed, `sent, `state, `pings, host`faults, host`torn, host`fired, host`shortages, host.sock
      ensures Turned(o, at, deliver, done) && state.Rank() >= old(state).Rank()
      ensures Steady(old(surfaced), old(finished), old(sent))
    {
      hide Buffered, Receive, ReceiveFrame, Handshake, Wrote, Unanswered, Farewell, Logged;
      if cur.opcode == Close {
        done := AnswerClose(payload, deliver, o, at, s);
        return;
      }
      AllAnswered(at);
      ghost var seen, mid := pings[|at.pings|..], Now();
      PassedOver(cfg, Frag(), cur, payload, Stream(), deliver, s, seen);
      done := HandleControl(cur.opcode, payload);
      assert pings[|at.pings|..] == seen + if cur.opcode == Ping then [payload] else [];
      Replied(at, mid, cur.opcode, payload);
    }

    method AnswerClose(payload: seq<Byte>, deliver: bool, ghost o: Outcome, ghost at: Mark, ghost s: seq<Byte>)
      returns (done: Option<Result>)
      requires ControlRead(payload, deliver, o, at, s) && cur.opcode == Close
      modifies `maskSeed, `sent, `state, `pings, host`faults, host`torn, host`fired, host`shortages, host.sock
      ensures Turned(o, at, deliver, done) && state.Rank() >= old(state).Rank()
      ensures Steady(old(surfaced), old(finished), old(sent))
    {
      hide Buffered, Receive, Handshake, CloseBody, Wrote, Unanswered;
      AllAnswered(at);
      ghost var mid := Now();
      done := HandleControl(Close, payload);
      assert pings == mid.pings && pings[|at.pings|..] + [] == pings[|at.pings|..];
      Replied(at, mid, Close, payload);
    }

    /** What handling a control frame adds to the answers. */
    lemma Replied(at: Mark, mid: Mark, op: Opcode, payload: seq<Byte>)
      requires at.sent <= mid.sent && at.pings <= mid.pings
      requires Replies(mid.sent[|at.sent|..]) == PongsFor(mid.pings[|at.pings|..])
      requires mid.sent <= sent && pings == mid.pings + if op == Ping then [payload] else []
      ensures op == Ping && Logged(mid.sent, Pong, payload) ==> Wrote(at, [])
      ensures op == Ping && sent == mid.sent ==> Unanswered(at)
      ensures op != Ping && sent == mid.sent ==> Wrote(at, [])
      ensures op != Ping ==> forall p :: Logged(mid.sent, Close, p) ==> Wrote(at, [Reply(Close, p)])
    {
      hide Replies, PongsFor;
      if |sent| == |mid.sent| + 1 {
        OneMoreReply(at.sent, mid.sent, sent[|mid.sent|]);
        assert sent == mid.sent + [sent[|mid.sent|]];
      }
      if op == Ping {
        OneMorePing(at.pings, mid.pings, payload);
        assert pings[|at.pings|..|pings| - 1] == mid.pings[|at.pings|..];
      } else {
        assert pings == mid.pings;
      }
      assert PongsFor(pings[|at.pings|..]) + [] == PongsFor(pings[|at.pings|..]);
    }

    method TurnData(deliver: bool, ghost o: Outcome, ghost at: Mark) returns (done: Option<Result>)
      requires Turned(o, at, deliver, None) && frameOpen && !cur.opcode.IsControl()
      modifies this, inbox, inbox.data, decoder, host`faults, host`torn, host`fired, host`shortages, host.sock
      ensures Turned(o, at, deliver, done) && state.Rank() >= old(state).Rank()
      ensures Steady(old(surfaced), old(finished), old(sent))
      ensures done.None? ==> Below(old(|incoming| + |inbox.View()|), old(|incoming|), old(frameOpen))
    {
      hide Receive, Handshake, Buffered, FrameRead, Wrote, Unanswered, Parse, Refusal, Unmask, Failing, Tells;
      if |inbox.View()| == 0 {
        FrameIncomplete(deliver);
        done := Await(deliver, o, at);
        return;
      }
      InFrame();
      var ok, part, direct := TakeRun();
      if !ok { return Some(NoMemory); }
      if curRemaining > 0 { return None; }
      done := Complete(part, direct, deliver, o, at);
    }

    /** The data frame is at its end. */
    method Complete(part: seq<Byte>, direct: bool, deliver: bool, ghost o: Outcome, ghost at: Mark)
      returns (done: Option<Result>)
      requires inbox.Valid() && inbox.data.Length >= MIN_BLOCK && decoder.role == cfg.role && decoder.err.None?
      requires FrameRead(part, direct) && Handshake() && state == at.state != CloseReceived
      requires Ahead(o, at, deliver) && Wrote(at, []) && Luck(at, 0, 0)
      modifies `frameOpen, `started, `msg, `base, `fragmentOpen, `fragOpcode, host`shortages
      ensures Turned(o, at, deliver, done)
      ensures done.None? ==> !frameOpen
    {
      hide Receive, Handshake, Buffered, FrameRead, Wrote, Unanswered, Failing, Tells;
      var step := FinishFrame(part, direct);
      assert pings[|at.pings|..] + [] == pings[|at.pings|..];
      match step {
        case Unallocated => return Some(NoMemory);
        case Whole(m) => return if deliver then Some(Got(m)) else None;
        case Fragment => return None;
      }
    }

    lemma InFrame()
      requires Buffered() && frameOpen
      ensures inbox.data.Length >= MIN_BLOCK && decoder.role == cfg.role && decoder.err.None?
    {
    }

    /** The next message. A Close is handed over once; after it there is nothing to receive. */
    method Recv() returns (r: Result)
      requires Handshake() && (finished || Buffered())
      modifies this, inbox, inbox.data, decoder, host`faults, host`torn, host`fired, host`shortages, host.sock
      ensures Handshake() && state.Rank() >= old(state).Rank() && finished == old(finished) && old(sent) <= sent
      ensures if old(state) == CloseReceived || finished then
                r == Failed(Closed) && (old(Buffered()) ==> Buffered()) && state == old(state) && sent == old(sent)
              else
                if r.NoMemory? then OutOfMemory(Receive(cfg, old(Frag()), old(Stream()), true), old(Now())) else
                (Valid() && StepDone(Receive(cfg, old(Frag()), old(Stream()), true), old(Now()), true, r))
      ensures surfaced == old(surfaced) + if r.Got? && r.message.opcode == Close then 1 else 0
      ensures r.Got? ==> (state == CloseReceived <==> r.message.opcode == Close)
    {
      hide Buffered, Receive;
      if state == CloseReceived || finished { return Failed(Closed); }
      r := Step(true);
      if r.Got? && r.message.opcode == Close { surfaced := surfaced + 1; }
    }

    /** The handler is to wind up: reads fail from now on, which they may do at any time here, and
        finish() closes with another code. */
    method RequestClose()
      modifies `closing
      ensures closing
    {
      closing := true;
    }

    /** Our own Close, if it is still to come: normal, or going away if we were asked to. */
    method CloseOurs()
      requires Handshake()
      modifies `maskSeed, `sent, `state, host`faults, host`torn, host`fired, host`shortages, host.sock
      ensures Handshake() && state.Rank() >= old(state).Rank() && (old(host.fired) ==> host.fired)
      ensures state == CloseReceived <==> old(state) == CloseReceived
      ensures host.faults >= old(host.faults) && host.shortages == old(host.shortages)
      ensures state != old(state) <==> old(state) == Running && !old(host.fired) && host.faults == old(host.faults)
      ensures if state == old(state) then sent == old(sent)
              else state == CloseSent && Logged(old(sent), Close, CloseBody(if closing then 1001 else 1000))
    {
      hide OnWire, CloseBody;
      if state == Running && !host.fired {
        var code := if closing then 1001 else 1000;
        assert CloseBody(code) + [] == CloseBody(code);
        var ignored := BeginClose(code, []);
      }
    }

    /** Settle the session: send our Close if we never did, wait out the peer's, and give the
        transport up. Unless something goes wrong or the deadline fires, our Close is the next frame
        out, and the wait ends with the peer's, if there is one to come. */
    method Finish()
      requires Handshake() && (finished || Buffered())
      modifies this, inbox, inbox.data, decoder, host, host.sock
      ensures finished && Handshake() && state.Rank() >= old(state).Rank() && surfaced == old(surfaced)
      ensures old(sent) <= sent && (host.live ==> old(finished))
      ensures old(finished) || !old(host.live) ==> state == old(state) && sent == old(sent)
      ensures !old(finished) && old(host.live) && old(state) == Running && !old(host.fired)
              && host.faults == old(host.faults) ==>
                && state != Running && |sent| > |old(sent)|
                && Reply(sent[|old(sent)|].opcode, sent[|old(sent)|].payload) ==
                     Reply(Close, CloseBody(if old(closing) then 1001 else 1000))
      ensures !old(finished) && old(host.live) && old(state) != CloseReceived && !host.fired
              && host.faults == old(host.faults) && host.shortages == old(host.shortages) ==>
                (state == CloseReceived <==> Receive(cfg, old(Frag()), old(Stream()), false).event.CloseArrived?)
    {
      hide Buffered, Receive, OnWire, CloseBody;
      if finished || !host.live {
        finished := true;
        return;
      }
      CloseOurs();
      ghost var mid := sent;
      if state != CloseReceived && !host.fired {
        Linger();
      }
      assert forall i :: 0 <= i < |mid| ==> sent[i] == mid[i];
      host.Abandon();
      finished := true;
    }

    /** Wait out the peer's Close. */
    method Linger()
      requires Valid() && state != CloseReceived && !host.fired
      modifies this, inbox, inbox.data, decoder, host`faults, host`torn, host`fired, host`shortages, host.sock
      ensures Handshake() && state.Rank() >= old(state).Rank() && Steady(old(surfaced), old(finished), old(sent))
      ensures host.faults >= old(host.faults) && host.shortages >= old(host.shortages)
      ensures !host.fired && host.faults == old(host.faults) && host.shortages == old(host.shortages) ==>
                (state == CloseReceived <==> Receive(cfg, old(Frag()), old(Stream()), false).event.CloseArrived?)
    {
      hide Buffered, Receive, Handshake, Wrote, Unanswered;
      ghost var o := Receive(cfg, Frag(), Stream(), false);
      while state != CloseReceived && !host.fired
        invariant Handshake() && state.Rank() >= old(state).Rank() && Steady(old(surfaced), old(finished), old(sent))
        invariant host.faults == old(host.faults) && host.shortages == old(host.shortages)
        invariant state != CloseReceived ==> Valid() && Frag() == old(Frag()) && Stream() == old(Stream())
        invariant state == CloseReceived ==> o.event.CloseArrived?
        decreases if state == CloseReceived then 0 else 1
      {
        var r := Step(false);
        if !r.Got? { break; }
      }
    }

    /** How a reading loop's last result shows in the transcript of the whole stream. */
    static predicate Ends(last: Result, e: Event) {
      match last
      case Got(m) => m.opcode == Close && e == CloseArrived(m.payload)
      case Failed(err) => e.Violation? && e.error == err
      case PeerGone => e == Starved
      case _ => false
    }

    /** The reading loop of a handler: every message until the session ends. Unless the
        transport fails or memory runs out, that is the transcript of the whole stream, and what
        was sent meanwhile is a Pong for every ping in it, in order, and then the answer to its
        end. Whatever happens, no more than that is sent, and no ping is passed over but the last
        one read, if its Pong cannot be sent. */
    method ReceiveAll() returns (messages: seq<Message>, last: Result)
      requires Valid() && state != CloseReceived && !finished
      modifies this, inbox, inbox.data, decoder, host`faults, host`torn, host`fired, host`shortages, host.sock
      ensures messages <= Run(cfg, old(Frag()), old(Stream())).messages && old(sent) <= sent
      ensures var all := Run(cfg, old(Frag()), old(Stream()));
              if last.IoError? || last.NoMemory? then
                && Replies(sent[|old(sent)|..]) <= PongsFor(all.pongs)
                && (Wrote(old(Now()), []) || (last.IoError? && Unanswered(old(Now()))))
              else
                && messages == all.messages && Ends(last, all.end)
                && Replies(sent[|old(sent)|..]) == PongsFor(all.pongs) + Farewell(all.end, old(state), state)
      ensures last.IoError? ==> Luck(old(Now()), 1, 0)
      ensures last.NoMemory? ==> Luck(old(Now()), 0, 1)
      ensures last.Got? || last.PeerGone? ==> Luck(old(Now()), 0, 0)
      ensures last.Failed? ==> Tells(old(Now()))
    {
      hide Buffered, Receive, Handshake, Run, Frag, Stream, Wrote, Unanswered, Replies, PongsFor;
      messages := [];
      ghost var all, first := Run(cfg, Frag(), Stream()), Now();
      NothingYet();
      while true
        invariant Valid() && state == first.state != CloseReceived && !finished
        invariant SoFar(all, messages, first.pings) && Wrote(first, []) && Luck(first, 0, 0)
        decreases |Stream()|
      {
        ghost var mid, f, s := Now(), Frag(), Stream();
        AllAnswered(first);
        last := Recv();
        if last.IoError? || last.NoMemory? {
          StoppedShort(first, mid, f, s, all);
          return;
        }
        WroteThen(first, mid, Farewell(Receive(cfg, f, s, true).event, mid.state, state));
        Delivers(cfg, f, s, all, messages, first.pings, mid.pings, pings);
        if last.Got? {
          messages := messages + [last.message];
        }
        if !last.Got? || last.message.opcode == Close { return; }
      }
    }

    lemma NothingYet()
      ensures Wrote(Now(), [])
    {
    }

    lemma WroteThen(first: Mark, mid: Mark, more: seq<Reply>)
      requires first.sent <= mid.sent && first.pings <= mid.pings
      requires Replies(mid.sent[|first.sent|..]) == PongsFor(mid.pings[|first.pings|..]) && Wrote(mid, more)
      ensures Wrote(first, more)
    {
      RepliesThen(first, mid, sent, pings, more);
    }

    /** A reading loop that ends early has sent no more than it was to send. */
    lemma StoppedShort(first: Mark, mid: Mark, f: Fragments, s: seq<Byte>, all: Transcript)
      requires first.sent <= mid.sent && first.pings <= mid.pings <= pings
      requires Replies(mid.sent[|first.sent|..]) == PongsFor(mid.pings[|first.pings|..])
      requires Wrote(mid, []) || Unanswered(mid)
      requires all.pongs == mid.pings[|first.pings|..] + Run(cfg, f, s).pongs
      requires pings[|mid.pings|..] <= Receive(cfg, f, s, true).pongs
      ensures first.sent <= sent && if Wrote(mid, []) then Wrote(first, []) else Unanswered(first)
      ensures Replies(sent[|first.sent|..]) <= PongsFor(all.pongs)
    {
      hide Receive, Replies, PongsFor;
      var heard := if Wrote(mid, []) then pings else pings[..|pings| - 1];
      assert Replies(sent[|mid.sent|..]) == PongsFor(heard[|mid.pings|..]) + [];
      RepliesThen(first, mid, sent, heard, []);
      assert pings[|first.pings|..] == mid.pings[|first.pings|..] + pings[|mid.pings|..];
      RunStarts(cfg, f, s);
      PongsPrefix(heard[|first.pings|..], all.pongs);
    }

    /** Against a conforming peer, however its bytes are cut up by the reads: every message it
        meant arrives, in order and whole, and nothing is refused; what is sent meanwhile is a Pong
        for each of its pings, in order and with its payload, and then the echo of its Close if we
        had not closed. */
    method ReceiveFrom(ghost fs: seq<WireFrame>) returns (messages: seq<Message>, last: Result)
      requires Valid() && state != CloseReceived && !finished && Frag() == Idle
      requires Conforming(cfg, None, fs) && Stream() == Encode(cfg.role, fs)
      modifies this, inbox, inbox.data, decoder, host`faults, host`torn, host`fired, host`shortages, host.sock
      ensures messages <= AllAsReceived(Messages(None, Settled(fs))) && !last.Failed? && old(sent) <= sent
      ensures if last.PeerGone? || last.Got? then
                && messages == AllAsReceived(Messages(None, Settled(fs)))
                && (last.Got? ==> last.message.opcode == Close)
                && Replies(sent[|old(sent)|..]) ==
                     PongsFor(Pings(fs))
                     + if last.Got? && old(state) == Running then [Reply(Close, last.message.payload)] else []
              else Replies(sent[|old(sent)|..]) <= PongsFor(Pings(fs))
      ensures last.PeerGone? || last.Got? <==>
                host.faults == old(host.faults) && host.shortages == old(host.shortages)
    {
      hide Buffered, Receive, Handshake, Run, Stream, Conforming, Messages, Settled, Pings, Encode, AllAsReceived;
      hide Wrote, Unanswered, Replies, PongsFor;
      ReceivesWhatWasSent(cfg, None, fs);
      messages, last := ReceiveAll();
    }

    /** Any calls in any order: at most one Close frame ever goes out, no data frame after it, a
        Close is handed over at most once, and the state never goes back. The history stops
        where a read runs out of memory. */
    method Drive(calls: seq<Call>)
      requires Handshake() && (finished || Buffered())
      requires forall i :: 0 <= i < |calls| ==> calls[i].Admissible()
      modifies this, inbox, inbox.data, decoder, host, host.sock
      ensures Polite(sent) && old(sent) <= sent && surfaced <= 1 && state.Rank() >= old(state).Rank()
      ensures OnWire()
      ensures surfaced > old(surfaced) ==> state == CloseReceived
    {
      hide Buffered, Receive, Encode;
      for k := 0 to |calls|
        invariant Handshake() && (finished || Buffered()) && old(sent) <= sent
        invariant old(surfaced) <= surfaced && state.Rank() >= old(state).Rank()
      {
        match calls[k] {
          case CallSend(payload, op) => var ignored := Send(payload, op);
          case CallPing(payload) => var ignored := SendPing(payload);
          case CallClose(code, reason) => var ignored := BeginClose(code, reason);
          case CallRecv =>
            var r := Recv();
            if r.NoMemory? { return; }
          case CallFinish => Finish();
          case CallRequestClose => RequestClose();
          case Idling => host.Wait();
        }
      }
    }

    /** What has been handed over and answered, and what the rest of the stream still holds,
        make up the whole. */
    ghost predicate SoFar(all: Transcript, messages: seq<Message>, first: seq<seq<Byte>>)
      requires inbox.Valid()
      reads this, inbox, inbox.data
    {
      var t := Run(cfg, Frag(), Stream());
      && first <= pings && all.messages == messages + t.messages
      && all.pongs == pings[|first|..] + t.pongs && all.end == t.end
    }
  }

  /** One more outcome accounted for. */
  lemma Delivers(cfg: Config, f: Fragments, s: seq<Byte>, all: Transcript, messages: seq<Message>,
                 first: seq<seq<Byte>>, before: seq<seq<Byte>>, now: seq<seq<Byte>>)
    requires first <= before <= now
    requires var t := Run(cfg, f, s);
             all.messages == messages + t.messages && all.pongs == before[|first|..] + t.pongs && all.end == t.end
    requires Receive(cfg, f, s, true).pongs == now[|before|..]
    ensures var o, seen := Receive(cfg, f, s, true), now[|first|..];
            match o.event
            case Delivered(m) => var t := Run(cfg, o.frag, o.rest);
              all.messages == messages + [m] + t.messages && all.pongs == seen + t.pongs && all.end == t.end
            case CloseArrived(p) => all == Transcript(messages + [Message(Close, p)], seen, o.event)
            case _ => all == Transcript(messages, seen, o.event)
  {
    hide Receive;
    var o := Receive(cfg, f, s, true);
    assert now[|first|..] == before[|first|..] + now[|before|..];
    if o.event.Delivered? {
      var t := Run(cfg, o.frag, o.rest);
      RunOfDelivered(cfg, f, s, o.event.message, o.pongs);
      Concat3(messages, [o.event.message], t.messages);
      Concat3(before[|first|..], o.pongs, t.pongs);
    } else {
      RunOfEnd(cfg, f, s);
    }
  }
}
