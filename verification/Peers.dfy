/** Two endpoints: what one session sends is what the other receives. */
module Peers {
  import opened Bits
  import opened Frame
  import opened Reassembly
  import opened Session

  /** What the reader at the other end should get of the frames a session has sent: every message
      whole and under its own opcode, in order, up to the Close; only an empty message with nothing
      behind it waits. */
  function Heard(fs: seq<WireFrame>): (t: Transcript)
    ensures t.end.Starved? || t.end.CloseArrived?
  {
    if fs == [] then Transcript([], [], Starved)
    else
      var f, tail := fs[0], fs[1..];
      match f.opcode
      case Ping => var t := Heard(tail); t.(pongs := [f.payload] + t.pongs)
      case Pong => Heard(tail)
      case Close => Transcript([Message(Close, f.payload)], [], CloseArrived(f.payload))
      case _ =>
        if f.payload == [] && tail == [] then Transcript([], [], Starved)
        else After(Message(f.opcode, f.payload), [], Heard(tail))
  }

  ghost predicate Fits(peer: Config, fs: seq<WireFrame>) {
    forall i :: 0 <= i < |fs| ==>
      Acceptable(peer.role, fs[i]) && (fs[i].opcode.IsData() ==> |fs[i].payload| <= peer.maxMessage)
  }

  lemma NotRefusedHere(peer: Config, f: WireFrame)
    requires Acceptable(peer.role, f) && (f.opcode.IsData() ==> |f.payload| <= peer.maxMessage)
    ensures LegalFrame(peer.role, f) && Refusal(peer, Idle, HeaderOf(peer.role, f)).None?
    ensures !f.opcode.IsControl() ==> Completed(Idle, HeaderOf(peer.role, f), f.payload) == Message(f.opcode, f.payload)
  {
    hide EncodeHeader;
    assert [] + f.payload == f.payload;
  }

  lemma {:induction false} Hears(peer: Config, fs: seq<WireFrame>)
    requires Fits(peer, fs)
    ensures Run(peer, Idle, Encode(peer.role, fs)) == Heard(fs)
    decreases |fs|
  {
    var s := Encode(peer.role, fs);
    if fs == [] {
      ReceiveNothing(peer, Idle);
      return;
    }
    hide Parse, EncodeFrame, Refusal, Receive, Run, Completed, Acceptable;
    var f, tail := fs[0], fs[1..];
    var rest := Encode(peer.role, tail);
    NotRefusedHere(peer, f);
    ReceiveEncoded(peer, Idle, f, rest);
    EncodeNonEmpty(peer.role, tail);
    assert Fits(peer, tail) by { assert forall i :: 0 <= i < |tail| ==> tail[i] == fs[i + 1]; }
    Hears(peer, tail);
    match f.opcode {
      case Ping => RunOfPrepend(peer, Idle, s, Idle, rest, [f.payload]);
      case Pong => RunOfSame(peer, Idle, s, Idle, rest);
      case Close => RunOfEnd(peer, Idle, s);
      case _ =>
        if f.payload == [] && tail == [] {
          RunOfEnd(peer, Idle, s);
        } else {
          RunOfDelivered(peer, Idle, s, Message(f.opcode, f.payload), []);
        }
    }
  }

  /** From one session to the other. However the writes of the first were taken and the reads of the
      second come in, and whatever calls were made on the first: unless a read, a write or an
      allocation fails, the second gets the messages of the first. */
  method Exchange(a: Session, b: Session) returns (messages: seq<Message>, last: Result)
    requires a.Handshake() && !a.host.torn && b.Valid() && b.state != CloseReceived && !b.finished && b.Frag() == Idle
    requires b.cfg.role == PeerOf(a.cfg.role) && b.Stream() == a.host.sock.taken
    requires forall i :: 0 <= i < |a.sent| && a.sent[i].opcode.IsData() ==> |a.sent[i].payload| <= b.cfg.maxMessage
    modifies b, b.inbox, b.inbox.data, b.decoder, b.host, b.host.sock
    ensures messages <= Heard(old(a.sent)).messages && old(b.sent) <= b.sent
    ensures last.Got? || last.PeerGone? <==>
              b.host.faults == old(b.host.faults) && b.host.shortages == old(b.host.shortages)
    ensures last.Got? || last.PeerGone? ==>
              var t := Heard(old(a.sent));
              && messages == t.messages && Session.Ends(last, t.end)
              && Replies(b.sent[|old(b.sent)|..]) == PongsFor(t.pongs) + Farewell(t.end, old(b.state), b.state)
  {
    hide Run, Heard, Session.Buffered, Encode, Replies, PongsFor, Session.Stream, Acceptable;
    ghost var fs := a.sent;
    assert Fits(b.cfg, fs);
    Hears(b.cfg, fs);
    messages, last := b.ReceiveAll();
  }
}
