/** What a session runs on: the socket, the buffer pool and the read deadline. Whatever can go wrong
    there goes wrong here, and is on record. */
module Host {
  import opened Bits
  import opened GatherWrite
  import opened Optional

  class Host {
    const sock: Socket
    // reads and writes that failed, and whether a write has: it may have left part of a frame behind
    var faults: nat
    var torn: bool
    // blocks the buffer pool could not lease
    var shortages: nat
    // the read deadline has fired
    var fired: bool
    // there is a descriptor
    var live: bool

    constructor ()
      ensures fresh(sock) && sock.taken == [] && faults == 0 && !torn && shortages == 0 && !fired && live
    {
      sock := new Socket();
      faults, torn, shortages, fired, live := 0, false, 0, false, true;
    }

    /** A read: any part of what is there, nothing only at the end, or a failure. The deadline may
        fire meanwhile. */
    method Recv(available: nat, room: nat) returns (n: Option<nat>)
      requires room > 0
      modifies `faults, `fired
      ensures faults == old(faults) + (if n.None? then 1 else 0) && (old(fired) ==> fired)
      ensures n.Some? ==> n.value <= available && n.value <= room && (n.value == 0 <==> available == 0)
    {
      Wait();
      var ok: bool, k: nat := *, *;
      if !ok {
        faults := faults + 1;
        return None;
      }
      var most := if available < room then available else room;
      return Some(if 1 <= k <= most then k else most);
    }

    /** A frame goes out behind its header. It is out in full if and only if every call took some of
        it; otherwise part of it may be. */
    method Send(head: seq<Byte>, body: seq<Byte>) returns (ok: bool)
      modifies `faults, `torn, `fired, sock
      ensures old(sock.answers) <= sock.answers && (ok <==> AllWrote(sock.answers[|old(sock.answers)|..]))
      ensures ok ==> sock.taken == old(sock.taken) + (head + body) && torn == old(torn) && faults == old(faults)
      ensures !ok ==> old(sock.taken) <= sock.taken && torn && faults == old(faults) + 1
      ensures old(fired) ==> fired
    {
      hide Gather, Taken, AllWrote, Told;
      Wait();
      var iov := Spans(head, body);
      ghost var first, given, took := sock.answers, head + body, sock.taken;
      var r, calls, partial := WritevAll(sock, head + body, iov);
      ghost var used := sock.answers[|first|..];
      ToldHow(given, used, r);
      assert sock.taken == took + given[..Taken(used)];
      ok := r == Done;
      if !ok { faults, torn := faults + 1, true; }
    }

    method Grow() returns (ok: bool)
      modifies `shortages
      ensures shortages == old(shortages) + if ok then 0 else 1
    {
      ok := *;
      if !ok { shortages := shortages + 1; }
    }

    /** Time passes. */
    method Wait()
      modifies `fired
      ensures old(fired) ==> fired
    {
      if !fired { fired := *; }
    }

    method Abandon()
      modifies `live
      ensures !live
    {
      live := false;
    }
  }

  /** The list for a header and what follows it, if anything does. */
  method Spans(head: seq<Byte>, body: seq<Byte>) returns (iov: array<Span>)
    ensures fresh(iov) && Mapped(head + body, iov[..]) && Gather(head + body, iov[..]) == head + body
  {
    if body == [] {
      iov := new Span[1][Span(0, |head|)];
    } else {
      iov := new Span[2][Span(0, |head|), Span(|head|, |body|)];
    }
    Laid(head, body, iov[..]);
  }

  lemma Laid(head: seq<Byte>, body: seq<Byte>, spans: seq<Span>)
    requires spans == if body == [] then [Span(0, |head|)] else [Span(0, |head|), Span(|head|, |body|)]
    ensures Mapped(head + body, spans) && Gather(head + body, spans) == head + body
  {
    hide Gather;
    GatherFirst(head + body, spans);
    if body == [] {
      NoSpans(head + body, spans[1..]);
    } else {
      GatherFirst(head + body, spans[1..]);
      NoSpans(head + body, spans[1..][1..]);
    }
  }

  lemma ToldHow(given: seq<Byte>, used: seq<Wrote>, r: Outcome)
    requires Told(given, used, r)
    ensures Taken(used) <= |given| && (r == Done <==> AllWrote(used)) && (r == Done ==> given[..Taken(used)] == given)
  {
    match r {
      case Done =>
      case Reset =>
      case Failed(c) => assert used[|used| - 1] == Error(c);
    }
  }
}
