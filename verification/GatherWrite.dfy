/** Writing a list of buffers through short writes: the loop that advances the list in place. */
module GatherWrite {
  import opened Bits

  /** An iovec entry: a run of memory still to be written. */
  datatype Span = Span(base: nat, len: nat)

  datatype Outcome = Done | Reset | Failed(code: nat)

  /** What a single write call may answer. */
  datatype Wrote = Bytes(n: nat) | Error(code: nat)

  ghost predicate Mapped(mem: seq<Byte>, spans: seq<Span>) {
    forall i :: 0 <= i < |spans| ==> spans[i].base + spans[i].len <= |mem|
  }

  /** The bytes a list of spans stands for, in order. */
  ghost function Gather(mem: seq<Byte>, spans: seq<Span>): seq<Byte>
    requires Mapped(mem, spans)
  {
    if spans == [] then [] else mem[spans[0].base..spans[0].base + spans[0].len] + Gather(mem, spans[1..])
  }

  lemma {:induction false} GatherConcat(mem: seq<Byte>, a: seq<Span>, b: seq<Span>)
    requires Mapped(mem, a) && Mapped(mem, b)
    ensures Mapped(mem, a + b) && Gather(mem, a + b) == Gather(mem, a) + Gather(mem, b)
  {
    hide Gather;
    NoSpans(mem, []);
    if a == [] {
      assert a + b == b && [] + Gather(mem, b) == Gather(mem, b);
    } else {
      GatherConcat(mem, a[1..], b);
      assert (a + b)[1..] == a[1..] + b && (a + b)[0] == a[0];
      assert Mapped(mem, a + b) by { MappedConcat(mem, a, b); }
      GatherFirst(mem, a);
      GatherFirst(mem, a + b);
      Concat3(mem[a[0].base..a[0].base + a[0].len], Gather(mem, a[1..]), Gather(mem, b));
    }
  }

  lemma MappedConcat(mem: seq<Byte>, a: seq<Span>, b: seq<Span>)
    requires Mapped(mem, a) && Mapped(mem, b)
    ensures Mapped(mem, a + b)
  {
  }

  lemma Concat3(a: seq<Byte>, b: seq<Byte>, c: seq<Byte>)
    ensures a + b + c == a + (b + c)
  {
  }

  lemma {:induction false} GatherEmpty(mem: seq<Byte>, spans: seq<Span>)
    requires Mapped(mem, spans) && forall i :: 0 <= i < |spans| ==> spans[i].len == 0
    ensures Gather(mem, spans) == []
  {
    if spans != [] { GatherEmpty(mem, spans[1..]); }
  }

  /** Leading empty spans stand for nothing. */
  lemma GatherSkip(mem: seq<Byte>, spans: seq<Span>, k: nat)
    requires Mapped(mem, spans) && k <= |spans| && forall i :: 0 <= i < k ==> spans[i].len == 0
    ensures Gather(mem, spans) == Gather(mem, spans[k..])
  {
    assert spans == spans[..k] + spans[k..];
    GatherConcat(mem, spans[..k], spans[k..]);
    GatherEmpty(mem, spans[..k]);
  }

  /** Advancing the first span takes bytes off the front. */
  lemma GatherAdvance(mem: seq<Byte>, spans: seq<Span>, take: nat)
    requires Mapped(mem, spans) && spans != [] && take <= spans[0].len
    ensures var s := Span(spans[0].base + take, spans[0].len - take);
            && Mapped(mem, spans[0 := s])
            && mem[spans[0].base..spans[0].base + take] + Gather(mem, spans[0 := s]) == Gather(mem, spans)
  {
    hide Gather;
    var b, l := spans[0].base, spans[0].len;
    var next := spans[0 := Span(b + take, l - take)];
    assert next[1..] == spans[1..];
    GatherFirst(mem, next);
    GatherFirst(mem, spans);
    Rejoin(mem, b, take, l, Gather(mem, spans[1..]));
  }

  lemma GatherFirst(mem: seq<Byte>, spans: seq<Span>)
    requires Mapped(mem, spans) && spans != []
    ensures Mapped(mem, spans[1..])
    ensures Gather(mem, spans) == mem[spans[0].base..spans[0].base + spans[0].len] + Gather(mem, spans[1..])
  {
  }

  lemma Rejoin(mem: seq<Byte>, b: nat, take: nat, l: nat, others: seq<Byte>)
    requires take <= l && b + l <= |mem|
    ensures mem[b..b + take] + (mem[b + take..b + take + (l - take)] + others) == mem[b..b + l] + others
  {
  }

  /** The list after `w` bytes of it are gone. */
  method Advance(mem: seq<Byte>, iov: array<Span>, done: nat, w: nat)
    requires Mapped(mem, iov[..]) && done <= iov.Length && w <= |Gather(mem, iov[done..])|
    modifies iov
    ensures Mapped(mem, iov[..]) && iov[..done] == old(iov[..done])
    ensures Gather(mem, iov[done..]) == old(Gather(mem, iov[done..]))[w..]
  {
    hide Gather, Mapped, Going;
    ghost var front, back := iov[..done], iov[done..];
    assert iov[..] == front + back;
    Parts(mem, front, back);
    ghost var all := Gather(mem, back);
    GoingStarts(mem, back, w);
    var i, remaining: nat := done, w;
    while i < iov.Length && remaining > 0
      invariant done <= i <= iov.Length && Going(mem, all, w, back, i - done, remaining)
      invariant |front| == done && |back| == iov.Length - done && iov[..] == front + back
    {
      assert iov[..][i] == back[i - done];
      var take := if remaining < iov[i].len then remaining else iov[i].len;
      ghost var next := Span(iov[i].base + take, iov[i].len - take);
      GoingOn(mem, all, w, back, i - done, remaining);
      BehindFront(front, back, i - done, next);
      iov[i] := Span(iov[i].base + take, iov[i].len - take);
      back := back[i - done := next];
      assert iov[..] == front + back;
      remaining := remaining - take;
      i := i + 1;
    }
    GoingEnds(mem, all, w, back, i - done, remaining);
    assert iov[done..] == back && iov[..done] == front;
    Parts(mem, front, back);
  }

  /** The spans before `k` are used up, unless nothing is left to take, and the list stands for all
      but the bytes taken so far. */
  ghost predicate Going(mem: seq<Byte>, all: seq<Byte>, w: nat, spans: seq<Span>, k: nat, remaining: nat) {
    && Mapped(mem, spans) && remaining <= w <= |all| && k <= |spans| && Gather(mem, spans) == all[w - remaining..]
    && (remaining > 0 ==> forall j :: 0 <= j < k ==> spans[j].len == 0)
  }

  lemma GoingStarts(mem: seq<Byte>, spans: seq<Span>, w: nat)
    requires Mapped(mem, spans) && w <= |Gather(mem, spans)|
    ensures Going(mem, Gather(mem, spans), w, spans, 0, w)
  {
  }

  lemma GoingOn(mem: seq<Byte>, all: seq<Byte>, w: nat, spans: seq<Span>, k: nat, remaining: nat)
    requires Going(mem, all, w, spans, k, remaining) && k < |spans| && remaining > 0
    ensures var take := if remaining < spans[k].len then remaining else spans[k].len;
            Going(mem, all, w, spans[k := Span(spans[k].base + take, spans[k].len - take)], k + 1, remaining - take)
  {
    hide Gather, Mapped;
    var take := if remaining < spans[k].len then remaining else spans[k].len;
    AdvanceOne(mem, spans, k, remaining);
    assert all[w - remaining..][take..] == all[w - (remaining - take)..];
  }

  lemma GoingEnds(mem: seq<Byte>, all: seq<Byte>, w: nat, spans: seq<Span>, k: nat, remaining: nat)
    requires Going(mem, all, w, spans, k, remaining) && (k == |spans| || remaining == 0)
    ensures Mapped(mem, spans) && w <= |all| && Gather(mem, spans) == all[w..]
  {
    hide Gather, Mapped;
    if remaining > 0 { AllEmpty(mem, spans); }
  }

  lemma BehindFront(front: seq<Span>, back: seq<Span>, k: nat, s: Span)
    requires k < |back|
    ensures (front + back)[|front| + k := s] == front + back[k := s]
  {
  }

  lemma Parts(mem: seq<Byte>, front: seq<Span>, back: seq<Span>)
    ensures Mapped(mem, front + back) <==> Mapped(mem, front) && Mapped(mem, back)
  {
    var all := front + back;
    assert forall i :: 0 <= i < |front| ==> front[i] == all[i];
    assert forall i :: 0 <= i < |back| ==> back[i] == all[|front| + i];
  }

  lemma AllEmpty(mem: seq<Byte>, spans: seq<Span>)
    requires Mapped(mem, spans) && forall j :: 0 <= j < |spans| ==> spans[j].len == 0
    ensures Gather(mem, spans) == []
  {
    GatherEmpty(mem, spans);
  }

  /** One entry of the list gives up what it can, behind entries that are empty already. */
  lemma AdvanceOne(mem: seq<Byte>, spans: seq<Span>, k: nat, remaining: nat)
    requires Mapped(mem, spans) && k < |spans| && remaining <= |Gather(mem, spans)|
    requires forall j :: 0 <= j < k ==> spans[j].len == 0
    ensures var take := if remaining < spans[k].len then remaining else spans[k].len;
            var next := spans[k := Span(spans[k].base + take, spans[k].len - take)];
            && Mapped(mem, next) && take <= |Gather(mem, spans)| && Gather(mem, next) == Gather(mem, spans)[take..]
            && (remaining > take ==> forall j :: 0 <= j <= k ==> next[j].len == 0)
  {
    hide Gather;
    var take := if remaining < spans[k].len then remaining else spans[k].len;
    var s := Span(spans[k].base + take, spans[k].len - take);
    var next := spans[k := s];
    GatherSkip(mem, spans, k);
    GatherAdvance(mem, spans[k..], take);
    GatherSkip(mem, next, k);
    assert next[k..] == spans[k..][0 := s];
  }

  lemma NoSpans(mem: seq<Byte>, spans: seq<Span>)
    requires spans == []
    ensures Gather(mem, spans) == []
  {
  }

  /** Where the bytes go: what it has answered, call by call, and what it has taken. */
  class Socket {
    var answers: seq<Wrote>
    var taken: seq<Byte>

    constructor ()
      ensures answers == [] && taken == []
    {
      answers, taken := [], [];
    }

    /** It takes any part of what it is given, from the front, or fails. */
    method Writev(mem: seq<Byte>, spans: seq<Span>) returns (w: Wrote)
      requires Mapped(mem, spans)
      modifies this
      ensures answers == old(answers) + [w] && (w.Bytes? ==> w.n <= |Gather(mem, spans)|)
      ensures taken == old(taken) + if w.Bytes? then Gather(mem, spans)[..w.n] else []
    {
      hide Gather;
      var ok: bool, code: nat, n: nat := *, *, *;
      var all := Collect(mem, spans);
      w := if !ok then Error(code) else Bytes(if n <= |all| then n else |all|);
      answers := answers + [w];
      taken := taken + if w.Bytes? then all[..w.n] else [];
    }
  }

  method Collect(mem: seq<Byte>, spans: seq<Span>) returns (all: seq<Byte>)
    requires Mapped(mem, spans)
    ensures all == Gather(mem, spans)
  {
    hide Gather;
    all := [];
    assert spans[0..] == spans;
    for i := 0 to |spans|
      invariant Mapped(mem, spans[i..]) && all + Gather(mem, spans[i..]) == Gather(mem, spans)
    {
      GatherFirst(mem, spans[i..]);
      assert spans[i..][1..] == spans[i + 1..];
      Concat3(all, mem[spans[i].base..spans[i].base + spans[i].len], Gather(mem, spans[i + 1..]));
      all := all + mem[spans[i].base..spans[i].base + spans[i].len];
    }
    NoSpans(mem, spans[|spans|..]);
  }

  /** How many bytes a run of answers took. */
  ghost function Taken(answers: seq<Wrote>): nat {
    if answers == [] then 0
    else Taken(answers[..|answers| - 1]) + match answers[|answers| - 1] { case Bytes(n) => n case Error(_) => 0 }
  }

  ghost predicate AllWrote(answers: seq<Wrote>) {
    forall i :: 0 <= i < |answers| ==> answers[i].Bytes? && answers[i].n > 0
  }

  /** The answers so far all took something, and `left` is what they have not taken. */
  ghost predicate Sending(given: seq<Byte>, used: seq<Wrote>, left: seq<Byte>) {
    AllWrote(used) && Taken(used) <= |given| && left == given[Taken(used)..]
  }

  /** Every answer but the last took something; everything has been taken, or the last is why not. */
  ghost predicate Told(given: seq<Byte>, used: seq<Wrote>, r: Outcome) {
    && Taken(used) <= |given| && (used != [] ==> AllWrote(used[..|used| - 1]))
    && (r == Done <==> AllWrote(used) && Taken(used) == |given|)
    && (r == Reset <==> used != [] && used[|used| - 1] == Bytes(0))
    && (forall c :: r == Failed(c) <==> used != [] && used[|used| - 1] == Error(c))
  }

  lemma TellsStop(given: seq<Byte>, used: seq<Wrote>, left: seq<Byte>, w: Wrote)
    requires Sending(given, used, left) && (w.Error? || w.n == 0)
    ensures Told(given, used + [w], if w.Error? then Failed(w.code) else Reset)
    ensures Taken(used + [w]) == Taken(used) <= |given| && left == given[Taken(used + [w])..]
  {
    assert (used + [w])[..|used|] == used && (used + [w])[|used|] == w;
  }

  lemma {:induction false} EachTakes(used: seq<Wrote>)
    requires AllWrote(used)
    ensures |used| <= Taken(used)
  {
    if used != [] { EachTakes(used[..|used| - 1]); }
  }

  lemma TellsDone(given: seq<Byte>, used: seq<Wrote>)
    requires Sending(given, used, [])
    ensures Told(given, used, Done) && |used| <= Taken(used) <= |given| && given[Taken(used)..] == []
  {
    EachTakes(used);
    assert |given[Taken(used)..]| == |given| - Taken(used);
  }

  lemma SendingStarts(given: seq<Byte>)
    ensures Sending(given, [], given) && Taken([]) == 0
  {
  }

  lemma SendingOn(given: seq<Byte>, used: seq<Wrote>, left: seq<Byte>, w: Wrote)
    requires Sending(given, used, left) && (w.Bytes? ==> w.n <= |left|)
    ensures var n := if w.Bytes? then w.n else 0;
            && Taken(used + [w]) == Taken(used) + n <= |given|
            && given[..Taken(used + [w])] == given[..Taken(used)] + left[..n]
            && (n > 0 ==> Sending(given, used + [w], left[n..]))
  {
    assert (used + [w])[..|used|] == used;
  }

  /** The write loop. It ends with the first answer that is an error or takes nothing, or as soon as
      everything is taken, and says which. What has been taken is the front of the buffers as they
      were given, in order, no byte twice and none skipped, and the list holds the rest. */
  method WritevAll(sock: Socket, mem: seq<Byte>, iov: array<Span>) returns (r: Outcome, calls: nat, partial: nat)
    requires Mapped(mem, iov[..])
    modifies iov, sock
    ensures old(sock.answers) <= sock.answers && Mapped(mem, iov[..])
    ensures var used, given := sock.answers[|old(sock.answers)|..], old(Gather(mem, iov[..]));
            && calls == |used| && partial == (if used == [] then 0 else |used| - 1)
            && (used == [] <==> iov.Length == 0) && Told(given, used, r)
            && sock.taken == old(sock.taken) + given[..Taken(used)] && Gather(mem, iov[..]) == given[Taken(used)..]
    ensures r == Done ==> calls <= |old(Gather(mem, iov[..]))|
  {
    hide Gather, Taken, AllWrote, Sending, Told;
    SendingStarts(Gather(mem, iov[..]));
    ghost var given, used: seq<Wrote> := Gather(mem, iov[..]), [];
    var done := 0;
    calls, partial := 0, 0;
    while done < iov.Length
      invariant done <= iov.Length && Mapped(mem, iov[..]) && sock.answers == old(sock.answers) + used
      invariant calls == |used| && Sending(given, used, Gather(mem, iov[..]))
      invariant Taken(used) <= |given| && sock.taken == old(sock.taken) + given[..Taken(used)]
      invariant (calls == 0 ==> done == 0) && (calls > 0 ==> iov.Length > 0)
      invariant forall j :: 0 <= j < done ==> iov[j].len == 0
      invariant partial == if calls > 0 && done == iov.Length then calls - 1 else calls
      decreases |Gather(mem, iov[..])|
    {
      ghost var left := Gather(mem, iov[..]);
      SkipDone(mem, iov[..], done);
      var w := sock.Writev(mem, iov[done..]);
      SendingOn(given, used, left, w);
      if w.Error? || w.n == 0 { TellsStop(given, used, left, w); }
      calls, used := calls + 1, used + [w];
      assert sock.answers[|old(sock.answers)|..] == used;
      if w.Error? { return Failed(w.code), calls, partial; }
      if w.n == 0 { return Reset, calls, partial; }
      assert forall j :: 0 <= j < done ==> iov[..done][j].len == 0;
      Advance(mem, iov, done, w.n);
      assert forall j :: 0 <= j < done ==> iov[j] == iov[..done][j];
      SkipDone(mem, iov[..], done);
      while done < iov.Length && iov[done].len == 0
        invariant done <= iov.Length && forall j :: 0 <= j < done ==> iov[j].len == 0
      {
        done := done + 1;
      }
      if done < iov.Length { partial := partial + 1; }
    }
    SkipDone(mem, iov[..], iov.Length);
    NoSpans(mem, iov[iov.Length..]);
    TellsDone(given, used);
    assert sock.answers[|old(sock.answers)|..] == used;
    r := Done;
  }

  lemma SkipDone(mem: seq<Byte>, spans: seq<Span>, k: nat)
    requires Mapped(mem, spans) && k <= |spans| && forall j :: 0 <= j < k ==> spans[j].len == 0
    ensures Mapped(mem, spans[k..]) && Gather(mem, spans) == Gather(mem, spans[k..])
  {
    GatherSkip(mem, spans, k);
  }
}
