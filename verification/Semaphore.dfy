/** The coroutine semaphore: its linked wait queue, the grant loop, and where every permit is. */
module Semaphore {
  import opened Chains
  import opened Optional

  const WORD := 0x1_0000_0000

  /** A count as a 32-bit word holds it. */
  function Word(n: nat): nat {
    n % WORD
  }

  class Waiter {
    const need: nat
    var prev: Option<Waiter>
    var next: Option<Waiter>
    var err: Option<nat>
    var queued: bool
    // permits were deducted for this waiter
    var granted: bool
    // the waiter resumed: the permits are its own
    var consumed: bool
    // how often its handle was put on the ready queue
    var scheduled: nat

    constructor (need: nat)
      requires need < WORD
      ensures this.need == need && prev == None && next == None && err == None && !queued && !granted && !consumed
      ensures scheduled == 0
    {
      this.need := need;
      prev, next, err, queued, granted, consumed, scheduled := None, None, None, false, false, false, 0;
    }
  }

  ghost function Sum(ws: seq<Waiter>): nat {
    if ws == [] then 0 else ws[0].need + Sum(ws[1..])
  }

  lemma {:induction false} SumConcat(a: seq<Waiter>, b: seq<Waiter>)
    ensures Sum(a + b) == Sum(a) + Sum(b)
  {
    if a == [] {
      assert a + b == b;
    } else {
      SumConcat(a[1..], b);
      assert (a + b)[1..] == a[1..] + b;
    }
  }

  lemma SumCut(o: Order<Waiter>, w: Waiter)
    requires o.Ok() && w in o.at
    ensures Sum(o.list) == w.need + Sum(o.Cut(w).list)
  {
    var k := o.at[w];
    assert o.list == o.list[..k] + ([w] + o.list[k + 1..]);
    SumConcat(o.list[..k], [w] + o.list[k + 1..]);
    SumConcat(o.list[..k], o.list[k + 1..]);
    assert ([w] + o.list[k + 1..])[1..] == o.list[k + 1..];
  }

  lemma SumAppended(o: Order<Waiter>, w: Waiter)
    ensures Sum(o.Appended(w).list) == Sum(o.list) + w.need
  {
    SumConcat(o.list, [w]);
    assert [w][1..] == [];
  }

  /** How many waiters at the front of the queue `count` permits are enough for, one after another. */
  ghost function Fitting(queue: seq<Waiter>, count: nat): (k: nat)
    ensures k <= |queue|
  {
    if queue == [] || queue[0].need > count then 0 else 1 + Fitting(queue[1..], count - queue[0].need)
  }

  /** `s` is what is left of `t` when some of it is taken out. */
  ghost predicate Within<T>(s: seq<T>, t: seq<T>)
    decreases |t|
  {
    s == [] || (t != [] && var u := t[..|t| - 1];
                           Within(s, u) || (s[|s| - 1] == t[|t| - 1] && Within(s[..|s| - 1], u)))
  }

  lemma WithinBoth<T>(s: seq<T>, t: seq<T>, x: T)
    requires Within(s, t)
    ensures Within(s + [x], t + [x])
  {
    assert (s + [x])[..|s|] == s && (t + [x])[..|t|] == t;
  }

  lemma {:induction false} WithinDrop<T>(s: seq<T>, k: nat, t: seq<T>)
    requires Within(s, t) && k < |s|
    ensures Within(s[..k] + s[k + 1..], t)
    decreases |t|
  {
    var u, less := t[..|t| - 1], s[..k] + s[k + 1..];
    if Within(s, u) {
      WithinDrop(s, k, u);
    } else if k == |s| - 1 {
      assert less == s[..|s| - 1];
    } else {
      var front := s[..|s| - 1];
      WithinDrop(front, k, u);
      assert less[..|less| - 1] == front[..k] + front[k + 1..];
    }
  }

  lemma {:induction false} WithinFront<T>(s: seq<T>, rest: seq<T>, t: seq<T>)
    requires Within(s + rest, t)
    ensures Within(s, t)
    decreases |rest|
  {
    if rest == [] {
      assert s + rest == s;
    } else {
      WithinDrop(s + rest, |s + rest| - 1, t);
      assert (s + rest)[..|s + rest| - 1] + (s + rest)[|s + rest|..] == s + rest[..|rest| - 1];
      WithinFront(s, rest[..|rest| - 1], t);
    }
  }

  lemma WithinCut(s: seq<Waiter>, o: Order<Waiter>, w: Waiter, t: seq<Waiter>)
    requires o.Ok() && w in o.at && Within(s + o.list, t)
    ensures Within(s + o.Cut(w).list, t)
  {
    var k := o.at[w];
    WithinDrop(s + o.list, |s| + k, t);
    assert (s + o.list)[..|s| + k] + (s + o.list)[|s| + k + 1..] == s + o.Cut(w).list;
  }

  lemma {:induction false} WithinShorter<T>(s: seq<T>, t: seq<T>)
    requires Within(s, t)
    ensures |s| <= |t|
    decreases |t|
  {
    if s != [] {
      var u := t[..|t| - 1];
      if Within(s, u) { WithinShorter(s, u); } else { WithinShorter(s[..|s| - 1], u); }
    }
  }

  lemma CutShorter(o: Order<Waiter>, w: Waiter)
    requires o.Ok() && w in o.at
    ensures |o.Cut(w).list| == |o.list| - 1
  {
  }

  /** What a waiter's flags say. */
  datatype Flag = Flag(queued: bool, granted: bool, consumed: bool, scheduled: nat)

  /** Who is where, and what has happened so far: the flags of the waiters whose frames exist, the
      queue, those granted but not yet resumed, everybody who ever queued in order of arrival, those
      granted in order of grant, and whether nobody has left the queue but by a grant. */
  datatype Books = Books(flags: map<Waiter, Flag>, queue: Order<Waiter>, unsettled: Order<Waiter>,
                         arrivals: seq<Waiter>, grants: seq<Waiter>, whole: bool, aborted: bool)
  {
    /** The flags of a waiter say where it is, and the records agree: one that ever queued has been
        granted if and only if it is among the grants, and its handle was scheduled once, when it
        left the queue. */
    ghost predicate FlagOk(w: Waiter)
      requires w in flags
    {
      var f := flags[w];
      && w.need < WORD && (f.queued <==> w in queue.at) && (f.granted && !f.consumed <==> w in unsettled.at)
      && (f.queued ==> !f.granted && !f.consumed && w in arrivals)
      && (w in arrivals ==> f.queued || f.granted || aborted)
      && (w in grants <==> f.granted && w in arrivals)
      && f.scheduled == if w in arrivals && !f.queued then 1 else 0
    }

    /** Queued waiters are granted in the order they came, and nobody is missing from that order if
        and only if nobody left the queue without a grant. */
    ghost predicate InOrder() {
      && Within(grants + queue.list, arrivals) && (whole <==> grants + queue.list == arrivals)
      && (!whole ==> |grants| + |queue.list| < |arrivals|)
    }

    ghost predicate Ok() {
      && queue.Ok() && unsettled.Ok() && queue.at.Keys <= flags.Keys && unsettled.at.Keys <= flags.Keys
      && InOrder() && forall w :: w in flags ==> FlagOk(w)
    }

    ghost function Joined(w: Waiter): Books {
      this.(flags := flags[w := Flag(false, false, false, 0)])
    }

    ghost function Served(w: Waiter): Books
      requires w in flags
    {
      this.(flags := flags[w := flags[w].(granted := true, consumed := true)])
    }

    ghost function Queued(w: Waiter): Books
      requires w in flags
    {
      this.(flags := flags[w := flags[w].(queued := true)], queue := queue.Appended(w), arrivals := arrivals + [w])
    }

    ghost predicate Leads(w: Option<Waiter>) {
      queue.Ok() && queue.list != [] && w == Some(queue.list[0]) && w.value in flags && w.value in queue.at
    }

    ghost function Granted(w: Waiter): Books
      requires w in flags && queue.Ok() && w in queue.at
    {
      this.(flags := flags[w := flags[w].(queued := false, granted := true, scheduled := flags[w].scheduled + 1)],
            queue := queue.Cut(w), unsettled := unsettled.Appended(w), grants := grants + [w])
    }

    ghost function TurnedAway(w: Waiter): Books
      requires w in flags && queue.Ok() && w in queue.at
    {
      this.(flags := flags[w := flags[w].(queued := false, scheduled := flags[w].scheduled + 1)],
            queue := queue.Cut(w), whole := false)
    }

    ghost function Resumed(w: Waiter): Books
      requires w in flags && unsettled.Ok()
    {
      this.(flags := flags[w := flags[w].(consumed := true)],
            unsettled := if w in unsettled.at then unsettled.Cut(w) else unsettled)
    }

    ghost function Gone(w: Waiter): Books
      requires queue.Ok() && unsettled.Ok()
    {
      this.(flags := flags - {w}, queue := if w in queue.at then queue.Cut(w) else queue,
            unsettled := if w in unsettled.at then unsettled.Cut(w) else unsettled, whole := whole && w !in queue.at)
    }

    lemma JoinedOk(w: Waiter)
      requires Ok() && w !in flags && w.need < WORD && w !in arrivals && w !in grants
      ensures Joined(w).Ok()
    {
      hide Order.Ok, InOrder;
      var b := Joined(w);
      assert b.InOrder() by { InOrderSame(b); }
      forall x | x in b.flags ensures b.FlagOk(x) { assert x == w || FlagOk(x); }
    }

    /** The order depends on the queue and the records alone. */
    lemma InOrderSame(b: Books)
      requires InOrder() && b.queue == queue && b.arrivals == arrivals && b.grants == grants && b.whole == whole
      ensures b.InOrder()
    {
    }

    lemma ServedOk(w: Waiter)
      requires Ok() && w in flags && !flags[w].queued && !flags[w].granted && !flags[w].consumed && !aborted
      ensures Served(w).Ok()
    {
      hide Order.Ok, InOrder;
      var b := Served(w);
      assert b.InOrder() by { InOrderSame(b); }
      forall x | x in b.flags ensures b.FlagOk(x) { assert FlagOk(x); }
    }

    lemma QueuedOk(w: Waiter)
      requires Ok() && w in flags && !flags[w].queued && !flags[w].granted && !flags[w].consumed && !aborted
      ensures Queued(w).Ok() && Queued(w).queue.list == queue.list + [w]
    {
      hide Order.Ok, InOrder, Order.Appended;
      assert w !in queue.at && FlagOk(w);
      queue.Appending(w);
      AppendedList(queue, w);
      var b := Queued(w);
      assert b.InOrder() by { LongerOrder(w); }
      forall x | x in b.flags ensures b.FlagOk(x) { assert FlagOk(x); }
    }

    lemma LongerOrder(w: Waiter)
      requires InOrder() && w in flags && queue.Appended(w).list == queue.list + [w]
      ensures Queued(w).InOrder()
    {
      hide Order.Appended, Within;
      WithinBoth(grants + queue.list, arrivals, w);
      assert grants + (queue.list + [w]) == grants + queue.list + [w];
      assert (grants + queue.list + [w])[..|grants + queue.list|] == grants + queue.list;
      assert (arrivals + [w])[..|arrivals|] == arrivals;
    }

    lemma GrantedOk(w: Waiter)
      requires Ok() && queue.list != [] && w == queue.list[0]
      ensures w in flags && w in queue.at && w !in unsettled.at && Granted(w).Ok()
      ensures Granted(w).queue.list == queue.list[1..]
    {
      queue.CutFirst(w);
      hide Order.Ok, InOrder, Order.Appended, Order.Cut;
      assert FlagOk(w);
      queue.CutKeys(w);
      unsettled.Appending(w);
      var b := Granted(w);
      assert b.InOrder() by { GrantKeepsOrder(w); }
      forall x | x in b.flags ensures b.FlagOk(x) {
        assert FlagOk(x);
        GrantedFlag(w, x);
      }
    }

    lemma GrantedFlag(w: Waiter, x: Waiter)
      requires w in flags && x in flags && FlagOk(w) && FlagOk(x) && queue.Ok() && w in queue.at
      requires queue.Cut(w).at.Keys == queue.at.Keys - {w} && unsettled.Appended(w).at.Keys == unsettled.at.Keys + {w}
      ensures Granted(w).FlagOk(x)
    {
      hide Order.Ok, Order.Appended, Order.Cut;
      var b := Granted(w);
      assert x in b.queue.at <==> x in b.queue.at.Keys;
      assert x in b.unsettled.at <==> x in b.unsettled.at.Keys;
      assert x in b.grants <==> x in grants || x == w;
    }

    lemma IsGranted(b: Books, w: Waiter)
      requires w in flags && queue.Ok() && w in queue.at
      requires b.flags == flags[w := flags[w].(queued := false)]
                          [w := flags[w].(queued := false, granted := true, scheduled := flags[w].scheduled + 1)]
      requires b.queue == queue.Cut(w) && b.unsettled == unsettled.Appended(w) && b.grants == grants + [w]
      requires b.arrivals == arrivals && b.whole == whole && b.aborted == aborted
      ensures b == Granted(w)
    {
      hide Order.Ok, Order.Cut, Order.Appended;
    }

    lemma GrantKeepsOrder(w: Waiter)
      requires InOrder() && queue.Ok() && queue.list != [] && w == queue.list[0] && w in queue.at && w in flags
      requires queue.Cut(w).list == queue.list[1..]
      ensures Granted(w).InOrder()
    {
      hide Order.Ok, Order.Cut, Order.Appended, Within;
      assert grants + [w] + queue.list[1..] == grants + queue.list;
    }

    lemma TurnedAwayOk(w: Waiter)
      requires Ok() && aborted && w in queue.at
      ensures w in flags && TurnedAway(w).Ok()
    {
      hide Order.Ok, InOrder, Order.Cut;
      assert FlagOk(w);
      queue.CutKeys(w);
      var b := TurnedAway(w);
      assert b.InOrder() by {
        ShorterOrder(w);
        this.(queue := queue.Cut(w), whole := false).InOrderSame(b);
      }
      forall x | x in b.flags ensures b.FlagOk(x) { assert FlagOk(x); }
    }

    lemma IsTurnedAway(b: Books, w: Waiter)
      requires w in flags && queue.Ok() && w in queue.at
      requires b.flags == flags[w := flags[w].(queued := false)]
                          [w := flags[w].(queued := false, scheduled := flags[w].scheduled + 1)]
      requires b.queue == queue.Cut(w) && b.unsettled == unsettled && b.grants == grants
      requires b.arrivals == arrivals && !b.whole && b.aborted == aborted
      ensures b == TurnedAway(w)
    {
      hide Order.Ok, Order.Cut;
    }

    lemma ShorterOrder(w: Waiter)
      requires InOrder() && queue.Ok() && w in queue.at
      ensures this.(queue := queue.Cut(w), whole := false).InOrder()
    {
      WithinCut(grants, queue, w, arrivals);
      WithinShorter(grants + queue.list, arrivals);
      CutShorter(queue, w);
    }

    lemma ResumedOk(w: Waiter)
      requires Ok() && w in flags && !flags[w].queued
      ensures Resumed(w).Ok()
    {
      hide Order.Ok, InOrder, Order.Cut;
      if w in unsettled.at { unsettled.CutKeys(w); }
      var b := Resumed(w);
      assert b.InOrder() by { InOrderSame(b); }
      forall x | x in b.flags ensures b.FlagOk(x) { assert FlagOk(x); }
    }

    lemma GoneOk(w: Waiter)
      requires Ok() && w in flags
      ensures Gone(w).Ok()
    {
      hide Order.Ok, InOrder, Order.Cut;
      if w in unsettled.at { unsettled.CutKeys(w); }
      var b := Gone(w);
      assert b.InOrder() by {
        if w in queue.at {
          ShorterOrder(w);
          this.(queue := queue.Cut(w), whole := false).InOrderSame(b);
        } else {
          InOrderSame(b);
        }
      }
      if w in queue.at { queue.CutKeys(w); }
      forall x | x in b.flags ensures b.FlagOk(x) { assert FlagOk(x); }
    }

    lemma AbortedOk()
      requires Ok()
      ensures this.(aborted := true).Ok()
    {
      hide Order.Ok, InOrder;
      var b := this.(aborted := true);
      assert b.InOrder() by { InOrderSame(b); }
      forall x | x in b.flags ensures b.FlagOk(x) { assert FlagOk(x); }
    }

    lemma Facts(w: Waiter)
      requires Ok() && w in flags
      ensures FlagOk(w) && queue.Ok() && unsettled.Ok()
    {
    }

    lemma QueuedIff(w: Waiter)
      requires Ok() && w in flags
      ensures flags[w].queued <==> w in queue.list
    {
      assert FlagOk(w);
      if w in queue.at { assert queue.list[queue.at[w]] == w; }
    }
  }

  /** With `from` permits at hand, exactly the waiters at the front of the queue that they are enough
      for have been granted theirs, in order, and `left` are left. */
  ghost predicate PassedOn(was: Books, from: nat, now: Books, left: nat) {
    var k := Fitting(was.queue.list, from);
    && now.queue.list == was.queue.list[k..] && now.grants == was.grants + was.queue.list[..k]
    && left == from - Sum(was.queue.list[..k])
    && forall w :: w in was.flags && w in now.flags ==>
         (now.flags[w].granted <==> was.flags[w].granted || w in was.queue.list[..k])
  }

  /** The first `k` waiters have been passed what is theirs. */
  ghost predicate PassedUpTo(was: Books, from: nat, now: Books, left: nat, k: nat) {
    && k <= |was.queue.list| && now.queue.list == was.queue.list[k..] && now.grants == was.grants + was.queue.list[..k]
    && left == from - Sum(was.queue.list[..k])
    && Fitting(was.queue.list, from) == k + Fitting(was.queue.list[k..], left)
    && forall w :: w in was.flags && w in now.flags ==>
         (now.flags[w].granted <==> was.flags[w].granted || w in was.queue.list[..k])
  }

  lemma PassedNone(was: Books, from: nat)
    ensures PassedUpTo(was, from, was, from, 0)
  {
    assert was.queue.list[0..] == was.queue.list && was.queue.list[..0] == [];
  }

  lemma PassedOne(was: Books, from: nat, mid: Books, left: nat, k: nat)
    requires PassedUpTo(was, from, mid, left, k) && mid.queue.Ok() && mid.queue.list != []
    requires var w := mid.queue.list[0]; w in mid.flags && w in mid.queue.at && w.need <= left
    ensures var w := mid.queue.list[0];
            && PassedUpTo(was, from, mid.Granted(w), left - w.need, k + 1)
            && mid.Granted(w).queue.list == mid.queue.list[1..]
  {
    var list, w := was.queue.list, mid.queue.list[0];
    mid.queue.CutFirst(w);
    FittingNext(list, k, left);
    hide Order.Ok, Order.Cut, Fitting, Sum;
    assert list[..k + 1] == list[..k] + [w];
    assert was.grants + list[..k] + [w] == was.grants + list[..k + 1];
  }

  lemma PassedAll(was: Books, from: nat, now: Books, left: nat, k: nat)
    requires PassedUpTo(was, from, now, left, k) && (now.queue.list == [] || now.queue.list[0].need > left)
    ensures PassedOn(was, from, now, left)
  {
    FittingEnds(now.queue.list, left);
  }

  lemma GrantsGrow(was: Books, from: nat, now: Books, left: nat)
    requires PassedOn(was, from, now, left)
    ensures was.grants <= now.grants
  {
    hide Fitting, Sum;
  }

  /** A waiter that was not queued is not missed. */
  lemma PassedOnWithout(was: Books, w: Waiter, from: nat, now: Books, left: nat)
    requires was.Ok() && w in was.flags && w !in was.queue.at && w !in now.flags
    requires PassedOn(was.Gone(w), from, now, left)
    ensures PassedOn(was, from, now, left)
  {
    hide Books.Ok, Fitting, Sum;
  }

  class Semaphore {
    const initial: nat
    var count: nat
    var head: Option<Waiter>
    var tail: Option<Waiter>
    var aborted: bool
    var abortErr: nat
    // see Books
    ghost var waiters: set<Waiter>
    ghost var queue: Order<Waiter>
    ghost var unsettled: Order<Waiter>
    ghost var arrivals: seq<Waiter>
    ghost var grants: seq<Waiter>
    ghost var whole: bool
    // permits in callers' hands or used up, permits released, and how often the count wrapped
    ghost var taken: nat
    ghost var released: nat
    ghost var wraps: nat

    ghost function Wires(): map<Waiter, Pointers<Waiter>>
      reads `waiters, waiters`prev, waiters`next
    {
      map w | w in waiters :: Pointers(w.prev, w.next)
    }

    ghost function Flags(): map<Waiter, Flag>
      reads `waiters, waiters`queued, waiters`granted, waiters`consumed, waiters`scheduled
    {
      map w | w in waiters :: Flag(w.queued, w.granted, w.consumed, w.scheduled)
    }

    ghost function Now(): Books
      reads `waiters, `queue, `unsettled, `arrivals, `grants, `whole, `aborted
      reads waiters`queued, waiters`granted, waiters`consumed, waiters`scheduled
    {
      Books(Flags(), queue, unsettled, arrivals, grants, whole, aborted)
    }

    ghost predicate Linked()
      reads `waiters, `queue, `head, `tail, waiters`prev, waiters`next
      ensures Linked() ==> queue.Ok() && queue.at.Keys <= waiters
    {
      Strung(queue, head, Wires()) && tail == queue.Last()
    }

    /** No permit is lost or made. */
    ghost predicate Balanced()
      reads `count, `unsettled, `taken, `released, `wraps
    {
      count < WORD && count + Sum(unsettled.list) + taken + WORD * wraps == initial + released
    }

    ghost predicate Valid()
      reads this, waiters
    {
      Linked() && Now().Ok() && Balanced() && (aborted ==> queue.list == [])
    }

    /** The longest waiter needs more than there is. */
    ghost predicate HeadWaits()
      reads `queue, `count
    {
      queue.list != [] ==> queue.list[0].need > count
    }

    constructor (initial: nat)
      requires initial < WORD
      ensures Valid() && HeadWaits() && this.initial == count == initial && waiters == {} && queue.list == []
      ensures !aborted && arrivals == [] && grants == [] && whole
      ensures released == 0 && taken == 0 && wraps == 0
    {
      this.initial, count, head, tail, aborted, abortErr := initial, initial, None, None, false, 0;
      waiters, queue, unsettled := {}, Order([], map[]), Order([], map[]);
      taken, released, wraps, arrivals, grants, whole := 0, 0, 0, [], [], true;
      new;
      StrungNone(Wires());
    }

    /** The pointer writes of await_suspend(). */
    method Link(w: Waiter)
      requires Linked() && w in waiters && w !in queue.at
      modifies `head, `tail, `queue, waiters`prev, waiters`next
      ensures Linked() && queue == old(queue).Appended(w) && queue.at.Keys == old(queue).at.Keys + {w}
    {
      hide Strung, Order.Appended, Order.Last;
      StrungAppend(queue, head, Wires(), w);
      LastNone(queue, head, Wires());
      w.prev := tail;
      w.next := None;
      if tail.Some? {
        tail.value.next := Some(w);
      } else {
        head := Some(w);
      }
      tail := Some(w);
      queue := queue.Appended(w);
      assert Wires() == AppendWires(old(Wires()), old(tail), w);
    }

    /** The pointer writes of unlink(). */
    method Splice(w: Waiter)
      requires Linked() && w in queue.at
      modifies `head, `tail, `queue, waiters`prev, waiters`next
      ensures Linked() && queue == old(queue).Cut(w) && queue.at.Keys == old(queue).at.Keys - {w}
    {
      hide Strung, Order.Cut, Order.Last, Order.Ok, Order.Next, Order.Prev;
      StrungCut(queue, head, Wires(), w);
      TailCut(queue, head, Wires(), w);
      queue := queue.Cut(w);
      Bridge(w);
    }

    /** The neighbours of a waiter are linked past it. */
    method Bridge(w: Waiter)
      requires w in waiters
      requires w.prev.Some? ==> w.prev.value in waiters && w.prev.value != w
      requires w.next.Some? ==> w.next.value in waiters && w.next.value != w
      modifies `head, `tail, waiters`prev, waiters`next
      ensures Wires() == CutWires(old(Wires()), w)
      ensures head == (if old(w.prev).Some? then old(head) else old(w.next))
      ensures tail == (if old(w.next).Some? then old(tail) else old(w.prev))
    {
      if w.prev.Some? { w.prev.value.next := w.next; } else { head := w.next; }
      if w.next.Some? { w.next.value.prev := w.prev; } else { tail := w.prev; }
      w.next := None;
      w.prev := None;
    }

    /** A waiter whose frame comes into being. */
    ghost method Adopt(w: Waiter)
      requires Valid() && w !in waiters && w.need < WORD && w.prev == None && w.next == None && !w.queued
      requires !w.granted && !w.consumed && w.scheduled == 0 && w !in arrivals && w !in grants
      modifies `waiters
      ensures Valid() && waiters == old(waiters) + {w} && (old(HeadWaits()) ==> HeadWaits())
    {
      hide Strung, Books.Ok, Sum;
      StrungNew(queue, head, Wires(), w);
      Now().JoinedOk(w);
      waiters := waiters + {w};
      assert Wires() == old(Wires())[w := Pointers(None, None)];
      assert Flags() == old(Flags())[w := Flag(false, false, false, 0)];
      assert Now() == old(Now()).Joined(w);
    }

    /** Permits come back; the count is a 32-bit word. */
    method Add(n: nat)
      requires n < WORD && count < WORD
      modifies `count, `wraps
      ensures count < WORD && count + WORD * wraps == old(count + WORD * wraps) + n
      ensures count == Word(old(count) + n)
    {
      if count + n >= WORD {
        count, wraps := count + n - WORD, wraps + 1;
      } else {
        count := count + n;
      }
    }

    /** The fast path takes what there is, whoever may be queued. */
    method AwaitReady(w: Waiter) returns (ready: bool)
      requires Valid() && w in waiters && !w.queued && !w.granted && !w.consumed
      modifies `count, `taken, w`err, w`granted, w`consumed
      ensures Valid() && (old(HeadWaits()) ==> HeadWaits())
      ensures ready <==> aborted || old(count) >= w.need
      ensures w.granted <==> ready && !aborted
      ensures w.consumed == ready && count == if w.granted then old(count) - w.need else old(count)
      ensures aborted ==> w.err == Some(abortErr)
      ensures taken == old(taken) + if w.granted then w.need else 0
    {
      hide Linked, Flags, Books.Ok, Order.Ok, Order.Cut, Sum;
      Known(w);
      Now().Facts(w);
      if aborted {
        w.err := Some(abortErr);
        Refuse(w);
        return true;
      }
      if count >= w.need {
        count := count - w.need;
        taken := taken + w.need;
        Serve(w);
        return true;
      }
      return false;
    }

    /** A waiter that does not have to wait. */
    method Serve(w: Waiter)
      requires Now().Ok() && w in waiters && !w.queued && !w.granted && !w.consumed && !aborted
      modifies w`granted, w`consumed
      ensures Now().Ok() && w.granted && w.consumed
    {
      hide Flags, Books.Ok;
      Known(w);
      ghost var was := Now();
      was.ServedOk(w);
      MarkGranted(w);
      Consume(w);
      assert Now() == was.Served(w);
    }

    /** A waiter that gets nothing. */
    method Refuse(w: Waiter)
      requires Now().Ok() && w in waiters && !w.queued && !w.granted && !w.consumed
      modifies w`consumed
      ensures Now().Ok() && w.consumed
    {
      hide Flags, Books.Ok, Order.Ok, Order.Cut;
      Known(w);
      ghost var was := Now();
      was.Facts(w);
      was.ResumedOk(w);
      Consume(w);
      assert Now() == was.Resumed(w);
    }

    /** The waiter joins the end of the queue. */
    method AwaitSuspend(w: Waiter)
      requires Valid() && w in waiters && !w.queued && !w.granted && !w.consumed && !aborted && count < w.need
      modifies `head, `tail, `queue, `arrivals, w`queued, waiters`prev, waiters`next
      ensures Valid() && (old(HeadWaits()) ==> HeadWaits())
      ensures queue.list == old(queue.list) + [w] && arrivals == old(arrivals) + [w]
    {
      hide Linked, Flags, Books.Ok, Order.Ok, Order.Appended, Sum;
      Known(w);
      Now().Facts(w);
      Now().QueuedOk(w);
      Enlist(w);
      Link(w);
      arrivals := arrivals + [w];
      assert Now() == old(Now()).Queued(w);
    }

    method Unlink(w: Waiter)
      requires Linked() && w in queue.at && w in waiters
      modifies `head, `tail, `queue, waiters`prev, waiters`next, w`queued
      ensures Linked() && !w.queued && queue == old(queue).Cut(w) && w !in queue.at
      ensures Flags() == old(Flags())[w := old(Flags())[w].(queued := false)]
    {
      hide Linked, Order.Ok, Order.Cut;
      Splice(w);
      w.queued := false;
    }

    method Enlist(w: Waiter)
      requires w in waiters
      modifies w`queued
      ensures w.queued && Flags() == old(Flags())[w := old(Flags())[w].(queued := true)]
    {
      w.queued := true;
    }

    /** The wait is over for the waiter, with what it has. */
    method Consume(w: Waiter)
      requires w in waiters
      modifies w`consumed
      ensures w.consumed && Flags() == old(Flags())[w := old(Flags())[w].(consumed := true)]
    {
      w.consumed := true;
    }

    method MarkGranted(w: Waiter)
      requires w in waiters
      modifies w`granted
      ensures w.granted && Flags() == old(Flags())[w := old(Flags())[w].(granted := true)]
    {
      w.granted := true;
    }

    /** The waiter's handle goes to the ready queue. */
    method Schedule(w: Waiter)
      requires w in waiters
      modifies w`scheduled
      ensures Flags() == old(Flags())[w := old(Flags())[w].(scheduled := old(Flags())[w].scheduled + 1)]
    {
      w.scheduled := w.scheduled + 1;
    }

    method Favour(w: Waiter)
      requires w in waiters
      modifies w`granted, w`scheduled
      ensures var f := old(Flags())[w];
              Flags() == old(Flags())[w := f.(granted := true, scheduled := f.scheduled + 1)]
    {
      hide Flags;
      Known(w);
      MarkGranted(w);
      Schedule(w);
    }

    /** A grant is settled: the waiter resumed, or it died before it could. */
    ghost method Settle(w: Waiter)
      requires unsettled.Ok() && w in unsettled.at
      modifies `unsettled
      ensures unsettled == old(unsettled).Cut(w) && old(Sum(unsettled.list)) == Sum(unsettled.list) + w.need
    {
      hide Order.Ok, Order.Cut, Sum;
      SumCut(unsettled, w);
      unsettled := unsettled.Cut(w);
    }

    lemma Known(w: Waiter)
      ensures w in Flags() <==> w in waiters
      ensures w in waiters ==> Flags()[w] == Flag(w.queued, w.granted, w.consumed, w.scheduled)
    {
    }

    lemma Front()
      requires Linked()
      ensures head == if queue.list == [] then None else Some(queue.list[0])
      ensures queue.list != [] ==> queue.list[0] in queue.at && queue.list[0] in waiters
    {
      hide Order.Ok, Order.Last;
      HeadIsFirst(queue, head, Wires());
    }

    /** The front of the queue is granted its permits. */
    method GrantHead()
      requires Valid() && head.Some? && head.value.need <= count
      modifies `count, `head, `tail, `queue, `unsettled, `grants, waiters`prev, waiters`next, waiters`queued
      modifies waiters`granted, waiters`scheduled
      ensures Valid() && old(Now().Leads(head)) && Now() == old(Now()).Granted(old(head).value)
      ensures count == old(count) - old(head).value.need
    {
      hide Linked, Flags, Books.Ok, Books.Granted, Order.Ok, Sum;
      Front();
      count := count - head.value.need;
      Award();
    }

    /** The front of the queue leaves it with its grant. */
    method Award()
      requires Linked() && Now().Ok() && head.Some?
      modifies `head, `tail, `queue, `unsettled, `grants, waiters`prev, waiters`next, waiters`queued
      modifies waiters`granted, waiters`scheduled
      ensures Linked() && Now().Ok() && old(Now().Leads(head)) && Now() == old(Now()).Granted(old(head).value)
      ensures Sum(unsettled.list) == old(Sum(unsettled.list)) + old(head).value.need
    {
      hide Linked, Flags, Books.Ok, Books.Granted, Order.Ok, Order.Cut, Order.Appended, Sum;
      Front();
      ghost var was := Now();
      var w := head.value;
      was.GrantedOk(w);
      SumAppended(unsettled, w);
      Unlink(w);
      Favour(w);
      unsettled, grants := unsettled.Appended(w), grants + [w];
      was.IsGranted(Now(), w);
    }

    /** The grant loop: waiters are granted from the front for as long as they fit. */
    method WakeReady()
      requires Valid()
      modifies `count, `head, `tail, `queue, `unsettled, `grants, waiters`prev, waiters`next, waiters`queued
      modifies waiters`granted, waiters`scheduled
      ensures Valid() && HeadWaits() && PassedOn(old(Now()), old(count), Now(), count)
    {
      hide Valid, Flags, PassedUpTo, PassedOn, Books.Granted;
      ghost var was, from, k := Now(), count, 0;
      PassedNone(was, from);
      HeadKnown();
      while head.Some? && head.value.need <= count
        invariant Valid() && PassedUpTo(was, from, Now(), count, k)
        invariant head == if queue.list == [] then None else Some(queue.list[0])
        decreases |queue.list|
      {
        ghost var mid, left := Now(), count;
        GrantHead();
        PassedOne(was, from, mid, left, k);
        HeadKnown();
        k := k + 1;
      }
      PassedAll(was, from, Now(), count, k);
    }

    lemma HeadKnown()
      requires Valid()
      ensures head == if queue.list == [] then None else Some(queue.list[0])
    {
      Front();
    }

    /** The waiter runs again: what it was granted is its own now. */
    method AwaitResume(w: Waiter) returns (ok: bool)
      requires Valid() && w in waiters && !w.queued && (w.granted || w.err.Some?)
      modifies w`consumed, `unsettled, `taken
      ensures Valid() && w.consumed && ok == w.granted && (old(HeadWaits()) ==> HeadWaits())
      ensures taken == old(taken) + if w.granted && !old(w.consumed) then w.need else 0
    {
      hide Linked, Flags, Books.Ok, Order.Ok, Order.Cut, Sum;
      Known(w);
      Now().Facts(w);
      Now().ResumedOk(w);
      if w.granted && !w.consumed {
        Settle(w);
        taken := taken + w.need;
      }
      Consume(w);
      assert Now() == old(Now()).Resumed(w);
      return w.granted;
    }

    method TryAcquire(n: nat) returns (ok: bool)
      requires Valid() && n < WORD
      modifies `count, `taken
      ensures Valid() && (old(HeadWaits()) ==> HeadWaits())
      ensures ok <==> !aborted && old(count) >= n
      ensures count == (if ok then old(count) - n else old(count)) && taken == old(taken) + if ok then n else 0
    {
      hide Linked, Books.Ok, Sum;
      if aborted || count < n { return false; }
      count := count - n;
      taken := taken + n;
      return true;
    }

    method Release(n: nat)
      requires Valid() && n < WORD
      modifies `count, `wraps, `released, `head, `tail, `queue, `unsettled, `grants, waiters`prev, waiters`next
      modifies waiters`queued, waiters`granted, waiters`scheduled
      ensures Valid() && released == old(released) + n && old(grants) <= grants
      ensures (n > 0 && !aborted) || old(HeadWaits()) ==> HeadWaits()
      ensures n > 0 && !aborted ==> PassedOn(old(Now()), Word(old(count) + n), Now(), count)
      ensures n == 0 || aborted ==> queue == old(queue) && grants == old(grants) && count == Word(old(count) + n)
      ensures n == 0 || aborted ==> forall w :: w in waiters ==> w.granted == old(w.granted)
    {
      hide Valid, PassedOn, Word;
      Narrow(n);
      if n == 0 { return; }
      Credit(n);
      AbortedWaits();
      if !aborted {
        WakeReady();
        GrantsGrow(old(Now()), Word(old(count) + n), Now(), count);
      }
    }

    lemma Narrow(n: nat)
      requires Valid()
      ensures n == 0 ==> Word(count + n) == count
    {
      hide Linked, Books.Ok, Sum;
    }

    method Credit(n: nat)
      requires Valid() && n < WORD
      modifies `count, `wraps, `released
      ensures Valid() && released == old(released) + n && count == Word(old(count) + n)
    {
      hide Linked, Books.Ok, Sum;
      Add(n);
      released := released + n;
    }

    /** A frame dies. Permits granted to it go back and are passed on; its place in the queue is
        closed, but the grant loop does not run for that. */
    method Destroy(w: Waiter)
      requires Valid() && w in waiters
      modifies `unsettled, `waiters, `count, `wraps, `head, `tail, `queue, `grants, `whole
      modifies w`consumed, waiters`prev, waiters`next, waiters`queued, waiters`granted, waiters`scheduled
      ensures Valid() && waiters == old(waiters) - {w} && whole == (old(whole) && !old(w.queued))
      ensures old(w.queued) ==> count == old(count) && old(queue.Ok() && w in queue.at) && queue == old(queue).Cut(w)
      ensures old(!w.queued && !(w.granted && !w.consumed)) ==> queue == old(queue) && count == old(count)
      ensures old(w.granted && !w.consumed) && !aborted ==>
                HeadWaits() && PassedOn(old(Now()), Word(old(count) + w.need), Now(), count)
      ensures old(w.granted && !w.consumed) && aborted ==> queue == old(queue) && count == Word(old(count) + w.need)
      ensures old(!(w.granted && !w.consumed)) || aborted ==>
                grants == old(grants) && forall x :: x in waiters ==> x.granted == old(x.granted)
      ensures old(grants) <= grants
    {
      hide Valid, PassedOn, Word, Order.Ok, Order.Cut;
      Apart(w);
      if w.queued {
        LeaveQueue(w);
      } else if w.granted && !w.consumed {
        GiveBack(w);
      } else {
        LeaveQuietly(w);
      }
    }

    /** The permits of a grant that nobody will use go to the next in the queue they are enough for. */
    method GiveBack(w: Waiter)
      requires Valid() && w in waiters && w.granted && !w.consumed
      modifies `unsettled, `waiters, `count, `wraps, `head, `tail, `queue, `grants
      modifies w`consumed, waiters`prev, waiters`next, waiters`queued, waiters`granted, waiters`scheduled
      ensures Valid() && waiters == old(waiters) - {w} && old(grants) <= grants
      ensures !aborted ==> HeadWaits() && PassedOn(old(Now()), Word(old(count) + w.need), Now(), count)
      ensures aborted ==> queue == old(queue) && grants == old(grants) && count == Word(old(count) + w.need)
      ensures aborted ==> forall x :: x in waiters ==> x.granted == old(x.granted)
    {
      hide Valid, PassedOn, Word, HeadWaits, Flags, Books.Gone;
      Opened(w);
      Repay(w);
      if !aborted {
        WakeReady();
        Known(w);
        PassedOnWithout(old(Now()), w, Word(old(count) + w.need), Now(), count);
        GrantsGrow(old(Now()), Word(old(count) + w.need), Now(), count);
      }
    }

    /** A waiter that has been granted is not in the queue. */
    lemma Opened(w: Waiter)
      requires Valid() && w in waiters && w.granted
      ensures Now().Ok() && w in Now().flags && w !in queue.at
    {
      Now().Facts(w);
    }

    lemma Apart(w: Waiter)
      requires Valid() && w in waiters
      ensures w.queued ==> !w.granted
    {
      Now().Facts(w);
    }

    method LeaveQueue(w: Waiter)
      requires Valid() && w in waiters && w.queued
      modifies `head, `tail, `queue, `waiters, `whole, waiters`prev, waiters`next, w`queued
      ensures Valid() && waiters == old(waiters) - {w} && !whole
      ensures old(queue.Ok() && w in queue.at) && queue == old(queue).Cut(w)
    {
      hide Linked, Flags, Books.Ok, Order.Ok, Order.Cut, Sum;
      Known(w);
      Now().Facts(w);
      Now().GoneOk(w);
      NobodyWhenAborted(w);
      Unlink(w);
      whole := false;
      Leave(w);
      assert Now() == old(Now()).Gone(w);
    }

    ghost method LeaveQuietly(w: Waiter)
      requires Valid() && w in waiters && !w.queued && !(w.granted && !w.consumed)
      modifies `waiters
      ensures Valid() && waiters == old(waiters) - {w}
    {
      hide Linked, Flags, Books.Ok, Order.Ok, Order.Cut, Sum;
      Known(w);
      Now().Facts(w);
      Now().GoneOk(w);
      Leave(w);
      assert Now() == old(Now()).Gone(w);
    }

    /** The permits of a grant that nobody will use. */
    method Repay(w: Waiter)
      requires Valid() && w in waiters && w.granted && !w.consumed
      modifies `unsettled, `waiters, `count, `wraps, w`consumed
      ensures Valid() && waiters == old(waiters) - {w} && count == Word(old(count) + w.need)
      ensures old(queue.Ok() && unsettled.Ok()) && Now() == old(Now()).Gone(w) && queue == old(queue)
    {
      hide Linked, Flags, Books.Ok, Order.Ok, Order.Cut, Sum;
      Known(w);
      Now().Facts(w);
      Now().GoneOk(w);
      Settle(w);
      Leave(w);
      w.consumed := true;
      Add(w.need);
      assert Now() == old(Now()).Gone(w);
    }

    lemma NobodyWhenAborted(w: Waiter)
      requires Valid() && w in waiters
      ensures aborted ==> !w.queued
    {
      hide Order.Ok;
      Now().QueuedIff(w);
    }

    ghost method Leave(w: Waiter)
      requires Linked() && w in waiters && w !in queue.at
      modifies `waiters
      ensures Linked() && waiters == old(waiters) - {w} && Flags() == old(Flags()) - {w}
    {
      hide Strung, Order.Ok, Order.Last;
      StrungWithout(queue, head, Wires(), w);
      waiters := waiters - {w};
      assert Wires() == old(Wires()) - {w};
    }

    /** One turn of abort()'s loop. */
    method TurnAwayHead(err: nat)
      requires Linked() && Now().Ok() && aborted && head.Some?
      modifies `head, `tail, `queue, `whole, waiters`prev, waiters`next, head.value`queued, head.value`err
      modifies head.value`scheduled
      ensures Linked() && Now().Ok() && !whole && |queue.list| < |old(queue.list)| && old(head).value in waiters
      ensures old(head).value.err == Some(err) && !old(head).value.queued
    {
      hide Linked, Flags, Books.Ok, Books.TurnedAway, Order.Ok, Order.Cut;
      Front();
      ghost var was := Now();
      var w := head.value;
      was.TurnedAwayOk(w);
      CutShorter(queue, w);
      Unlink(w);
      w.err := Some(err);
      Schedule(w);
      whole := false;
      was.IsTurnedAway(Now(), w);
    }

    /** The loop of abort(). */
    method TurnAway(err: nat)
      requires Linked() && Now().Ok() && aborted
      modifies `head, `tail, `queue, `whole, waiters`prev, waiters`next, waiters`queued, waiters`err, waiters`scheduled
      ensures Linked() && Now().Ok() && queue.list == [] && whole == (old(whole) && old(queue.list) == [])
      ensures forall w :: w in waiters && old(w.queued) && !w.queued ==> w.err == Some(err)
    {
      hide Linked, Flags, Books.Ok, Order.Ok;
      Front();
      while head.Some?
        invariant Linked() && Now().Ok() && head == if queue.list == [] then None else Some(queue.list[0])
        invariant whole == (old(whole) && queue.list == old(queue.list)) && |queue.list| <= |old(queue.list)|
        invariant forall w :: w in waiters && old(w.queued) && !w.queued ==> w.err == Some(err)
        decreases |queue.list|
      {
        Front();
        TurnAwayHead(err);
        Front();
      }
    }

    /** Teardown: every queued waiter is turned away. */
    method Abort(err: nat)
      requires Valid()
      modifies `aborted, `abortErr, `head, `tail, `queue, `whole, waiters`prev, waiters`next, waiters`queued
      modifies waiters`err, waiters`scheduled
      ensures Valid() && aborted && HeadWaits() && queue.list == [] && whole == (old(whole) && old(queue.list) == [])
      ensures !old(aborted) ==> forall w :: w in waiters && old(w.queued) ==> w.err == Some(err)
      ensures forall w :: w in waiters ==> !w.queued
      ensures abortErr == if old(aborted) then old(abortErr) else err
      ensures old(aborted) ==> forall w :: w in waiters ==> w.err == old(w.err)
    {
      hide Linked, Books.Ok, Order.Ok, Sum;
      if !aborted {
        Now().AbortedOk();
        aborted, abortErr := true, err;
        TurnAway(err);
      }
      forall w | w in waiters ensures !w.queued { NobodyWhenAborted(w); }
    }

    /** One thing a waiter may do. A queued one is destroyed only if `harsh`. */
    method WaiterTurn(w: Waiter, act: nat, harsh: bool) returns (dead: bool)
      requires Valid() && w in waiters
      modifies `count, `wraps, `taken, `arrivals, `unsettled, `waiters, `head, `tail, `queue, `grants, `whole, waiters
      ensures Valid() && waiters == (if dead then old(waiters) - {w} else old(waiters))
      ensures !harsh && old(HeadWaits()) ==> HeadWaits()
      ensures old(arrivals) <= arrivals && old(grants) <= grants && old(taken) <= taken
      ensures !harsh ==> whole == old(whole)
    {
      hide Linked, Balanced, Books.Ok, Order.Ok, Order.Cut;
      dead := false;
      if act == 0 && !w.queued && !w.granted && !w.consumed {
        var ready := AwaitReady(w);
        if !ready { AwaitSuspend(w); }
      } else if act == 1 && !w.queued && (w.granted || w.err.Some?) {
        var ok := AwaitResume(w);
      } else if act == 2 && (harsh || !w.queued) {
        NobodyWhenAborted(w);
        AbortedWaits();
        Destroy(w);
        AbortedWaits();
        dead := true;
      }
    }

    lemma Leads(w: Waiter)
      requires Valid() && w in waiters && queue.list != [] && w == queue.list[0]
      ensures w.queued && queue.Ok() && w in queue.at && queue.Cut(w).list == queue.list[1..]
    {
      Now().QueuedIff(w);
      queue.CutFirst(w);
    }

    lemma AbortedWaits()
      requires Valid()
      ensures aborted ==> HeadWaits()
    {
    }

    /** Any run of a semaphore. Permits are conserved and grants are in order of arrival
        throughout: whoever queued and still exists has been granted if and only if it is among the
        grants, and was scheduled once, when it left the queue. Unless a queued waiter is destroyed
        the first in the queue always needs more than there is, and unless there was an abort too,
        nobody is passed over. */
    method Drive(ws: seq<Waiter>, harsh: bool) returns (alive: set<Waiter>)
      requires Valid() && HeadWaits() && waiters == set w | w in ws
      modifies this, ws
      ensures Valid() && waiters == alive && (!harsh ==> HeadWaits())
      ensures count + Sum(unsettled.list) + taken + WORD * wraps == initial + released
      ensures forall w :: w in alive ==> (w.granted && !w.consumed <==> w in unsettled.at)
      ensures forall w :: w in alive && w in arrivals ==>
                && (w.granted <==> w in grants) && (w.queued <==> w in queue.list)
                && w.scheduled == if w.queued then 0 else 1
      ensures Within(grants + queue.list, arrivals) && (whole <==> grants + queue.list == arrivals)
      ensures !harsh && !aborted ==> whole == old(whole)
      ensures old(arrivals) <= arrivals && old(grants) <= grants && old(taken) <= taken && old(released) <= released
    {
      hide Valid, HeadWaits, PassedOn, Word, Within, Sum;
      alive := set w | w in ws;
      var turns: nat := *;
      while turns > 0
        invariant Valid() && waiters == alive && alive <= (set w | w in ws) && (!harsh ==> HeadWaits())
        invariant !harsh && !aborted ==> whole == old(whole)
        invariant old(arrivals) <= arrivals && old(grants) <= grants && old(taken) <= taken && old(released) <= released
      {
        turns := turns - 1;
        var i: nat, act: nat, n: nat := *, *, *;
        if i < |ws| && ws[i] in alive {
          var dead := WaiterTurn(ws[i], act, harsh);
          if dead { alive := alive - {ws[i]}; }
        } else if n < WORD {
          if act == 0 {
            Release(n);
          } else if act == 1 {
            var ok := TryAcquire(n);
          } else if act == 2 {
            Abort(n);
          }
        }
      }
      Accounts();
    }

    lemma Accounts()
      requires Valid()
      ensures count + Sum(unsettled.list) + taken + WORD * wraps == initial + released
      ensures Within(grants + queue.list, arrivals) && (whole <==> grants + queue.list == arrivals)
      ensures forall w :: w in waiters ==> (w.granted && !w.consumed <==> w in unsettled.at)
      ensures forall w :: w in waiters && w in arrivals ==>
                && (w.granted <==> w in grants) && (w.queued <==> w in queue.list)
                && w.scheduled == if w.queued then 0 else 1
    {
      forall w | w in waiters
        ensures (w.queued <==> w in queue.list) && Now().FlagOk(w)
      {
        Now().QueuedIff(w);
      }
    }
  }

  /** When a queued waiter leaves, the next in line is stranded if and only if the one that left
      stood in front and the next would fit: the grant loop does not run for that. */
  lemma StrandedIff(o: Order<Waiter>, w: Waiter, count: nat)
    requires o.Ok() && w in o.at && o.list[0].need > count
    ensures (o.Cut(w).list != [] && o.Cut(w).list[0].need <= count) <==>
              o.list[0] == w && |o.list| > 1 && o.list[1].need <= count
  {
    if o.list[0] == w { o.CutFirst(w); } else { assert o.at[w] > 0; }
  }

  /** Two waiters on an empty semaphore, the first with the greater need. */
  method TwoWaiters() returns (s: Semaphore, a: Waiter, b: Waiter)
    ensures fresh(s) && fresh(a) && fresh(b) && fresh(s.waiters) && s.Valid() && !s.aborted && s.count == 0
    ensures a in s.waiters && s.queue.list == [a, b] && a.need == 5 && b.need == 1
  {
    hide Semaphore.Valid, Semaphore.HeadWaits;
    s := new Semaphore(0);
    a := new Waiter(5);
    b := new Waiter(1);
    s.Adopt(a);
    s.Adopt(b);
    s.AwaitSuspend(a);
    s.AwaitSuspend(b);
  }

  /** It happens: two waiters, one permit, and the first waiter goes. */
  method Stranded() returns (s: Semaphore, b: Waiter)
    ensures s.Valid() && !s.aborted && s.queue.list == [b] && b.need <= s.count
  {
    hide Semaphore.Valid, Semaphore.HeadWaits, Semaphore.Flags, PassedOn, Order.Ok, Order.Cut;
    var a;
    s, a, b := TwoWaiters();
    ghost var was := s.Now();
    s.Release(1);
    NobodyFits(was, 1, s.Now(), s.count);
    s.Leads(a);
    s.Destroy(a);
  }

  lemma AppendedList(o: Order<Waiter>, w: Waiter)
    ensures o.Appended(w).list == o.list + [w]
  {
  }

  lemma NobodyFits(was: Books, from: nat, now: Books, left: nat)
    requires PassedOn(was, from, now, left) && was.queue.list != [] && was.queue.list[0].need > from
    ensures now.queue.list == was.queue.list && left == from
  {
  }

  lemma FittingEnds(queue: seq<Waiter>, count: nat)
    requires queue == [] || queue[0].need > count
    ensures Fitting(queue, count) == 0
  {
  }

  lemma FittingNext(queue: seq<Waiter>, k: nat, count: nat)
    requires k < |queue| && queue[k].need <= count
    ensures Fitting(queue[k..], count) == 1 + Fitting(queue[k + 1..], count - queue[k].need)
    ensures Sum(queue[..k + 1]) == Sum(queue[..k]) + queue[k].need && queue[k..][1..] == queue[k + 1..]
  {
    assert queue[k..][1..] == queue[k + 1..];
    assert queue[..k + 1] == queue[..k] + [queue[k]];
    SumConcat(queue[..k], [queue[k]]);
    assert [queue[k]][1..] == [];
  }

  lemma HeadIsFirst(o: Order<Waiter>, head: Option<Waiter>, w: map<Waiter, Pointers<Waiter>>)
    requires Strung(o, head, w)
    ensures head == if o.list == [] then None else Some(o.list[0])
    ensures o.list != [] ==> o.list[0] in o.at
  {
  }

  lemma LastNone(o: Order<Waiter>, head: Option<Waiter>, w: map<Waiter, Pointers<Waiter>>)
    requires Strung(o, head, w)
    ensures o.Last().None? ==> head.None?
  {
  }

  lemma TailCut(o: Order<Waiter>, head: Option<Waiter>, w: map<Waiter, Pointers<Waiter>>, n: Waiter)
    requires Strung(o, head, w) && n in o.at
    ensures o.Cut(n).Last() == if w[n].next.None? then w[n].prev else o.Last()
  {
    o.CutLast(n);
  }
}
