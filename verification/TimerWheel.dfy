/** The hashed timing wheel: 512 intrusive lists and a lap counter per node, against a plain
    table of ticks left. */
module TimerWheel {
  import opened Chains
  import opened Optional

  const SLOTS := 512
  // a lap counter is 32 bits wide
  const MAX_LAPS := 0x1_0000_0000
  const SPAN := SLOTS * MAX_LAPS

  // ------------------------------------------------------------- delay to ticks

  /** Integer division as the source's durations do it: towards zero. */
  function TruncDiv(a: int, b: int): int
    requires b > 0
  {
    if a >= 0 then a / b else -(-a / b)
  }

  /** The tick count arm() computes, converted to an unsigned 64-bit word. */
  function RequestedTicks(delay: int, tick: nat): (t: nat)
    requires tick > 0
    ensures t >= 1
  {
    var t := TruncDiv(delay + tick - 1, tick) % 0x1_0000_0000_0000_0000;
    if t == 0 then 1 else t
  }

  /** The tick count a wheel with 512 slots and 32-bit laps can hold. */
  function EffectiveTicks(delay: int, tick: nat): (t: nat)
    requires tick > 0
    ensures 1 <= t <= SPAN
  {
    (RequestedTicks(delay, tick) - 1) % SPAN + 1
  }

  /** `k` is the number of whole ticks that covers `delay`, and at least one. */
  predicate Covers(k: nat, delay: int, tick: nat) {
    k >= 1 && k * tick >= delay && (k == 1 || (k - 1) * tick < delay)
  }

  lemma Ceiling(a: nat, q: nat, r: nat, delay: nat, tick: nat)
    requires 0 < tick && a == delay + tick - 1 && a == q * tick + r && r < tick
    ensures q * tick >= delay && (q >= 1 ==> (q - 1) * tick < delay) && (q == 0 <==> delay == 0) && q <= delay
  {
    assert (q - 1) * tick == q * tick - tick;
    if q >= 1 { MulLe(1, q, tick); }
    if q > delay {
      MulLe(delay + 1, q, tick);
      assert (delay + 1) * tick == delay * tick + tick;
      MulLe(1, tick, delay);
    }
  }

  lemma CeilCovers(delay: int, tick: nat)
    requires tick > 0 && delay >= 0
    ensures var q := (delay + tick - 1) / tick;
            q * tick >= delay && (q >= 1 ==> (q - 1) * tick < delay) && (q == 0 <==> delay == 0) && q <= delay
  {
    var a := delay + tick - 1;
    Ceiling(a, a / tick, a % tick, delay, tick);
  }

  lemma InSpan(t: nat)
    requires t >= 1
    ensures var e := (t - 1) % SPAN + 1; if t <= SPAN then e == t else e < t
  {
  }

  lemma RequestedCovers(delay: int, tick: nat)
    requires 0 < tick && 0 <= delay && delay + tick <= 0x8000_0000_0000_0000
    ensures Covers(RequestedTicks(delay, tick), delay, tick)
  {
    hide RequestedTicks;
    CeilCovers(delay, tick);
    RequestedIs(delay, tick, (delay + tick - 1) / tick);
  }

  lemma RequestedIs(delay: int, tick: nat, q: nat)
    requires 0 < tick && 0 <= delay && q == (delay + tick - 1) / tick && q < 0x1_0000_0000_0000_0000
    ensures RequestedTicks(delay, tick) == if q == 0 then 1 else q
  {
    assert TruncDiv(delay + tick - 1, tick) == q;
  }

  /** A non-negative delay is held exactly, rounded up to whole ticks, if and only if it is
      within the wheel's span. */
  lemma DelayIsCovered(delay: int, tick: nat)
    requires 0 < tick && 0 <= delay && delay + tick <= 0x8000_0000_0000_0000
    ensures Covers(RequestedTicks(delay, tick), delay, tick)
    ensures Covers(EffectiveTicks(delay, tick), delay, tick) <==> RequestedTicks(delay, tick) <= SPAN
    ensures RequestedTicks(delay, tick) <= SPAN ==> EffectiveTicks(delay, tick) == RequestedTicks(delay, tick)
  {
    hide RequestedTicks;
    RequestedCovers(delay, tick);
    var t, e := RequestedTicks(delay, tick), EffectiveTicks(delay, tick);
    InSpan(t);
    if t > SPAN {
      MulLe(e, t - 1, tick);
    }
  }

  /** Past the span the delay is cut down: a millisecond tick and 2^41 + 1 milliseconds make one
      tick. */
  lemma LongDelayIsCut()
    ensures EffectiveTicks(SPAN + 1, 1) == 1 && !Covers(EffectiveTicks(SPAN + 1, 1), SPAN + 1, 1)
  {
    DelayIsCovered(SPAN + 1, 1);
  }

  /** A negative delay means the next tick if and only if it is less than two ticks back; any
      other wraps around to nearly 2^64 ticks. */
  lemma NegativeDelay(delay: int, tick: nat)
    requires 0 < tick && -0x8000_0000_0000_0000 <= delay < 0
    ensures RequestedTicks(delay, tick) == 1 <==> delay > 1 - 2 * tick
    ensures delay <= 1 - 2 * tick ==> RequestedTicks(delay, tick) >= 0x8000_0000_0000_0000
  {
    var q := TicksBack(delay, tick);
    hide TruncDiv;
    Wrapped(q);
  }

  lemma TicksBack(delay: int, tick: nat) returns (q: nat)
    requires 0 < tick && -0x8000_0000_0000_0000 <= delay < 0
    ensures TruncDiv(delay + tick - 1, tick) == 0 - q && q <= 0x8000_0000_0000_0000
    ensures q == 0 <==> delay > 1 - 2 * tick
  {
    var a := delay + tick - 1;
    q := Divided(if a < 0 then 0 - a else a, tick);
  }

  lemma Divided(a: nat, tick: nat) returns (q: nat)
    requires 0 < tick
    ensures q == a / tick && q <= a && (q == 0 <==> a < tick)
  {
    q := a / tick;
    Quotient(a, tick, q, a % tick);
  }

  lemma Wrapped(q: nat)
    requires q <= 0x8000_0000_0000_0000
    ensures (0 - q) % 0x1_0000_0000_0000_0000 == if q == 0 then 0 else 0x1_0000_0000_0000_0000 - q
  {
  }

  lemma Quotient(a: nat, tick: nat, q: nat, r: nat)
    requires 0 < tick && a == q * tick + r && r < tick
    ensures q <= a && (q == 0 <==> a < tick)
  {
    MulLe(1, tick, q);
    if q >= 1 { MulLe(1, q, tick); }
  }

  lemma MulLe(a: nat, b: nat, c: nat)
    requires a <= b
    ensures a * c <= b * c
  {
  }

  class TimerNode {
    var prev: Option<TimerNode>
    var next: Option<TimerNode>
    // laps still to wait through
    var rounds: nat
    // slot index, or -1 when not armed
    var slot: int
    // whether there is an expiry callback, and how often it has been called
    const hooked: bool
    var fires: nat

    constructor (hooked: bool)
      ensures prev == None && next == None && rounds == 0 && slot == -1 && fires == 0 && this.hooked == hooked
    {
      prev, next, rounds, slot, fires := None, None, 0, -1, 0;
      this.hooked := hooked;
    }
  }

  // ------------------------------------------------- the table the wheel stands for

  /** Ticks left for every armed node. */
  type Table = map<TimerNode, nat>

  datatype Event = Tick | Fire(node: TimerNode) | Arm(node: TimerNode, ticks: nat, delay: int) | Cancel(node: TimerNode)

  /** A tick may come only once everything due has fired; only what is due may fire. */
  ghost predicate Legal(t: Table, e: Event) {
    match e
    case Tick => forall n :: n in t ==> t[n] >= 1
    case Fire(n) => n in t && t[n] == 0
    case Arm(_, k, _) => k >= 1
    case Cancel(_) => true
  }

  ghost function Step(t: Table, e: Event): Table
    requires Legal(t, e)
  {
    match e
    case Tick => map n | n in t :: t[n] - 1
    case Fire(n) => t - {n}
    case Arm(n, k, _) => t[n := k]
    case Cancel(n) => t - {n}
  }

  ghost predicate Follows(t: Table, log: seq<Event>, u: Table)
    decreases |log|
  {
    if log == [] then t == u else Legal(t, log[0]) && Follows(Step(t, log[0]), log[1..], u)
  }

  lemma {:induction false} FollowsThen(t: Table, log: seq<Event>, u: Table, more: seq<Event>, v: Table)
    requires Follows(t, log, u) && Follows(u, more, v)
    ensures Follows(t, log + more, v)
    decreases |log|
  {
    if log == [] {
      assert log + more == more;
    } else {
      FollowsThen(Step(t, log[0]), log[1..], u, more, v);
      assert (log + more)[1..] == log[1..] + more;
    }
  }

  function Ticks(log: seq<Event>): nat {
    if log == [] then 0 else (if log[0].Tick? then 1 else 0) + Ticks(log[1..])
  }

  lemma Still(t: Table)
    ensures Follows(t, [], t) && Ticks([]) == 0
  {
  }

  lemma {:induction false} TicksThen(a: seq<Event>, b: seq<Event>)
    ensures Ticks(a + b) == Ticks(a) + Ticks(b)
  {
    if a == [] {
      assert a + b == b;
    } else {
      TicksThen(a[1..], b);
      assert (a + b)[1..] == a[1..] + b;
    }
  }

  /** The node is neither armed again nor cancelled. */
  predicate LeftAlone(n: TimerNode, log: seq<Event>) {
    forall i :: 0 <= i < |log| ==> !(log[i].Arm? && log[i].node == n) && log[i] != Cancel(n)
  }

  /** Only these nodes are armed or cancelled. */
  predicate Touches(log: seq<Event>, nodes: seq<TimerNode>) {
    forall i :: 0 <= i < |log| && (log[i].Arm? || log[i].Cancel?) ==> log[i].node in nodes
  }

  /** Every node is armed for the ticks of the delay it was given. */
  predicate Honest(log: seq<Event>, tick: nat)
    requires tick > 0
  {
    forall i :: 0 <= i < |log| && log[i].Arm? ==> log[i].ticks == EffectiveTicks(log[i].delay, tick)
  }

  /** How often `n` fires in `log`. */
  function Fired(n: TimerNode, log: seq<Event>): nat {
    if log == [] then 0 else (if log[0] == Fire(n) then 1 else 0) + Fired(n, log[1..])
  }

  lemma {:induction false} FiredThen(n: TimerNode, a: seq<Event>, b: seq<Event>)
    ensures Fired(n, a + b) == Fired(n, a) + Fired(n, b)
  {
    if a == [] {
      assert a + b == b;
    } else {
      FiredThen(n, a[1..], b);
      assert (a + b)[1..] == a[1..] + b;
    }
  }

  /** How often each node's callback has been called. */
  type Tally = map<TimerNode, nat>

  /** In the run the callback of every node that has one was called as often as the node fired. */
  ghost predicate Called(t: Tally, log: seq<Event>, u: Tally) {
    t.Keys == u.Keys && forall n :: n in t ==> u[n] == t[n] + if n.hooked then Fired(n, log) else 0
  }

  lemma CalledThen(t: Tally, log: seq<Event>, u: Tally, more: seq<Event>, v: Tally)
    requires Called(t, log, u) && Called(u, more, v)
    ensures Called(t, log + more, v)
  {
    forall n | n in t ensures v[n] == t[n] + if n.hooked then Fired(n, log + more) else 0 { FiredThen(n, log, more); }
  }

  lemma NoneCalled(t: Tally, log: seq<Event>)
    requires forall i :: 0 <= i < |log| ==> !log[i].Fire?
    ensures Called(t, log, t)
  {
    forall n | n in t ensures Fired(n, log) == 0 { NotFired(n, log); }
  }

  lemma {:induction false} NotFired(n: TimerNode, log: seq<Event>)
    requires forall i :: 0 <= i < |log| ==> !log[i].Fire?
    ensures Fired(n, log) == 0
  {
    if log != [] { NotFired(n, log[1..]); }
  }

  lemma OneCalled(t: Tally, n: TimerNode)
    requires n in t
    ensures Called(t, [Fire(n)], if n.hooked then t[n := t[n] + 1] else t)
  {
    forall m | m in t ensures Fired(m, [Fire(n)]) == if m == n then 1 else 0 { assert [Fire(n)][1..] == []; }
  }

  lemma {:induction false} NeverFires(t: Table, log: seq<Event>, u: Table, n: TimerNode)
    requires Follows(t, log, u) && n !in t && LeftAlone(n, log)
    ensures Fired(n, log) == 0 && n !in u
    ensures forall i :: 0 <= i < |log| ==> log[i] != Fire(n)
    decreases |log|
  {
    if log != [] {
      NeverFires(Step(t, log[0]), log[1..], u, n);
      forall i | 0 <= i < |log| ensures log[i] != Fire(n) { if i > 0 { assert log[i] == log[1..][i - 1]; } }
    }
  }

  /** A node with k ticks left that nobody touches fires once, in the k-th tick from here, and
      in no other; before that it just counts down. This holds of every run that ends with
      nothing overdue. */
  lemma {:induction false} FiresOnTime(t: Table, log: seq<Event>, u: Table, n: TimerNode)
    requires Follows(t, log, u) && n in t && LeftAlone(n, log)
    requires n in u ==> u[n] >= 1
    ensures Fired(n, log) == if Ticks(log) >= t[n] then 1 else 0
    ensures forall i :: 0 <= i < |log| && log[i] == Fire(n) ==> Ticks(log[..i]) == t[n]
    ensures Ticks(log) < t[n] ==> n in u && u[n] == t[n] - Ticks(log)
    ensures Ticks(log) >= t[n] ==> n !in u
    decreases |log|
  {
    if log != [] {
      var t' := Step(t, log[0]);
      if log[0] == Fire(n) {
        NeverFires(t', log[1..], u, n);
      } else {
        FiresOnTime(t', log[1..], u, n);
      }
      forall i | 0 <= i < |log| && log[i] == Fire(n) ensures Ticks(log[..i]) == t[n] {
        if i > 0 {
          assert log[i] == log[1..][i - 1];
          assert log[..i][1..] == log[1..][..i - 1];
        }
      }
    }
  }

  /** In `log`, `n` fires once if `k` ticks have come, and only right after the k-th; it is in the
      table until then. */
  ghost predicate OnTime(n: TimerNode, k: nat, log: seq<Event>, u: Table) {
    && Fired(n, log) == (if Ticks(log) >= k then 1 else 0)
    && (forall i :: 0 <= i < |log| && log[i] == Fire(n) ==> Ticks(log[..i]) == k)
    && (n in u <==> Ticks(log) < k)
  }

  /** Wherever in a run a node is armed, in a callback too: left alone from then on, it fires on
      time. */
  lemma {:induction false} FiresOnceArmed(t: Table, log: seq<Event>, u: Table, i: nat)
    requires Follows(t, log, u) && i < |log| && log[i].Arm? && LeftAlone(log[i].node, log[i + 1..])
    requires forall n :: n in u ==> u[n] >= 1
    ensures OnTime(log[i].node, log[i].ticks, log[i + 1..], u)
    decreases i
  {
    hide Ticks, Fired;
    if i == 0 {
      FiresOnTime(Step(t, log[0]), log[1..], u, log[0].node);
    } else {
      assert log[1..][i..] == log[i + 1..];
      FiresOnceArmed(Step(t, log[0]), log[1..], u, i - 1);
    }
  }

  /** A node armed with a delay and left alone fires in exactly the tick that completes the delay,
      and in no other. */
  lemma FiresAfterDelay(t: Table, log: seq<Event>, u: Table, tick: nat, i: nat)
    requires Follows(t, log, u) && (forall n :: n in u ==> u[n] >= 1) && tick > 0 && Honest(log, tick)
    requires i < |log| && log[i].Arm? && LeftAlone(log[i].node, log[i + 1..])
    requires 0 <= log[i].delay && log[i].delay + tick <= 0x8000_0000_0000_0000
    requires RequestedTicks(log[i].delay, tick) <= SPAN
    ensures var k := RequestedTicks(log[i].delay, tick);
            Covers(k, log[i].delay, tick) && OnTime(log[i].node, k, log[i + 1..], u)
  {
    hide Follows, OnTime, Covers, RequestedTicks, EffectiveTicks, LeftAlone;
    DelayIsCovered(log[i].delay, tick);
    FiresOnceArmed(t, log, u, i);
  }

  // ------------------------------------------------------------------- the wheel

  /** Ticks until the cursor next comes to `slot`. */
  function Distance(slot: nat, cursor: nat): nat
    requires slot < SLOTS && cursor < SLOTS
  {
    if slot > cursor then slot - cursor else slot + SLOTS - cursor
  }

  /** Ticks left for a node; one still to be visited in this tick has no distance to go. */
  function TicksLeft(rounds: nat, slot: nat, cursor: nat, waiting: bool): nat
    requires slot < SLOTS && cursor < SLOTS
  {
    rounds * SLOTS + if waiting then 0 else Distance(slot, cursor)
  }

  function SlotFor(ticks: nat, cursor: nat): (s: nat)
    ensures s < SLOTS
  {
    (cursor + ticks) % SLOTS
  }

  function LapsFor(ticks: nat): nat
    requires ticks >= 1
  {
    ((ticks - 1) / SLOTS) % MAX_LAPS
  }

  /** The slot and laps arm() picks come to the tick count, as far as 32-bit laps reach. */
  lemma Placed(ticks: nat, cursor: nat)
    requires ticks >= 1 && cursor < SLOTS
    ensures TicksLeft(LapsFor(ticks), SlotFor(ticks, cursor), cursor, false) == (ticks - 1) % SPAN + 1
  {
    var q, r := (ticks - 1) / SLOTS, (ticks - 1) % SLOTS;
    var a, b := q / MAX_LAPS, q % MAX_LAPS;
    SlotDistance(ticks, cursor);
    WithinSpan(ticks - 1, a, b * SLOTS + r);
  }

  lemma SlotDistance(ticks: nat, cursor: nat)
    requires ticks >= 1 && cursor < SLOTS
    ensures Distance(SlotFor(ticks, cursor), cursor) == (ticks - 1) % SLOTS + 1
  {
  }

  lemma WithinSpan(x: nat, a: nat, y: nat)
    requires x == a * SPAN + y && y < SPAN
    ensures x % SPAN == y
  {
  }

  function FirstOf(s: seq<TimerNode>): Option<TimerNode> {
    if s == [] then None else Some(s[0])
  }

  /** What a node's three fields say, and what all nodes' fields say together. */
  datatype Links = Links(prev: Option<TimerNode>, next: Option<TimerNode>, slot: int)

  type Wiring = map<TimerNode, Links>

  type Heads = seq<Option<TimerNode>>

  type Lists = seq<Order<TimerNode>>

  ghost predicate InPlace(lists: Lists, n: TimerNode, l: Links)
    requires |lists| == SLOTS && forall i :: 0 <= i < SLOTS ==> lists[i].Ok()
  {
    if l.slot == -1 then l == Links(None, None, -1)
    else 0 <= l.slot < SLOTS && n in lists[l.slot].at && l.prev == lists[l.slot].Prev(n)
         && l.next == lists[l.slot].Next(n)
  }

  /** Every slot heads a doubly linked list, and a node is in the list of its slot only. */
  ghost predicate Threaded(lists: Lists, heads: Heads, w: Wiring)
    ensures Threaded(lists, heads, w) ==> |lists| == SLOTS && |heads| == SLOTS
  {
    && |lists| == SLOTS && |heads| == SLOTS
    && (forall i :: 0 <= i < SLOTS ==> lists[i].Ok() && heads[i] == lists[i].First())
    && Homes(lists, w)
    && (forall n :: n in w ==> InPlace(lists, n, w[n]))
  }

  ghost predicate Homes(lists: Lists, w: Wiring) {
    forall i, n :: 0 <= i < |lists| && n in lists[i].at ==> n in w && w[n].slot == i
  }

  ghost function SplicedIn(w: Wiring, head: Option<TimerNode>, n: TimerNode, s: nat): Wiring {
    map m | m in w :: if m == n then Links(None, head, s) else if Some(m) == head then w[m].(prev := Some(n)) else w[m]
  }

  ghost function SplicedOut(w: Wiring, n: TimerNode): Wiring
    requires n in w
  {
    map m | m in w ::
      if m == n then Links(None, None, -1)
      else Links(if Some(m) == w[n].next then w[n].prev else w[m].prev,
                 if Some(m) == w[n].prev then w[n].next else w[m].next, w[m].slot)
  }

  ghost function CutFrom(lists: Lists, s: int, n: TimerNode): (r: Lists)
    ensures |r| == |lists|
  {
    if 0 <= s < |lists| && lists[s].Ok() && n in lists[s].at then lists[s := lists[s].Cut(n)] else lists
  }

  lemma InPlacePush(lists: Lists, heads: Heads, w: Wiring, n: TimerNode, s: nat, m: TimerNode)
    requires Threaded(lists, heads, w) && n in w && w[n].slot == -1 && s < SLOTS && m in w
    requires n !in lists[s].at && lists[s].Pushed(n).Ok()
    ensures InPlace(lists[s := lists[s].Pushed(n)], m, SplicedIn(w, heads[s], n, s)[m])
  {
    hide Order.Ok, Order.Prev, Order.Next, Order.First, Order.Pushed;
    lists[s].Pushing(n);
    assert InPlace(lists, m, w[m]);
  }

  lemma ThreadedPush(lists: Lists, heads: Heads, w: Wiring, n: TimerNode, s: nat)
    requires Threaded(lists, heads, w) && n in w && w[n].slot == -1 && s < SLOTS
    ensures heads[s].Some? ==> heads[s].value in w && heads[s].value != n
    ensures Threaded(lists[s := lists[s].Pushed(n)], heads[s := Some(n)], SplicedIn(w, heads[s], n, s))
  {
    hide Order.Ok, Order.Prev, Order.Next, Order.First, Order.Pushed, InPlace;
    lists[s].Pushing(n);
    forall m | m in w ensures InPlace(lists[s := lists[s].Pushed(n)], m, SplicedIn(w, heads[s], n, s)[m]) {
      InPlacePush(lists, heads, w, n, s, m);
    }
  }

  lemma ThreadedCut(lists: Lists, heads: Heads, w: Wiring, n: TimerNode)
    requires Threaded(lists, heads, w) && n in w && w[n].slot != -1
    ensures var s := w[n].slot;
            && 0 <= s < SLOTS && n in lists[s].at
            && (w[n].prev.Some? ==> w[n].prev.value in w && w[n].prev.value != n)
            && (w[n].next.Some? ==> w[n].next.value in w && w[n].next.value != n)
            && Threaded(CutFrom(lists, s, n), if w[n].prev.Some? then heads else heads[s := w[n].next],
                        SplicedOut(w, n))
  {
    CutHeads(lists, heads, w, n);
    CutHomes(lists, heads, w, n);
    hide Order.Ok, Order.Prev, Order.Next, Order.First, Order.Cut, InPlace, SplicedOut, CutFrom, Homes;
    assert SplicedOut(w, n).Keys == w.Keys by { SplicedOutSlots(w, n); }
    forall m | m in w ensures InPlace(CutFrom(lists, w[n].slot, n), m, SplicedOut(w, n)[m]) {
      InPlaceCut(lists, heads, w, n, m);
    }
  }

  lemma CutHeads(lists: Lists, heads: Heads, w: Wiring, n: TimerNode)
    requires Threaded(lists, heads, w) && n in w && w[n].slot != -1
    ensures var s := w[n].slot;
            && 0 <= s < SLOTS && n in lists[s].at
            && (w[n].prev.Some? ==> w[n].prev.value in w && w[n].prev.value != n)
            && (w[n].next.Some? ==> w[n].next.value in w && w[n].next.value != n)
            && forall i :: 0 <= i < SLOTS ==>
                 var o := CutFrom(lists, s, n)[i];
                 o.Ok() && (if w[n].prev.Some? then heads else heads[s := w[n].next])[i] == o.First()
  {
    hide Order.Ok, Order.Prev, Order.Next, Order.First, Order.Cut;
    assert InPlace(lists, n, w[n]);
    lists[w[n].slot].Cutting(n);
  }

  lemma CutHomes(lists: Lists, heads: Heads, w: Wiring, n: TimerNode)
    requires Threaded(lists, heads, w) && n in w && w[n].slot != -1
    ensures Homes(CutFrom(lists, w[n].slot, n), SplicedOut(w, n))
  {
    hide Order.Ok, Order.Prev, Order.Next, Order.First, Order.Cut, SplicedOut;
    SplicedOutSlots(w, n);
    assert InPlace(lists, n, w[n]);
    lists[w[n].slot].CutKeys(n);
  }

  lemma InPlaceCut(lists: Lists, heads: Heads, w: Wiring, n: TimerNode, m: TimerNode)
    requires Threaded(lists, heads, w) && n in w && w[n].slot != -1 && m in w
    requires forall i :: 0 <= i < SLOTS ==> CutFrom(lists, w[n].slot, n)[i].Ok()
    ensures InPlace(CutFrom(lists, w[n].slot, n), m, SplicedOut(w, n)[m])
  {
    hide Order.Ok, Order.Prev, Order.Next, Order.First, Order.Cut;
    assert InPlace(lists, n, w[n]) && InPlace(lists, m, w[m]);
    lists[w[n].slot].Cutting(n);
  }

  type Laps = map<TimerNode, nat>

  /** The lap counters and slots stand for the table `t`. `pending` is what the walk over the
      cursor's slot has still to visit, and is empty between ticks. */
  ghost predicate Counts(t: Table, lists: Lists, w: Wiring, laps: Laps, cursor: nat, pending: seq<TimerNode>)
    ensures Counts(t, lists, w, laps, cursor, pending) ==> cursor < SLOTS
  {
    && |lists| == SLOTS && cursor < SLOTS && laps.Keys == w.Keys
    && t.Keys == (set n | n in w && w[n].slot != -1)
    && (forall n :: n in t ==> 0 <= w[n].slot < SLOTS && t[n] == TicksLeft(laps[n], w[n].slot, cursor, n in pending))
    && lists[cursor].EndsWith(pending)
    && (forall n :: n in pending ==> n in t && w[n].slot == cursor)
  }

  lemma CountsPush(t: Table, lists: Lists, w: Wiring, laps: Laps, cursor: nat, pending: seq<TimerNode>,
                   head: Option<TimerNode>, n: TimerNode, s: nat, r: nat)
    requires Counts(t, lists, w, laps, cursor, pending) && n in w && w[n].slot == -1 && s < SLOTS
    ensures n !in t
    ensures Counts(t[n := TicksLeft(r, s, cursor, false)], lists[s := lists[s].Pushed(n)], SplicedIn(w, head, n, s),
                   laps[n := r], cursor, pending)
  {
    hide Order.EndsWith, Order.Pushed, TicksLeft;
    lists[cursor].RestOfPushed(n, pending);
  }

  /** The rest of the walk once `n` has left slot `s`. */
  ghost function PendingWithout(lists: Lists, cursor: nat, pending: seq<TimerNode>, s: int,
                                n: TimerNode): seq<TimerNode> {
    if s == cursor < |lists| && lists[cursor].Ok() && lists[cursor].EndsWith(pending) && n in lists[cursor].at
    then lists[cursor].Trim(pending, n)
    else pending
  }

  lemma PendingCut(lists: Lists, s: nat, cursor: nat, pending: seq<TimerNode>, n: TimerNode)
    requires s < |lists| && cursor < |lists| && lists[s].Ok() && n in lists[s].at && lists[cursor].EndsWith(pending)
    requires s != cursor ==> n !in pending
    ensures var p := PendingWithout(lists, cursor, pending, s, n);
            && CutFrom(lists, s, n)[cursor].EndsWith(p) && |p| <= |pending|
            && (forall i :: 0 <= i < |p| ==> p[i] in pending && p[i] != n)
            && (forall m :: m in p <==> m in pending && m != n)
            && (FirstOf(pending) != Some(n) ==> FirstOf(p) == FirstOf(pending))
            && (FirstOf(pending) == Some(n) ==> p == pending[1..])
  {
    hide Order.EndsWith, Order.Ok, Order.Cut, Order.Trim;
    if s == cursor {
      lists[cursor].RestOfCut(n, pending);
    } else {
      assert forall i :: 0 <= i < |pending| ==> pending[i] in pending;
    }
  }

  lemma SplicedOutSlots(w: Wiring, n: TimerNode)
    requires n in w
    ensures SplicedOut(w, n).Keys == w.Keys && SplicedOut(w, n)[n].slot == -1
    ensures forall m :: m in w && m != n ==> SplicedOut(w, n)[m].slot == w[m].slot
  {
  }

  lemma Home(lists: Lists, heads: Heads, w: Wiring, n: TimerNode)
    requires Threaded(lists, heads, w) && n in w && w[n].slot != -1
    ensures 0 <= w[n].slot < SLOTS && lists[w[n].slot].Ok() && n in lists[w[n].slot].at
  {
  }

  lemma CountsCut(t: Table, lists: Lists, heads: Heads, w: Wiring, laps: Laps, cursor: nat,
                  pending: seq<TimerNode>, n: TimerNode)
    requires Threaded(lists, heads, w) && Counts(t, lists, w, laps, cursor, pending) && n in w && w[n].slot != -1
    ensures n in t
    ensures var p := PendingWithout(lists, cursor, pending, w[n].slot, n);
            && Counts(t - {n}, CutFrom(lists, w[n].slot, n), SplicedOut(w, n), laps, cursor, p)
            && |p| <= |pending| && (FirstOf(pending) != Some(n) ==> FirstOf(p) == FirstOf(pending))
            && (FirstOf(pending) == Some(n) ==> p == pending[1..])
  {
    hide Order.EndsWith, Order.Ok, Order.First, Order.Cut, TicksLeft, Threaded, PendingWithout, CutFrom;
    hide SplicedOut, InPlace;
    Home(lists, heads, w, n);
    PendingCut(lists, w[n].slot, cursor, pending, n);
    SplicedOutSlots(w, n);
    var w' := SplicedOut(w, n);
    var p := PendingWithout(lists, cursor, pending, w[n].slot, n);
    assert (t - {n}).Keys == set m | m in w' && w'[m].slot != -1;
    assert forall m :: m in w && m != n ==> (m in p) == (m in pending);
  }

  lemma TickOne(rounds: nat, slot: nat, cursor: nat)
    requires slot < SLOTS && cursor < SLOTS
    ensures var c := (cursor + 1) % SLOTS;
            TicksLeft(rounds, slot, c, slot == c) == TicksLeft(rounds, slot, cursor, false) - 1
  {
  }

  lemma WholeList(lists: Lists, heads: Heads, w: Wiring, c: nat)
    requires Threaded(lists, heads, w) && c < SLOTS
    ensures forall n :: n in lists[c].list <==> n in w && w[n].slot == c
    ensures lists[c].EndsWith(lists[c].list) && heads[c] == FirstOf(lists[c].list)
  {
    assert lists[c].list[0..] == lists[c].list;
    forall n ensures n in lists[c].list <==> n in w && w[n].slot == c {
      if n in lists[c].list { assert n in lists[c].at; }
      if n in w && w[n].slot == c { assert InPlace(lists, n, w[n]); assert lists[c].list[lists[c].at[n]] == n; }
    }
  }

  /** The cursor moves on: everybody has one tick less to go. */
  lemma CountsTick(t: Table, lists: Lists, heads: Heads, w: Wiring, laps: Laps, cursor: nat)
    requires Threaded(lists, heads, w) && Counts(t, lists, w, laps, cursor, [])
    ensures Legal(t, Tick)
    ensures var c := (cursor + 1) % SLOTS;
            Counts(Step(t, Tick), lists, w, laps, c, lists[c].list) && heads[c] == FirstOf(lists[c].list)
  {
    hide Order.EndsWith, TicksLeft, Threaded;
    var c := (cursor + 1) % SLOTS;
    WholeList(lists, heads, w, c);
    forall n | n in t
      ensures t[n] >= 1 && TicksLeft(laps[n], w[n].slot, c, n in lists[c].list) == t[n] - 1
    {
      TickOne(laps[n], w[n].slot, cursor);
    }
    assert Step(t, Tick).Keys == t.Keys;
  }

  /** What the walk finds at the front of its list. */
  lemma CountsHead(t: Table, lists: Lists, heads: Heads, w: Wiring, laps: Laps, cursor: nat, pending: seq<TimerNode>)
    requires Threaded(lists, heads, w) && Counts(t, lists, w, laps, cursor, pending) && pending != []
    ensures var n := pending[0];
            && n in t && n in w && w[n].slot == cursor && t[n] == laps[n] * SLOTS && w[n].next == FirstOf(pending[1..])
            && (laps[n] > 0 ==> Counts(t, lists, w, laps[n := laps[n] - 1], cursor, pending[1..]))
  {
    var n := pending[0];
    CountsVisit(t, lists, w, laps, cursor, pending);
    hide Order.Ok, Order.First, Order.Prev, Order.Next, Order.EndsWith, TicksLeft, Homes, Counts;
    assert lists[cursor].EndsWith(pending) by { CountsFacts(t, lists, w, laps, cursor, pending); }
    lists[cursor].RestHead(pending);
    assert InPlace(lists, n, w[n]);
  }

  lemma CountsFacts(t: Table, lists: Lists, w: Wiring, laps: Laps, cursor: nat, pending: seq<TimerNode>)
    requires Counts(t, lists, w, laps, cursor, pending)
    ensures |lists| == SLOTS && lists[cursor].EndsWith(pending)
  {
  }

  lemma CountsVisit(t: Table, lists: Lists, w: Wiring, laps: Laps, cursor: nat, pending: seq<TimerNode>)
    requires Counts(t, lists, w, laps, cursor, pending) && pending != [] && lists[cursor].Ok()
    ensures var n := pending[0];
            && n in t && n in w && n in laps && w[n].slot == cursor && t[n] == laps[n] * SLOTS
            && (laps[n] > 0 ==> Counts(t, lists, w, laps[n := laps[n] - 1], cursor, pending[1..]))
  {
    assert pending[0] in pending;
    LapTurn(laps[pending[0]], cursor);
    hide Order.Ok, Order.EndsWith, TicksLeft;
    lists[cursor].RestHead(pending);
    assert forall m :: m in pending <==> m == pending[0] || m in pending[1..];
  }

  /** A visit takes a lap off, and with it a node's next due time is a whole turn away. */
  lemma LapTurn(rounds: nat, cursor: nat)
    requires cursor < SLOTS
    ensures TicksLeft(rounds, cursor, cursor, true) == rounds * SLOTS
    ensures rounds > 0 ==> TicksLeft(rounds - 1, cursor, cursor, false) == rounds * SLOTS
  {
  }

  lemma NewThreads(lists: Lists, heads: Heads, w: Wiring, n: TimerNode)
    requires Threaded(lists, heads, w) && n !in w
    ensures Threaded(lists, heads, w[n := Links(None, None, -1)])
  {
    hide Order.Ok, Order.First, Order.Prev, Order.Next;
    assert InPlace(lists, n, Links(None, None, -1));
    hide InPlace;
  }

  lemma NewCounts(t: Table, lists: Lists, w: Wiring, laps: Laps, cursor: nat, pending: seq<TimerNode>,
                  n: TimerNode, r: nat)
    requires Counts(t, lists, w, laps, cursor, pending) && n !in w
    ensures Counts(t, lists, w[n := Links(None, None, -1)], laps[n := r], cursor, pending)
  {
    hide Order.EndsWith, TicksLeft;
    var w' := w[n := Links(None, None, -1)];
    assert t.Keys == set m | m in w' && w'[m].slot != -1;
  }

  lemma Unarmed(t: Table, lists: Lists, w: Wiring, laps: Laps, cursor: nat, pending: seq<TimerNode>, n: TimerNode)
    requires Counts(t, lists, w, laps, cursor, pending) && n in w && w[n].slot == -1
    ensures n !in t && n !in pending
  {
  }

  /** What the walk does not come to in this tick is a revolution late. */
  lemma PassedOver(t: Table, lists: Lists, w: Wiring, laps: Laps, cursor: nat, pending: seq<TimerNode>)
    requires Counts(t, lists, w, laps, cursor, pending)
    ensures forall n :: n in pending ==> n in t && n in w && w[n].slot == cursor < SLOTS
    ensures forall n :: n in pending && n in w && w[n].slot == cursor < SLOTS ==>
              TicksLeft(laps[n], w[n].slot, cursor, false) == t[n] + SLOTS
  {
  }

  lemma Loose(lists: Lists, heads: Heads, w: Wiring, n: TimerNode)
    requires Threaded(lists, heads, w) && n in w && w[n].slot == -1
    ensures w[n].next == None
  {
    assert InPlace(lists, n, w[n]);
  }

  ghost function EmptyLists(): Lists {
    seq(SLOTS, _ => Order([], map[]))
  }

  lemma EmptyWheel(heads: Heads)
    requires |heads| == SLOTS && forall i :: 0 <= i < SLOTS ==> heads[i] == None
    ensures Threaded(EmptyLists(), heads, map[]) && Counts(map[], EmptyLists(), map[], map[], 0, [])
  {
  }

  class Wheel {
    const tick: nat
    const slots: array<Option<TimerNode>>
    var cursor: nat
    var armed: nat
    // every node this wheel has been given, and the list in each slot
    ghost var tenants: set<TimerNode>
    ghost var lists: Lists
    ghost var table: Table
    // what advance() has still to visit in the cursor's slot
    ghost var pending: seq<TimerNode>

    ghost function Wires(): Wiring
      reads `tenants, tenants`slot, tenants`prev, tenants`next
    {
      map n | n in tenants :: Links(n.prev, n.next, n.slot)
    }

    method Link(n: TimerNode, s: nat)
      requires Threaded(lists, slots[..], Wires()) && n in tenants && n.slot == -1 && s < SLOTS
      modifies `armed, `lists, slots, tenants`slot, tenants`prev, tenants`next
      ensures Threaded(lists, slots[..], Wires()) && lists == old(lists)[s := old(lists)[s].Pushed(n)]
      ensures Wires() == SplicedIn(old(Wires()), old(slots[s]), n, s)
      ensures armed == old(armed) + 1 && n.slot == s && n.next == old(slots[s]) && slots[s] == Some(n)
    {
      hide Threaded;
      ThreadedPush(lists, slots[..], Wires(), n, s);
      lists := lists[s := lists[s].Pushed(n)];
      n.slot := s;
      n.prev := None;
      n.next := slots[s];
      if slots[s].Some? { slots[s].value.prev := Some(n); }
      slots[s] := Some(n);
      armed := armed + 1;
      assert slots[..] == old(slots[..])[s := Some(n)];
      assert Wires() == SplicedIn(old(Wires()), old(slots[s]), n, s);
    }

    /** The pointer writes of unlink(). */
    method SpliceOut(n: TimerNode)
      requires n in tenants && 0 <= n.slot < slots.Length
      requires n.prev.Some? ==> n.prev.value in tenants && n.prev.value != n
      requires n.next.Some? ==> n.next.value in tenants && n.next.value != n
      modifies slots, tenants`slot, tenants`prev, tenants`next
      ensures slots[..] == if old(n.prev).Some? then old(slots[..]) else old(slots[..])[old(n.slot) := old(n.next)]
      ensures Wires() == SplicedOut(old(Wires()), n)
    {
      if n.prev.Some? { n.prev.value.next := n.next; } else { slots[n.slot] := n.next; }
      if n.next.Some? { n.next.value.prev := n.prev; }
      n.prev, n.next := None, None;
      n.slot := -1;
    }

    method Unlink(n: TimerNode)
      requires Threaded(lists, slots[..], Wires()) && n in tenants && n.slot != -1 && armed > 0
      modifies `armed, `lists, slots, tenants`slot, tenants`prev, tenants`next
      ensures Threaded(lists, slots[..], Wires()) && lists == CutFrom(old(lists), old(n.slot), n)
      ensures Wires() == SplicedOut(old(Wires()), n)
      ensures armed == old(armed) - 1
    {
      hide Threaded, Order.Ok, Order.Cut, CutFrom, SplicedOut;
      ThreadedCut(lists, slots[..], Wires(), n);
      lists := CutFrom(lists, n.slot, n);
      SpliceOut(n);
      armed := armed - 1;
    }

    ghost function LapsLeft(): Laps
      reads `tenants, tenants`rounds
    {
      map n | n in tenants :: n.rounds
    }

    ghost function Calls(): Tally
      reads `tenants, tenants`fires
    {
      map n | n in tenants :: n.fires
    }

    ghost predicate Valid()
      reads this, slots, tenants`slot, tenants`prev, tenants`next, tenants`rounds
      ensures Valid() ==> cursor < SLOTS && slots.Length == SLOTS && tick > 0
    {
      && tick > 0 && Threaded(lists, slots[..], Wires()) && Counts(table, lists, Wires(), LapsLeft(), cursor, pending)
      && armed == |table|
    }

    constructor (tick: int)
      ensures Valid() && this.tick == (if tick > 0 then tick else 500)
      ensures tenants == {} && table == map[] && pending == []
      ensures fresh(slots)
    {
      this.tick := if tick > 0 then tick else 500;
      slots := new Option<TimerNode>[SLOTS](_ => None);
      cursor, armed, tenants, table, pending := 0, 0, {}, map[], [];
      lists := EmptyLists();
      new;
      hide *;
      EmptyWheel(slots[..]);
      assert Wires() == map[] && LapsLeft() == map[];
    }

    /** A node joins the wheel's world, unarmed. */
    ghost method Adopt(n: TimerNode)
      requires Valid() && n.slot == -1 && n.prev == None && n.next == None && n !in tenants
      modifies `tenants
      ensures Valid() && tenants == old(tenants) + {n}
    {
      hide Threaded, Counts;
      NewThreads(lists, slots[..], Wires(), n);
      NewCounts(table, lists, Wires(), LapsLeft(), cursor, pending, n, n.rounds);
      tenants := tenants + {n};
      assert Wires() == old(Wires())[n := Links(None, None, -1)] && LapsLeft() == old(LapsLeft())[n := n.rounds];
    }

    /** unlink(): safe on an unarmed node. */
    method Detach(n: TimerNode)
      requires Valid() && n in tenants
      modifies this, slots, tenants`slot, tenants`prev, tenants`next
      ensures Valid() && tenants == old(tenants) && cursor == old(cursor) && n.slot == -1
      ensures table == old(table) - {n}
      ensures |pending| <= |old(pending)|
      ensures FirstOf(old(pending)) != Some(n) ==> FirstOf(pending) == FirstOf(old(pending))
      ensures old(n.slot) != -1 && FirstOf(old(pending)) == Some(n) ==> pending == old(pending)[1..]
    {
      hide Threaded, Counts, SplicedOut, CutFrom, PendingWithout, Wires, LapsLeft;
      Known(n);
      if n.slot != -1 {
        CountsCut(table, lists, slots[..], Wires(), LapsLeft(), cursor, pending, n);
        SplicedOutSlots(Wires(), n);
        pending := PendingWithout(lists, cursor, pending, n.slot, n);
        table := table - {n};
        Unlink(n);
        Known(n);
      } else {
        Unarmed(table, lists, Wires(), LapsLeft(), cursor, pending, n);
        assert table == table - {n};
      }
    }

    method Cancel(n: TimerNode) returns (ghost log: seq<Event>)
      requires Valid() && n in tenants
      modifies this, slots, tenants`slot, tenants`prev, tenants`next
      ensures Valid() && tenants == old(tenants) && cursor == old(cursor)
      ensures log == [Event.Cancel(n)] && Follows(old(table), log, table) && Ticks(log) == 0
      ensures |pending| <= |old(pending)|
      ensures FirstOf(old(pending)) != Some(n) ==> FirstOf(pending) == FirstOf(old(pending))
    {
      hide Valid;
      Detach(n);
      log := [Event.Cancel(n)];
      assert log[1..] == [];
    }

    method Attach(n: TimerNode, s: nat, r: nat)
      requires Valid() && n in tenants && n.slot == -1 && s < SLOTS
      modifies this, slots, tenants`slot, tenants`prev, tenants`next, tenants`rounds
      ensures Valid() && tenants == old(tenants) && cursor == old(cursor) && pending == old(pending)
      ensures table == old(table)[n := TicksLeft(r, s, cursor, false)]
      ensures n.slot == s && n.rounds == r && slots[s] == Some(n)
    {
      hide Threaded, Counts, SplicedIn, TicksLeft, Order.Pushed, Wires, LapsLeft;
      Known(n);
      CountsPush(table, lists, Wires(), LapsLeft(), cursor, pending, slots[s], n, s, r);
      SetLaps(n, r);
      table := table[n := TicksLeft(r, s, cursor, false)];
      Link(n, s);
    }

    lemma Known(n: TimerNode)
      requires n in tenants
      ensures n in Wires() && Wires()[n] == Links(n.prev, n.next, n.slot)
      ensures n in LapsLeft() && LapsLeft()[n] == n.rounds
    {
    }

    method SetLaps(n: TimerNode, r: nat)
      requires n in tenants
      modifies n`rounds
      ensures n.rounds == r && LapsLeft() == old(LapsLeft())[n := r]
    {
      n.rounds := r;
    }

    method Arm(n: TimerNode, delay: int) returns (ghost log: seq<Event>)
      requires Valid() && n in tenants
      modifies this, slots, tenants`slot, tenants`prev, tenants`next, tenants`rounds
      ensures Valid() && tenants == old(tenants) && cursor == old(cursor)
      ensures log == [Event.Arm(n, EffectiveTicks(delay, tick), delay)] && Follows(old(table), log, table)
      ensures Ticks(log) == 0
      ensures |pending| <= |old(pending)|
      ensures FirstOf(old(pending)) != Some(n) ==> FirstOf(pending) == FirstOf(old(pending))
    {
      hide Valid, TicksLeft, RequestedTicks, LapsFor, SlotFor;
      Detach(n);
      var ticks := RequestedTicks(delay, tick);
      Placed(ticks, cursor);
      Attach(n, SlotFor(ticks, cursor), LapsFor(ticks));
      log := [Event.Arm(n, EffectiveTicks(delay, tick), delay)];
      assert log[1..] == [] && table == old(table)[n := EffectiveTicks(delay, tick)];
    }

    /** What an owner does when it runs: it may arm or cancel any nodes, in any number, but in a
        callback not the one the walk goes to next. */
    method Callback(nodes: seq<TimerNode>, next: Option<TimerNode>) returns (ghost log: seq<Event>)
      requires Valid() && (forall i :: 0 <= i < |nodes| ==> nodes[i] in tenants) && FirstOf(pending) == next
      modifies this, slots, tenants`slot, tenants`prev, tenants`next, tenants`rounds
      ensures Valid() && tenants == old(tenants) && cursor == old(cursor) && Follows(old(table), log, table)
      ensures FirstOf(pending) == next && |pending| <= |old(pending)| && Ticks(log) == 0 && Touches(log, nodes)
      ensures Honest(log, tick) && forall i :: 0 <= i < |log| ==> !log[i].Fire?
    {
      hide Valid, Follows, Legal, Step, EffectiveTicks;
      log := [];
      Still(table);
      var calls: nat := *;
      while calls > 0
        invariant Valid() && tenants == old(tenants) && cursor == old(cursor) && Follows(old(table), log, table)
        invariant FirstOf(pending) == next && |pending| <= |old(pending)| && Ticks(log) == 0 && Touches(log, nodes)
        invariant Honest(log, tick) && forall i :: 0 <= i < |log| ==> !log[i].Fire?
      {
        calls := calls - 1;
        var i: nat, again: bool, delay: int := *, *, *;
        if i < |nodes| && next != Some(nodes[i]) {
          ghost var before := table;
          ghost var more;
          if again { more := Arm(nodes[i], delay); } else { more := Cancel(nodes[i]); }
          FollowsThen(old(table), log, before, more, table);
          TicksThen(log, more);
          log := log + more;
        }
      }
    }

    /** One turn of advance()'s loop, at the front of what is left of the slot's list. */
    method Visit(n: TimerNode, nodes: seq<TimerNode>) returns (next: Option<TimerNode>, ghost log: seq<Event>)
      requires Valid() && (forall i :: 0 <= i < |nodes| ==> nodes[i] in tenants) && FirstOf(pending) == Some(n)
      modifies this, slots, tenants
      ensures Valid() && tenants == old(tenants) && cursor == old(cursor) && Follows(old(table), log, table)
      ensures FirstOf(pending) == next && |pending| < |old(pending)| && Ticks(log) == 0 && Touches(log, nodes)
      ensures Honest(log, tick) && Called(old(Calls()), log, Calls())
    {
      hide Threaded, Counts;
      CountsHead(table, lists, slots[..], Wires(), LapsLeft(), cursor, pending);
      next := n.next;
      if n.rounds > 0 {
        ghost var laps := LapsLeft()[n := n.rounds - 1];
        n.rounds := n.rounds - 1;
        pending := pending[1..];
        assert Wires() == old(Wires()) && LapsLeft() == laps;
        log := [];
        NoneCalled(Calls(), log);
      } else {
        log := Expire(n, nodes, next);
      }
    }

    /** A due node leaves the wheel and its callback runs. */
    method Expire(n: TimerNode, nodes: seq<TimerNode>, next: Option<TimerNode>) returns (ghost log: seq<Event>)
      requires Valid() && (forall i :: 0 <= i < |nodes| ==> nodes[i] in tenants) && FirstOf(pending) == Some(n)
      requires n in tenants && n.slot != -1 && n in table && table[n] == 0 && FirstOf(pending[1..]) == next
      modifies this, slots, tenants
      ensures Valid() && tenants == old(tenants) && cursor == old(cursor) && Follows(old(table), log, table)
      ensures FirstOf(pending) == next && |pending| < |old(pending)| && Ticks(log) == 0 && Touches(log, nodes)
      ensures Honest(log, tick) && Called(old(Calls()), log, Calls())
    {
      hide Valid, Called;
      Detach(n);
      OneCalled(Calls(), n);
      ghost var now;
      log := [];
      Still(table);
      NoneCalled(Calls(), log);
      if n.hooked {
        now, log := OnExpire(n, nodes, next);
      }
      CalledThen(old(Calls()), [Fire(n)], if n.hooked then now else Calls(), log, Calls());
      log := [Fire(n)] + log;
    }

    /** The node's expiry callback. */
    method OnExpire(n: TimerNode, nodes: seq<TimerNode>, next: Option<TimerNode>)
      returns (ghost now: Tally, ghost log: seq<Event>)
      requires Valid() && (forall i :: 0 <= i < |nodes| ==> nodes[i] in tenants) && FirstOf(pending) == next
      requires n in tenants
      modifies this, slots, tenants
      ensures Valid() && tenants == old(tenants) && cursor == old(cursor) && Follows(old(table), log, table)
      ensures FirstOf(pending) == next && |pending| <= |old(pending)| && Ticks(log) == 0 && Touches(log, nodes)
      ensures Honest(log, tick) && n in old(Calls())
      ensures now == old(Calls())[n := old(n.fires) + 1] && Called(now, log, Calls())
    {
      hide Valid, Called, Follows, Legal, Step;
      n.fires := n.fires + 1;
      now := Calls();
      assert now == old(Calls())[n := old(n.fires) + 1];
      log := Callback(nodes, next);
      assert Calls() == now;
      NoneCalled(now, log);
    }

    /** One tick. What comes due fires, in the order of the slot's list. */
    method Advance(nodes: seq<TimerNode>) returns (ghost log: seq<Event>)
      requires Valid() && (forall i :: 0 <= i < |nodes| ==> nodes[i] in tenants) && pending == []
      modifies this, slots, tenants
      ensures Valid() && tenants == old(tenants) && pending == [] && Follows(old(table), log, table)
      ensures cursor == (old(cursor) + 1) % SLOTS && Ticks(log) == 1 && Touches(log, nodes) && Honest(log, tick)
      ensures forall n :: n in tenants ==> n.fires == old(n.fires) + if n.hooked then Fired(n, log) else 0
    {
      hide Valid, Follows, Legal, Step, Called, Calls;
      log := Turn();
      NoneCalled(Calls(), log);
      var node := slots[cursor];
      while node.Some?
        invariant Valid() && tenants == old(tenants) && cursor == (old(cursor) + 1) % SLOTS && Ticks(log) == 1
        invariant node == FirstOf(pending) && Follows(old(table), log, table) && Touches(log, nodes)
        invariant Honest(log, tick) && Called(old(Calls()), log, Calls())
        decreases |pending|
      {
        ghost var before, more, calls := table, [], Calls();
        node, more := Visit(node.value, nodes);
        CalledThen(old(Calls()), log, calls, more, Calls());
        FollowsThen(old(table), log, before, more, table);
        TicksThen(log, more);
        log := log + more;
      }
      EachCalled(log);
    }

    /** The callbacks called in a run, node by node. */
    twostate lemma EachCalled(new log: seq<Event>)
      requires tenants == old(tenants) && Called(old(Calls()), log, Calls())
      ensures forall n :: n in tenants ==> n.fires == old(n.fires) + if n.hooked then Fired(n, log) else 0
    {
      forall n | n in tenants ensures n.fires == old(n.fires) + if n.hooked then Fired(n, log) else 0 {
        assert n in old(Calls()) && n in Calls();
      }
    }

    twostate lemma EachTallied(new log: seq<Event>)
      requires tenants == old(tenants)
      requires forall n :: n in tenants ==> n.fires == old(n.fires) + if n.hooked then Fired(n, log) else 0
      ensures Called(old(Calls()), log, Calls())
    {
    }

    /** The cursor steps on to its next slot. */
    method Turn() returns (ghost log: seq<Event>)
      requires Valid() && pending == []
      modifies `cursor, `table, `pending
      ensures Valid() && cursor == (old(cursor) + 1) % SLOTS && slots[cursor] == FirstOf(pending)
      ensures log == [Tick] && Follows(old(table), log, table) && Ticks(log) == 1
    {
      hide Threaded, Counts, Legal;
      CountsTick(table, lists, slots[..], Wires(), LapsLeft(), cursor);
      cursor := (cursor + 1) % SLOTS;
      pending := lists[cursor].list;
      table := Step(table, Tick);
      assert |table| == |old(table)| by { assert table.Keys == old(table).Keys; }
      log := [Tick];
      assert log[1..] == [];
    }

    /** Any run: any number of ticks, with the nodes armed and cancelled at will in between and
        by the callbacks. */
    method Drive(nodes: seq<TimerNode>) returns (ghost log: seq<Event>)
      requires Valid() && (forall i :: 0 <= i < |nodes| ==> nodes[i] in tenants) && pending == []
      modifies this, slots, tenants
      ensures Valid() && tenants == old(tenants) && pending == []
      ensures Follows(old(table), log, table) && Touches(log, nodes) && Honest(log, tick)
      ensures forall i :: 0 <= i < |log| && log[i].Arm? && LeftAlone(log[i].node, log[i + 1..]) ==>
                OnTime(log[i].node, EffectiveTicks(log[i].delay, tick), log[i + 1..], table)
      ensures forall n :: n in tenants ==> n.fires == old(n.fires) + if n.hooked then Fired(n, log) else 0
    {
      hide Valid, Follows, Legal, Step, EffectiveTicks, OnTime, LeftAlone, Called, Calls;
      log := [];
      Still(table);
      NoneCalled(Calls(), log);
      var turns: nat := *;
      while turns > 0
        invariant Valid() && tenants == old(tenants) && pending == []
        invariant Follows(old(table), log, table) && Touches(log, nodes) && Honest(log, tick)
        invariant Called(old(Calls()), log, Calls())
      {
        turns := turns - 1;
        ghost var before, calls := table, Calls();
        ghost var more;
        var ticking: bool := *;
        label Turned:
        if ticking {
          more := Advance(nodes);
          EachTallied@Turned(more);
        } else {
          more := Callback(nodes, None);
          NoneCalled(Calls(), more);
        }
        CalledThen(old(Calls()), log, calls, more, Calls());
        FollowsThen(old(table), log, before, more, table);
        log := log + more;
      }
      EachCalled(log);
      Prompt();
      forall i | 0 <= i < |log| && log[i].Arm? && LeftAlone(log[i].node, log[i + 1..])
        ensures OnTime(log[i].node, EffectiveTicks(log[i].delay, tick), log[i + 1..], table)
      {
        FiresOnceArmed(old(table), log, table, i);
      }
    }

    lemma Prompt()
      requires Valid() && pending == []
      ensures forall n :: n in table ==> table[n] >= 1
    {
    }

    /** Two due nodes that have the wheel to themselves are what the walk comes to. */
    lemma TwoDue(a: TimerNode, b: TimerNode)
      requires Valid() && a != b && tenants == {a, b} && a in table && b in table && table[a] == 0 && table[b] == 0
      ensures |pending| >= 2 && pending[0] in tenants && pending[1] in tenants && pending[0] != pending[1]
      ensures a.rounds == 0 && b.rounds == 0
    {
      hide Threaded, Counts, Order.Ok, Order.EndsWith;
      IsWaiting(table, lists, Wires(), LapsLeft(), cursor, pending, a);
      IsWaiting(table, lists, Wires(), LapsLeft(), cursor, pending, b);
      TwoWaiting(table, lists, slots[..], Wires(), LapsLeft(), cursor, pending, a, b);
    }

    /** A due node leaves the wheel, its successor captured. */
    method TakeDue(a: TimerNode, b: TimerNode) returns (node: Option<TimerNode>)
      requires Valid() && |pending| >= 2 && pending[0] == a && pending[1] == b && a != b && a in tenants && b in tenants
      modifies this, slots, tenants`slot, tenants`prev, tenants`next
      ensures Valid() && node == Some(b) && pending == old(pending)[1..] && tenants == old(tenants)
      ensures cursor == old(cursor)
      ensures b.slot != -1
    {
      hide Threaded, Counts;
      CountsHead(table, lists, slots[..], Wires(), LapsLeft(), cursor, pending);
      node := a.next;
      Detach(a);
      CountsHead(table, lists, slots[..], Wires(), LapsLeft(), cursor, pending);
    }

    /** What is left of the walk, if it is not gone on with, fires a whole revolution late. */
    ghost predicate Late()
      reads this, tenants
    {
      forall n :: n in pending ==>
        && n in table && n in tenants && n.slot == cursor < SLOTS
        && TicksLeft(n.rounds, n.slot, cursor, false) == table[n] + SLOTS
    }

    /** Why a callback must not touch the node the walk goes to next: the walk goes there all the
        same, fires it if it was due although it has been cancelled, and ends; whatever stood
        behind it in the list is passed over. */
    method SuccessorCancelled(a: TimerNode, b: TimerNode)
      returns (node: Option<TimerNode>, fires: bool, after: Option<TimerNode>)
      requires Valid() && |pending| >= 2 && pending[0] == a && pending[1] == b && a != b && a.rounds == 0
      requires a in tenants && b in tenants
      modifies this, slots, tenants`slot, tenants`prev, tenants`next
      ensures node == Some(b) && b !in table && fires == (old(b.rounds) == 0) && after == None
      ensures pending == old(pending)[2..] && Late()
    {
      hide Threaded, Counts;
      node := TakeDue(a, b);
      // the callback of `a`
      Detach(b);
      // the next turn, on `b`
      fires := b.rounds == 0;
      after := b.next;
      Loose(lists, slots[..], Wires(), b);
      PassedOver(table, lists, Wires(), LapsLeft(), cursor, pending);
    }

    /** Nor may it re-arm that node: the walk follows it into its new slot. There it fires at once
        if the new delay is within a revolution, and else loses a lap; then the walk goes on
        through the new slot's list, and what is left of the old one is passed over. Only if the two
        are the same, the node is now the first of the list, and the walk goes on from there: to
        what it has visited before, and then to what was left. */
    method SuccessorRearmed(a: TimerNode, b: TimerNode, delay: int)
      returns (node: Option<TimerNode>, fires: bool, after: Option<TimerNode>)
      requires Valid() && |pending| >= 2 && pending[0] == a && pending[1] == b && a != b && a.rounds == 0
      requires a in tenants && b in tenants
      modifies this, slots, tenants`slot, tenants`prev, tenants`next, tenants`rounds
      ensures cursor == old(cursor) < SLOTS
      ensures node == Some(b) && b in table && table[b] == EffectiveTicks(delay, tick) >= 1
      ensures fires == (table[b] <= SLOTS)
      ensures !fires ==>
                var s := SlotFor(RequestedTicks(delay, tick), cursor);
                b.rounds > 0 && TicksLeft(b.rounds - 1, s, cursor, false) == table[b] - SLOTS
      ensures after.Some? ==> after.value in tenants && after.value.slot == SlotFor(RequestedTicks(delay, tick), cursor)
      ensures pending == old(pending)[2..] && Late()
      ensures SlotFor(RequestedTicks(delay, tick), cursor) == cursor ==>
                && |lists| == SLOTS && lists[cursor].list != [] && lists[cursor].list[0] == b
                && after == FirstOf(lists[cursor].list[1..]) && lists[cursor].EndsWith(pending) && b !in pending
    {
      hide Valid, TicksLeft, RequestedTicks, LapsFor, SlotFor, Late, EffectiveTicks;
      node := TakeDue(a, b);
      // the callback of `a`
      Rearm(b, delay);
      // the next turn, on `b`
      fires := b.rounds == 0;
      after := b.next;
      LapsDecide(b.rounds, b.slot, cursor);
      NextInSlot(b);
      LeftOver();
    }

    lemma NextInSlot(n: TimerNode)
      requires Valid() && n in tenants && n.slot != -1
      ensures n.next.Some? ==> n.next.value in tenants && n.next.value.slot == n.slot
    {
      hide Threaded, Counts;
      SameSlot(lists, slots[..], Wires(), n);
    }

    lemma LeftOver()
      requires Valid()
      ensures Late() && |lists| == SLOTS && lists[cursor].EndsWith(pending)
    {
      hide Threaded, Counts, TicksLeft;
      PassedOver(table, lists, Wires(), LapsLeft(), cursor, pending);
      CountsFacts(table, lists, Wires(), LapsLeft(), cursor, pending);
    }

    method Rearm(b: TimerNode, delay: int)
      requires Valid() && b in tenants && b.slot != -1 && FirstOf(pending) == Some(b)
      modifies this, slots, tenants`slot, tenants`prev, tenants`next, tenants`rounds
      ensures Valid() && tenants == old(tenants) && cursor == old(cursor) && pending == old(pending)[1..]
      ensures b.slot == SlotFor(RequestedTicks(delay, tick), cursor) && b in table && b !in pending
      ensures Leads(b)
      ensures table[b] == TicksLeft(b.rounds, b.slot, cursor, false) == EffectiveTicks(delay, tick)
    {
      hide Valid, TicksLeft, RequestedTicks, LapsFor, SlotFor;
      Detach(b);
      NotWaiting(b);
      var ticks := RequestedTicks(delay, tick);
      Placed(ticks, cursor);
      Attach(b, SlotFor(ticks, cursor), LapsFor(ticks));
      FirstThere(b);
    }

    lemma NotWaiting(n: TimerNode)
      requires Valid() && n in tenants && n.slot == -1
      ensures n !in pending
    {
      hide Threaded, Counts;
      Unarmed(table, lists, Wires(), LapsLeft(), cursor, pending, n);
    }

    /** The node is the first of its slot's list, and points at the second. */
    ghost predicate Leads(n: TimerNode)
      reads `lists, n`slot, n`next
    {
      && |lists| == SLOTS && 0 <= n.slot < SLOTS && lists[n.slot].list != [] && lists[n.slot].list[0] == n
      && n.next == FirstOf(lists[n.slot].list[1..])
    }

    lemma FirstThere(n: TimerNode)
      requires Valid() && n in tenants && 0 <= n.slot < SLOTS && slots[n.slot] == Some(n)
      ensures Leads(n)
    {
      hide Counts;
      HeadOfSlot(lists, slots[..], Wires(), n);
    }
  }

  lemma HeadOfSlot(lists: Lists, heads: Heads, w: Wiring, n: TimerNode)
    requires Threaded(lists, heads, w) && n in w && 0 <= w[n].slot < SLOTS && heads[w[n].slot] == Some(n)
    ensures var o := lists[w[n].slot]; o.list != [] && o.list[0] == n && w[n].next == FirstOf(o.list[1..])
  {
    hide Homes;
    assert InPlace(lists, n, w[n]);
  }

  /** A node with no ticks left is waiting to be visited. */
  lemma IsWaiting(t: Table, lists: Lists, w: Wiring, laps: Laps, cursor: nat, pending: seq<TimerNode>, n: TimerNode)
    requires Counts(t, lists, w, laps, cursor, pending) && n in t && t[n] == 0
    ensures n in pending && n in laps && laps[n] == 0
  {
  }

  lemma TwoWaiting(t: Table, lists: Lists, heads: Heads, w: Wiring, laps: Laps, cursor: nat, pending: seq<TimerNode>,
                   a: TimerNode, b: TimerNode)
    requires Threaded(lists, heads, w) && Counts(t, lists, w, laps, cursor, pending)
    requires a in pending && b in pending && a != b && w.Keys == {a, b}
    ensures |pending| >= 2 && pending[0] in {a, b} && pending[1] in {a, b} && pending[0] != pending[1]
  {
    hide Order.Ok, Order.EndsWith, Order.First, TicksLeft, InPlace, Homes;
    var i :| 0 <= i < |pending| && pending[i] == a;
    var j :| 0 <= j < |pending| && pending[j] == b;
    assert i != j && |pending| >= 2;
    lists[cursor].RestHead(pending);
    assert pending[1] == pending[1..][0];
    assert pending[0] in t.Keys && pending[1] in t.Keys && t.Keys <= w.Keys;
  }

  lemma FollowsStep(t: Table, e: Event, u: Table)
    requires Follows(t, [e], u)
    ensures Legal(t, e) && u == Step(t, e)
  {
    assert [e][1..] == [];
  }

  /** A wheel with two nodes armed for two ticks. */
  method TwoArmed() returns (w: Wheel, x: TimerNode, y: TimerNode)
    ensures fresh(w) && fresh(w.slots) && fresh(x) && fresh(y) && x != y && w.tenants == {x, y} && w.tick == 1
    ensures w.Valid() && w.pending == [] && x in w.table && y in w.table && w.table[x] == w.table[y] == 2
  {
    hide Wheel.Valid, Follows, Ticks;
    w := new Wheel(1);
    x := new TimerNode(true);
    y := new TimerNode(true);
    w.Adopt(x);
    w.Adopt(y);
    ghost var t0 := w.table;
    ghost var log := w.Arm(x, 2);
    FollowsStep(t0, log[0], w.table);
    ghost var t1 := w.table;
    log := w.Arm(y, 2);
    FollowsStep(t1, log[0], w.table);
  }

  /** A wheel with two nodes armed for two ticks, in the second of them. */
  method TwoDueWheel() returns (w: Wheel, a: TimerNode, b: TimerNode)
    ensures fresh(w) && fresh(w.slots) && fresh(a) && fresh(b) && a != b && w.tenants == {a, b} && w.tick == 1
    ensures w.Valid() && |w.pending| >= 2 && w.pending[0] == a && w.pending[1] == b && a.rounds == 0 && b.rounds == 0
  {
    hide Wheel.Valid, Follows, Legal, Ticks, Fired;
    var x, y;
    w, x, y := TwoArmed();
    ghost var t2 := w.table;
    ghost var log := w.Advance([]);
    w.Prompt();
    FiresOnTime(t2, log, w.table, x);
    FiresOnTime(t2, log, w.table, y);
    ghost var t3 := w.table;
    log := w.Turn();
    FollowsStep(t3, Tick, w.table);
    w.TwoDue(x, y);
    a := w.slots[w.cursor].value;
    b := if a == x then y else x;
  }

  /** A cancelled node fires. */
  method CancelledStillFires() returns (w: Wheel, b: TimerNode, fires: bool)
    ensures fires && b !in w.table
  {
    hide Wheel.Valid, Wheel.Late;
    var a, node, after;
    w, a, b := TwoDueWheel();
    node, fires, after := w.SuccessorCancelled(a, b);
  }

  /** A node just armed for five ticks fires at once. */
  method RearmedFiresAtOnce() returns (w: Wheel, b: TimerNode, fires: bool)
    ensures fires && b in w.table && w.table[b] == 5
  {
    hide Wheel.Valid, Wheel.Late, TicksLeft;
    var a, node, after;
    w, a, b := TwoDueWheel();
    node, fires, after := w.SuccessorRearmed(a, b, 5);
  }

  lemma SameSlot(lists: Lists, heads: Heads, w: Wiring, n: TimerNode)
    requires Threaded(lists, heads, w) && n in w && w[n].slot != -1
    ensures w[n].next.Some? ==> w[n].next.value in w && w[w[n].next.value].slot == w[n].slot
  {
    hide Order.Ok, Order.Prev, Order.Next, Order.First;
    assert InPlace(lists, n, w[n]);
    lists[w[n].slot].Neighbours(n);
  }

  lemma LapsDecide(rounds: nat, slot: nat, cursor: nat)
    requires slot < SLOTS && cursor < SLOTS
    ensures TicksLeft(rounds, slot, cursor, false) <= SLOTS <==> rounds == 0
    ensures rounds > 0 ==> TicksLeft(rounds - 1, slot, cursor, false) == TicksLeft(rounds, slot, cursor, false) - SLOTS
  {
  }
}
