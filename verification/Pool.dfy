/** The client's connection pool: per-origin buckets whose limits must hold across every
    suspension point. */
module Pool {
  import opened Forests
  import opened Optional

  /** Host, and port with the scheme in its lowest bit. */
  type Key = (string, nat)

  /** A connection and the origin it goes to. */
  datatype Conn = Conn(id: nat, key: Key)

  /** A request parked on a bucket. */
  class Waiter {
    const key: Key
    var granted: Option<Conn>
    var expired: bool
    var woken: bool

    constructor (key: Key)
      ensures this.key == key && granted == None && !expired && !woken
    {
      this.key, granted, expired, woken := key, None, false, false;
    }
  }

  /** What a waiter finds when it runs again. */
  datatype Ticket = Ticket(granted: Option<Conn>, expired: bool, woken: bool)

  datatype Bucket = Bucket(key: Key, idle: seq<Conn>, busy: seq<Conn>, waiters: seq<Waiter>, opening: nat)

  datatype Options = Options(maxPerHost: nat, maxIdle: nat, maxTotal: nat)

  function Held(b: Bucket): nat {
    |b.idle| + |b.busy|
  }

  ghost function Sum(bs: seq<Bucket>): nat {
    if bs == [] then 0 else Held(bs[0]) + Sum(bs[1..])
  }

  lemma {:induction false} SumUpdate(bs: seq<Bucket>, i: nat, b: Bucket)
    requires i < |bs|
    ensures Sum(bs[i := b]) == Sum(bs) - Held(bs[i]) + Held(b)
    ensures Sum(bs) >= Held(bs[i])
  {
    if i == 0 {
      assert bs[0 := b][1..] == bs[1..];
    } else {
      SumUpdate(bs[1..], i - 1, b);
      assert bs[i := b][1..] == bs[1..][i - 1 := b];
    }
  }

  lemma {:induction false} SumAppend(bs: seq<Bucket>, b: Bucket)
    ensures Sum(bs + [b]) == Sum(bs) + Held(b)
  {
    if bs == [] {
      assert bs + [b] == [b] && [b][1..] == [];
    } else {
      SumAppend(bs[1..], b);
      assert (bs + [b])[1..] == bs[1..] + [b];
    }
  }

  /** Opens in flight. */
  ghost function Openings(bs: seq<Bucket>): nat {
    if bs == [] then 0 else bs[0].opening + Openings(bs[1..])
  }

  lemma {:induction false} OpeningsUpdate(bs: seq<Bucket>, i: nat, b: Bucket)
    requires i < |bs|
    ensures Openings(bs[i := b]) == Openings(bs) - bs[i].opening + b.opening
  {
    if i == 0 {
      assert bs[0 := b][1..] == bs[1..];
    } else {
      OpeningsUpdate(bs[1..], i - 1, b);
      assert bs[i := b][1..] == bs[1..][i - 1 := b];
    }
  }

  lemma {:induction false} OpeningsAppend(bs: seq<Bucket>, b: Bucket)
    ensures Openings(bs + [b]) == Openings(bs) + b.opening
  {
    if bs == [] {
      assert bs + [b] == [b] && [b][1..] == [];
    } else {
      OpeningsAppend(bs[1..], b);
      assert (bs + [b])[1..] == bs[1..] + [b];
    }
  }

  /** Every connection the pool holds, as often as it holds it. */
  ghost function Holdings(bs: seq<Bucket>): multiset<Conn> {
    if bs == [] then multiset{} else Owns(bs[0]) + Holdings(bs[1..])
  }

  ghost function Owns(b: Bucket): multiset<Conn> {
    multiset(b.idle) + multiset(b.busy)
  }

  lemma {:induction false} HoldingsUpdate(bs: seq<Bucket>, i: nat, b: Bucket)
    requires i < |bs|
    ensures Holdings(bs[i := b]) + Owns(bs[i]) == Holdings(bs) + Owns(b)
  {
    hide Owns;
    if i == 0 {
      assert bs[0 := b][1..] == bs[1..];
    } else {
      HoldingsUpdate(bs[1..], i - 1, b);
      var less := bs[1..];
      assert bs[i := b][1..] == less[i - 1 := b];
      Regroup(Owns(bs[0]), Holdings(less[i - 1 := b]), Owns(bs[i]), Holdings(less), Owns(b));
    }
  }

  lemma Regroup(a: multiset<Conn>, h: multiset<Conn>, x: multiset<Conn>, g: multiset<Conn>, y: multiset<Conn>)
    requires h + x == g + y
    ensures a + h + x == a + g + y
  {
    assert a + h + x == a + (h + x) && a + g + y == a + (g + y);
  }

  lemma {:induction false} HoldingsAppend(bs: seq<Bucket>, b: Bucket)
    requires b.idle == [] && b.busy == []
    ensures Holdings(bs + [b]) == Holdings(bs)
  {
    if bs == [] {
      assert bs + [b] == [b] && [b][1..] == [];
    } else {
      HoldingsAppend(bs[1..], b);
      assert (bs + [b])[1..] == bs[1..] + [b];
    }
  }

  lemma {:induction false} HoldingsCount(bs: seq<Bucket>)
    ensures |Holdings(bs)| == Sum(bs)
  {
    if bs != [] { HoldingsCount(bs[1..]); }
  }

  /** Every connection made is held, under way between the two, or closed. */
  ghost predicate Balanced(made: multiset<Conn>, bs: seq<Bucket>, due: multiset<Conn>, closed: seq<Conn>) {
    made == Holdings(bs) + due + multiset(closed)
  }

  lemma Stored(made: multiset<Conn>, bs: seq<Bucket>, i: nat, b: Bucket, due: multiset<Conn>, due': multiset<Conn>,
               closed: seq<Conn>)
    requires Balanced(made, bs, due, closed) && i < |bs| && Owns(b) + due' == Owns(bs[i]) + due
    ensures Balanced(made, bs[i := b], due', closed)
  {
    hide Holdings, Owns;
    HoldingsUpdate(bs, i, b);
    Cancel(Holdings(bs), Owns(bs[i]), due, Holdings(bs[i := b]), Owns(b), due');
  }

  lemma Cancel(h: multiset<Conn>, x: multiset<Conn>, d: multiset<Conn>,
               h': multiset<Conn>, y: multiset<Conn>, d': multiset<Conn>)
    requires h' + x == h + y && y + d' == x + d
    ensures h' + d' == h + d
  {
    forall c ensures (h' + d')[c] == (h + d)[c] {
      assert h'[c] + x[c] == (h' + x)[c] == (h + y)[c] && (y + d')[c] == y[c] + d'[c] == (x + d)[c];
    }
  }

  lemma SameLists(made: multiset<Conn>, bs: seq<Bucket>, i: nat, b: Bucket, due: multiset<Conn>, closed: seq<Conn>)
    requires Balanced(made, bs, due, closed) && i < |bs| && b.idle == bs[i].idle && b.busy == bs[i].busy
    ensures Balanced(made, bs[i := b], due, closed)
  {
    Stored(made, bs, i, b, due, due, closed);
  }

  lemma TakesIn(made: multiset<Conn>, bs: seq<Bucket>, i: nat, b: Bucket, closed: seq<Conn>, conn: Conn)
    requires Balanced(made, bs, multiset{conn}, closed) && i < |bs|
    requires || (b.idle == bs[i].idle && b.busy == bs[i].busy + [conn])
             || (b.idle == bs[i].idle + [conn] && b.busy == bs[i].busy)
    ensures Balanced(made, bs[i := b], multiset{}, closed)
  {
    hide Balanced;
    Stored(made, bs, i, b, multiset{conn}, multiset{}, closed);
  }

  lemma GivesOut(made: multiset<Conn>, bs: seq<Bucket>, i: nat, b: Bucket, closed: seq<Conn>, k: nat, conn: Conn)
    requires Balanced(made, bs, multiset{}, closed) && i < |bs|
    requires || (b.idle == bs[i].idle && k < |bs[i].busy| && conn == bs[i].busy[k] && b.busy == Drop(bs[i].busy, k))
             || (b.busy == bs[i].busy && k < |bs[i].idle| && conn == bs[i].idle[k] && b.idle == Drop(bs[i].idle, k))
    ensures Balanced(made, bs[i := b], multiset{conn}, closed)
  {
    hide Balanced;
    if b.idle == bs[i].idle && k < |bs[i].busy| && conn == bs[i].busy[k] && b.busy == Drop(bs[i].busy, k) {
      DropCounts(bs[i].busy, k);
    } else {
      DropCounts(bs[i].idle, k);
    }
    Stored(made, bs, i, b, multiset{}, multiset{conn}, closed);
  }

  lemma DropCounts(s: seq<Conn>, k: nat)
    requires k < |s|
    ensures multiset(Drop(s, k)) + multiset{s[k]} == multiset(s)
  {
    assert s == s[..k] + [s[k]] + s[k + 1..];
  }

  lemma NowMade(made: multiset<Conn>, bs: seq<Bucket>, closed: seq<Conn>, conn: Conn)
    requires Balanced(made, bs, multiset{}, closed)
    ensures Balanced(made + multiset{conn}, bs, multiset{conn}, closed)
  {
  }

  lemma NowClosed(made: multiset<Conn>, bs: seq<Bucket>, closed: seq<Conn>, conn: Conn)
    requires Balanced(made, bs, multiset{conn}, closed)
    ensures Balanced(made, bs, multiset{}, closed + [conn])
  {
  }

  lemma ChangesList(made: multiset<Conn>, bs: seq<Bucket>, i: nat, b: Bucket, closed: seq<Conn>)
    requires Balanced(made, bs, multiset{}, closed) && i < |bs| && bs[i].idle != []
    requires b.idle == bs[i].idle[..|bs[i].idle| - 1] && b.busy == bs[i].busy + [bs[i].idle[|bs[i].idle| - 1]]
    ensures Balanced(made, bs[i := b], multiset{}, closed)
  {
    hide Balanced;
    assert bs[i].idle == b.idle + [bs[i].idle[|bs[i].idle| - 1]];
    Stored(made, bs, i, b, multiset{}, multiset{}, closed);
  }

  lemma NewBucket(made: multiset<Conn>, bs: seq<Bucket>, b: Bucket, closed: seq<Conn>)
    requires Balanced(made, bs, multiset{}, closed) && b.idle == [] && b.busy == []
    ensures Balanced(made, bs + [b], multiset{}, closed)
  {
    HoldingsAppend(bs, b);
  }

  /** The last sound connection of the list stands at `k`; there is none if nothing is picked. */
  ghost predicate Picked(idle: seq<Conn>, sound: set<Conn>, got: Option<Conn>, k: nat) {
    if got.None? then forall j :: 0 <= j < |idle| ==> idle[j] !in sound
    else k < |idle| && idle[k] == got.value && got.value in sound && forall j :: k < j < |idle| ==> idle[j] !in sound
  }

  /** The last `n` of a list, the last first. */
  ghost function Newest(s: seq<Conn>, n: nat): (r: seq<Conn>)
    requires n <= |s|
    ensures |r| == n && forall k :: 0 <= k < n ==> r[k] == s[|s| - 1 - k]
  {
    seq(n, k requires 0 <= k < n => s[|s| - 1 - k])
  }

  function Max(a: nat, b: nat): nat {
    if a > b then a else b
  }

  /** Somebody waits, and nothing is on loan or being opened. */
  predicate Stranded(b: Bucket) {
    b.waiters != [] && b.busy == [] && b.opening == 0
  }

  ghost predicate NoneStranded(bs: seq<Bucket>) {
    forall i :: 0 <= i < |bs| ==> !Stranded(bs[i])
  }

  /** The limits of a bucket; connections of its own origin, no two the same; and nobody waits
      while a connection is idle. */
  ghost predicate BucketOk(b: Bucket, opt: Options) {
    && |b.idle| + |b.busy| + b.opening <= opt.maxPerHost
    && |b.idle| <= opt.maxIdle
    && (b.waiters != [] ==> b.idle == [])
    && Distinct(b.idle + b.busy) && Distinct(b.waiters)
    && (forall k :: 0 <= k < |b.idle| ==> b.idle[k].key == b.key)
    && (forall k :: 0 <= k < |b.busy| ==> b.busy[k].key == b.key)
  }

  /** Whoever is queued, is queued with its own origin and has not been woken. */
  ghost predicate Queued(bs: seq<Bucket>, tickets: map<Waiter, Ticket>) {
    forall i, k :: 0 <= i < |bs| && 0 <= k < |bs[i].waiters| ==> Waits(bs[i].waiters[k], bs[i].key, tickets)
  }

  ghost predicate Waits(w: Waiter, key: Key, tickets: map<Waiter, Ticket>) {
    w.key == key && w in tickets && tickets[w] == Ticket(None, false, false)
  }

  ghost predicate Kept(bs: seq<Bucket>, opt: Options) {
    && (forall i :: 0 <= i < |bs| ==> BucketOk(bs[i], opt))
    && (forall i, j :: 0 <= i < j < |bs| ==> bs[i].key != bs[j].key)
  }

  lemma KeptUpdate(bs: seq<Bucket>, opt: Options, i: nat, b: Bucket)
    requires Kept(bs, opt) && i < |bs| && BucketOk(b, opt) && b.key == bs[i].key
    ensures Kept(bs[i := b], opt)
  {
  }

  lemma KeptAppend(bs: seq<Bucket>, opt: Options, key: Key)
    requires Kept(bs, opt) && forall i :: 0 <= i < |bs| ==> bs[i].key != key
    ensures Kept(bs + [Bucket(key, [], [], [], 0)], opt)
  {
    assert BucketOk(Bucket(key, [], [], [], 0), opt);
    hide BucketOk;
  }

  // moving one connection about within a bucket

  lemma DistinctOut(a: seq<Conn>, c: Conn, b: seq<Conn>)
    requires Distinct(a + [c] + b)
    ensures Distinct(a + b) && c !in a && c !in b
  {
    var all, n, less := a + [c] + b, |a|, a + b;
    assert all[n] == c;
    assert forall x :: 0 <= x < |less| ==> less[x] == all[if x < n then x else x + 1];
    assert forall x :: 0 <= x < n ==> all[x] == a[x];
    assert forall x :: 0 <= x < |b| ==> all[n + 1 + x] == b[x];
  }

  lemma DistinctIn(a: seq<Conn>, c: Conn, b: seq<Conn>)
    requires Distinct(a + b) && c !in a && c !in b
    ensures Distinct(a + [c] + b)
  {
    var all, n, less := a + [c] + b, |a|, a + b;
    forall i, j | 0 <= i < j < |all| ensures all[i] != all[j] {
      if i == n {
        assert all[j] == b[j - n - 1];
      } else if j == n {
        assert all[i] == a[i];
      } else {
        assert all[i] == less[if i < n then i else i - 1] && all[j] == less[if j < n then j else j - 1];
      }
    }
  }

  lemma PopIdle(b: Bucket, opt: Options)
    requires BucketOk(b, opt) && b.idle != []
    ensures var c, rest := b.idle[|b.idle| - 1], b.idle[..|b.idle| - 1];
            && c.key == b.key && c !in rest && c !in b.busy
            && BucketOk(b.(idle := rest), opt)
            && BucketOk(b.(idle := rest, busy := b.busy + [c]), opt)
  {
    var c, rest := b.idle[|b.idle| - 1], b.idle[..|b.idle| - 1];
    assert b.idle + b.busy == rest + [c] + b.busy;
    DistinctOut(rest, c, b.busy);
    DistinctIn(rest + b.busy, c, []);
    assert rest + (b.busy + [c]) == (rest + b.busy) + [c] + [] && (rest + b.busy) + [] == rest + b.busy;
  }

  ghost function Drop(s: seq<Conn>, k: nat): seq<Conn>
    requires k < |s|
  {
    s[..k] + s[k + 1..]
  }

  lemma DropBusy(b: Bucket, opt: Options, k: nat)
    requires BucketOk(b, opt) && k < |b.busy|
    ensures var rest := Drop(b.busy, k);
            && b.busy[k] !in rest && b.busy[k] !in b.idle && b.busy[k].key == b.key && |rest| == |b.busy| - 1
            && BucketOk(b.(busy := rest), opt)
  {
    var front, c, back := b.busy[..k], b.busy[k], b.busy[k + 1..];
    assert b.idle + b.busy == (b.idle + front) + [c] + back;
    DistinctOut(b.idle + front, c, back);
    assert b.idle + Drop(b.busy, k) == (b.idle + front) + back;
  }

  lemma DropIdleOk(b: Bucket, opt: Options, k: nat)
    requires BucketOk(b, opt) && k < |b.idle|
    ensures BucketOk(b.(idle := Drop(b.idle, k)), opt) && b.idle[k] !in Drop(b.idle, k)
  {
    var front, c, back := b.idle[..k], b.idle[k], b.idle[k + 1..];
    assert b.idle + b.busy == front + [c] + (back + b.busy);
    DistinctOut(front, c, back + b.busy);
    assert Drop(b.idle, k) + b.busy == front + (back + b.busy);
  }

  lemma AddBusy(b: Bucket, opt: Options, c: Conn)
    requires BucketOk(b, opt) && c.key == b.key && c !in b.idle && c !in b.busy && Held(b) + b.opening < opt.maxPerHost
    ensures BucketOk(b.(busy := b.busy + [c]), opt)
  {
    DistinctIn(b.idle + b.busy, c, []);
    assert b.idle + (b.busy + [c]) == (b.idle + b.busy) + [c] + [] && (b.idle + b.busy) + [] == b.idle + b.busy;
  }

  lemma AddIdle(b: Bucket, opt: Options, c: Conn)
    requires BucketOk(b, opt) && c.key == b.key && c !in b.idle && c !in b.busy && Held(b) + b.opening < opt.maxPerHost
    requires b.waiters == [] && |b.idle| < opt.maxIdle
    ensures BucketOk(b.(idle := b.idle + [c]), opt)
  {
    DistinctIn(b.idle, c, b.busy);
  }

  lemma DistinctTail<T>(s: seq<T>)
    requires Distinct(s) && s != []
    ensures Distinct(s[1..]) && s[0] !in s[1..]
  {
  }

  // ------------------------------------------------------------------- the pool

  /** Where acquire() comes to its first stop: a connection in hand, one to be opened, or parked. */
  datatype Attempt = Reused(conn: Conn) | Opening | Parked(waiter: Waiter)

  class Pool {
    const opt: Options
    var buckets: seq<Bucket>
    var total: nat
    // the connections closed, in that order
    var closed: seq<Conn>
    // the connections opened
    ghost var made: multiset<Conn>
    // the waiters whose frames exist
    ghost var parked: set<Waiter>
    // connections in callers' hands, and those whose borrower died before it could run
    ghost var hands: set<Conn>
    ghost var lost: set<Conn>
    // a connection on loan was given back by somebody who did not have it
    ghost var careless: bool
    // the most connections there ever were, held or being opened, and the most opens in flight
    ghost var most: nat
    ghost var peak: nat
    // an open has begun although those in flight would have filled the pool
    ghost var crowded: bool
    // a bucket with waiters has lost its last loan or open, or never had one
    ghost var lapsed: bool

    /** The total limit is passed in a run if and only if an open begins while the connections held
        and being opened are as many as the limit; and it is passed by less than the most opens
        ever in flight. */
    ghost predicate Ledger()
      reads `buckets, `total, `most, `peak, `crowded
    {
      && total + Openings(buckets) <= most && Openings(buckets) <= peak
      && (most > opt.maxTotal <==> crowded)
      && most <= if peak == 0 then 0 else opt.maxTotal + peak - 1
    }

    ghost function Tickets(): map<Waiter, Ticket>
      reads `parked, parked
    {
      map w | w in parked :: Ticket(w.granted, w.expired, w.woken)
    }

    ghost predicate Books()
      reads this, parked
    {
      Kept(buckets, opt) && total == Sum(buckets) && Queued(buckets, Tickets()) && Ledger()
    }

    ghost predicate Loans()
      reads this, parked
    {
      !careless ==> Lending(Out(buckets), Tickets(), hands, lost)
    }

    /** A connection once opened is held until it is closed, and closed no more than once. */
    ghost predicate Accounts()
      reads `buckets, `made, `closed
    {
      Balanced(made, buckets, multiset{}, closed)
    }

    ghost predicate Valid()
      reads this, parked
    {
      Books() && (!lapsed ==> NoneStranded(buckets)) && Loans() && Accounts()
    }

    constructor (opt: Options)
      ensures Valid() && this.opt == opt && buckets == [] && total == 0 && parked == {}
      ensures most == 0 && peak == 0 && !crowded && !lapsed && hands == {} && lost == {} && !careless
      ensures closed == [] && made == multiset{}
    {
      this.opt, buckets, total, parked, closed, made := opt, [], 0, {}, [], multiset{};
      most, peak, crowded, lapsed := 0, 0, false, false;
      hands, lost, careless := {}, {}, false;
    }

    /** What storing a bucket does to the sums. */
    lemma Storing(i: nat, b: Bucket)
      requires Kept(buckets, opt) && i < |buckets| && BucketOk(b, opt) && b.key == buckets[i].key
      ensures Kept(buckets[i := b], opt) && Sum(buckets[i := b]) == Sum(buckets) - Held(buckets[i]) + Held(b)
      ensures Sum(buckets) >= Held(buckets[i])
      ensures Openings(buckets[i := b]) == Openings(buckets) - buckets[i].opening + b.opening
    {
      KeptUpdate(buckets, opt, i, b);
      SumUpdate(buckets, i, b);
      OpeningsUpdate(buckets, i, b);
    }

    /** The bucket of an origin, made if it is new. */
    method BucketFor(key: Key) returns (i: nat)
      requires Valid()
      modifies `buckets
      ensures Valid() && i < |buckets| && buckets[i].key == key
      ensures buckets == old(buckets) || (buckets == old(buckets) + [Bucket(key, [], [], [], 0)] && i == |old(buckets)|)
      ensures Openings(buckets) == Openings(old(buckets)) && Out(buckets) == Out(old(buckets))
    {
      hide Kept, Sum, Openings, Lending, Out, Tickets, Balanced;
      i := 0;
      while i < |buckets|
        invariant i <= |buckets| && forall j :: 0 <= j < i ==> buckets[j].key != key
      {
        if buckets[i].key == key { return; }
        i := i + 1;
      }
      KeptAppend(buckets, opt, key);
      SumAppend(buckets, Bucket(key, [], [], [], 0));
      OpeningsAppend(buckets, Bucket(key, [], [], [], 0));
      OutAppend(buckets, Bucket(key, [], [], [], 0));
      NewBucket(made, buckets, Bucket(key, [], [], [], 0), closed);
      buckets := buckets + [Bucket(key, [], [], [], 0)];
    }

    /** Step 1 of acquire(): the newest idle connection that is still sound; those found stale on
        the way are closed. */
    method TakeIdle(i: nat, sound: set<Conn>) returns (got: Option<Conn>)
      requires Valid() && i < |buckets|
      modifies `buckets, `total, `hands, `closed
      ensures Valid() && |buckets| == |old(buckets)| && hands == old(hands) + if got.Some? then {got.value} else {}
      ensures forall j :: 0 <= j < |buckets| && j != i ==> buckets[j] == old(buckets)[j]
      ensures var b, b' := old(buckets)[i], buckets[i];
              && b'.key == b.key && b'.waiters == b.waiters && b'.opening == b.opening && b'.idle <= b.idle
              && total + Held(b) == old(total) + Held(b') && Openings(buckets) == Openings(old(buckets))
              && (got.None? ==> b'.idle == [] && b'.busy == b.busy)
              && (got.Some? ==> |b'.idle| < |b.idle| && b.idle[|b'.idle|] == got.value)
              && (got.Some? ==> b'.busy == b.busy + [got.value] && got.value !in b.busy)
              && Picked(b.idle, sound, got, |b'.idle|)
              && closed == old(closed) + Newest(b.idle, |b.idle| - |b'.idle| - if got.Some? then 1 else 0)
    {
      hide Kept, BucketOk, Sum, Openings, Lending, Out, Tickets, Queued, Balanced;
      ghost var b0 := buckets[i];
      while buckets[i].idle != []
        invariant Valid() && |buckets| == |old(buckets)|
        invariant forall j :: 0 <= j < |buckets| && j != i ==> buckets[j] == old(buckets)[j]
        invariant buckets[i] == b0.(idle := buckets[i].idle) && buckets[i].idle <= b0.idle
        invariant forall k :: |buckets[i].idle| <= k < |b0.idle| ==> b0.idle[k] !in sound
        invariant total + Held(b0) == old(total) + Held(buckets[i])
        invariant Openings(buckets) == Openings(old(buckets)) && hands == old(hands)
        invariant closed == old(closed) + Newest(b0.idle, |b0.idle| - |buckets[i].idle|)
        decreases |buckets[i].idle|
      {
        var b := buckets[i];
        var conn := b.idle[|b.idle| - 1];
        if conn in sound {
          LendIdle(i);
          return Some(conn);
        }
        Stale(i);
        assert Newest(b0.idle, |b0.idle| - |b.idle| + 1) == Newest(b0.idle, |b0.idle| - |b.idle|) + [conn];
      }
      got := None;
    }

    /** The newest idle connection goes to busy. */
    method LendIdle(i: nat)
      requires Valid() && i < |buckets| && buckets[i].idle != []
      modifies `buckets, `hands
      ensures Valid() && Openings(buckets) == Openings(old(buckets))
      ensures var b := old(buckets)[i]; var rest, conn := b.idle[..|b.idle| - 1], b.idle[|b.idle| - 1];
              && buckets == old(buckets)[i := b.(idle := rest, busy := b.busy + [conn])]
              && hands == old(hands) + {conn} && conn !in b.busy
    {
      hide Kept, BucketOk, Sum, Openings, Lending, Out, Tickets, Queued, Balanced;
      var b := buckets[i];
      var conn, less := b.idle[|b.idle| - 1], b.(idle := b.idle[..|b.idle| - 1]);
      OneOk(buckets, opt, i);
      PopIdle(b, opt);
      var moved := less.(busy := b.busy + [conn]);
      Lends(i, moved, conn);
      Storing(i, moved);
      ChangesList(made, buckets, i, moved, closed);
      buckets := buckets[i := moved];
      hands := hands + {conn};
    }

    /** The newest idle connection is closed and no longer counted. */
    method Stale(i: nat)
      requires Valid() && i < |buckets| && buckets[i].idle != []
      modifies `buckets, `total, `closed
      ensures Valid() && Openings(buckets) == Openings(old(buckets)) && total == old(total) - 1
      ensures var b := old(buckets)[i]; var rest, conn := b.idle[..|b.idle| - 1], b.idle[|b.idle| - 1];
              buckets == old(buckets)[i := b.(idle := rest)] && closed == old(closed) + [conn]
    {
      hide Kept, BucketOk, Sum, Openings, Lending, Out, Tickets, Queued, Balanced;
      var b := buckets[i];
      var k := |b.idle| - 1;
      var less := b.(idle := b.idle[..k]);
      OneOk(buckets, opt, i);
      PopIdle(b, opt);
      Storing(i, less);
      SameQueue(buckets, i, less, Tickets());
      OutSame(buckets, i, less);
      assert less.idle == Drop(b.idle, k);
      GivesOut(made, buckets, i, less, closed, k, b.idle[k]);
      NowClosed(made, buckets[i := less], closed, b.idle[k]);
      buckets := buckets[i := less];
      closed := closed + [b.idle[k]];
      if total > 0 { total := total - 1; }
    }

    /** A connection of the bucket goes on loan to a caller. */
    lemma Lends(i: nat, b: Bucket, conn: Conn)
      requires Books() && Loans() && i < |buckets| && b.busy == buckets[i].busy + [conn] && b.key == buckets[i].key
      requires conn.key == b.key && conn !in buckets[i].busy && b.waiters == buckets[i].waiters
      ensures Queued(buckets[i := b], Tickets())
      ensures !careless ==> Lending(Out(buckets[i := b]), Tickets(), hands + {conn}, lost)
    {
      hide Kept, Sum, Openings, Lending, Out, Tickets, Queued;
      SameQueue(buckets, i, b, Tickets());
      OutMore(buckets, i, b, conn);
      NotOut(buckets, opt, i, conn);
      if !careless { LendsToCaller(Out(buckets), Tickets(), hands, lost, conn); }
    }

    /** acquire() up to where it stops: an idle connection, room for a new one, or a place in the
        bucket's queue. */
    method Acquire(i: nat, sound: set<Conn>) returns (r: Attempt)
      requires Valid() && i < |buckets|
      modifies this
      ensures Valid() && |buckets| == |old(buckets)|
      ensures forall j :: 0 <= j < |buckets| && j != i ==> buckets[j] == old(buckets)[j]
      ensures var b, b' := old(buckets)[i], buckets[i];
              && b'.key == b.key && total + Held(b) == old(total) + Held(b') && b'.idle <= b.idle
              && (r.Reused? <==> exists k :: 0 <= k < |b.idle| && b.idle[k] in sound)
              && (r.Reused? ==> b'.busy == b.busy + [r.conn] && b'.idle < b.idle)
              && (r.Reused? ==> Picked(b.idle, sound, Some(r.conn), |b'.idle|))
              && closed == old(closed) + Newest(b.idle, |b.idle| - |b'.idle| - if r.Reused? then 1 else 0)
              && (r.Reused? ==> b'.opening == b.opening && b'.waiters == b.waiters)
              && (r.Opening? ==> b' == b.(idle := [], opening := b.opening + 1))
              && (r.Opening? ==> |b.busy| + b.opening < opt.maxPerHost && total < opt.maxTotal)
              && (r.Parked? ==> b' == b.(idle := [], waiters := b.waiters + [r.waiter]) && fresh(r.waiter)
                                && !(|b.busy| + b.opening < opt.maxPerHost && total < opt.maxTotal))
      ensures parked == old(parked) + if r.Parked? then {r.waiter} else {}
      ensures Tickets() == if r.Parked? then old(Tickets())[r.waiter := Ticket(None, false, false)] else old(Tickets())
      ensures hands == old(hands) + if r.Reused? then {r.conn} else {}
      ensures lost == old(lost) && careless == old(careless) && made == old(made)
      ensures Openings(buckets) == Openings(old(buckets)) + if r.Opening? then 1 else 0
      ensures old(most) <= most && peak == if r.Opening? then Max(old(peak), Openings(buckets)) else old(peak)
      ensures crowded <==> old(crowded) || (r.Opening? && total + Openings(old(buckets)) >= opt.maxTotal)
      ensures r.Opening? ==> (total + Openings(buckets) <= opt.maxTotal <==>
                              old(total) - |old(buckets)[i].idle| + Openings(old(buckets)) < opt.maxTotal)
      ensures Stranded(buckets[i]) <==> r.Parked? && old(buckets)[i].busy == [] && old(buckets)[i].opening == 0
      ensures lapsed == (old(lapsed) || Stranded(buckets[i]))
    {
      hide Books, Loans, Tickets, Sum, Openings, Accounts;
      var got := TakeIdle(i, sound);
      if got.Some? { return Reused(got.value); }
      if |buckets[i].busy| + buckets[i].opening < opt.maxPerHost && total < opt.maxTotal {
        BeginOpen(i);
        return Opening;
      }
      var w := Park(i);
      return Parked(w);
    }

    /** Step 2 of acquire(): an open begins. */
    method BeginOpen(i: nat)
      requires Valid() && i < |buckets| && buckets[i].idle == []
      requires |buckets[i].busy| + buckets[i].opening < opt.maxPerHost && total < opt.maxTotal
      modifies `buckets, `most, `peak, `crowded
      ensures Valid() && buckets == old(buckets)[i := old(buckets)[i].(opening := old(buckets)[i].opening + 1)]
      ensures Openings(buckets) == Openings(old(buckets)) + 1
      ensures old(most) <= most && peak == Max(old(peak), Openings(buckets))
      ensures crowded <==> old(crowded) || total + Openings(old(buckets)) >= opt.maxTotal
    {
      hide Kept, BucketOk, Sum, Openings, Lending, Out, Tickets, Queued, Balanced;
      var b := buckets[i];
      var b' := b.(opening := b.opening + 1);
      OneOk(buckets, opt, i);
      MoreOpening(b, opt);
      Storing(i, b');
      SameQueue(buckets, i, b', Tickets());
      OutSame(buckets, i, b');
      SameLists(made, buckets, i, b', multiset{}, closed);
      crowded := crowded || total + Openings(buckets) >= opt.maxTotal;
      most, peak := Max(most, total + Openings(buckets) + 1), Max(peak, Openings(buckets) + 1);
      buckets := buckets[i := b'];
    }

    /** Step 3 of acquire(): a place at the end of the queue. */
    method Park(i: nat) returns (w: Waiter)
      requires Valid() && i < |buckets| && buckets[i].idle == []
      modifies `buckets, `parked, `lapsed
      ensures Valid() && fresh(w)
      ensures buckets == old(buckets)[i := old(buckets)[i].(waiters := old(buckets)[i].waiters + [w])]
      ensures parked == old(parked) + {w} && Openings(buckets) == Openings(old(buckets))
      ensures Tickets() == old(Tickets())[w := Ticket(None, false, false)]
      ensures lapsed == (old(lapsed) || Stranded(buckets[i]))
    {
      hide Kept, BucketOk, Sum, Openings, Lending, Out, Queued, Balanced;
      var b := buckets[i];
      OneOk(buckets, opt, i);
      w := new Waiter(b.key);
      var b' := b.(waiters := b.waiters + [w]);
      NotQueuedYet(i, w);
      OneMore(b, opt, w);
      Storing(i, b');
      LongerQueue(buckets, i, b', Tickets(), w);
      OutSame(buckets, i, b');
      SameLists(made, buckets, i, b', multiset{}, closed);
      if !careless { LendsToWaiter(Out(buckets), Tickets(), hands, lost, w, Ticket(None, false, false)); }
      assert Out(buckets) + {} == Out(buckets);
      buckets := buckets[i := b'];
      parked := parked + {w};
      lapsed := lapsed || Stranded(buckets[i]);
      assert Tickets() == old(Tickets())[w := Ticket(None, false, false)];
    }

    lemma Reads(w: Waiter)
      requires w in parked
      ensures w in Tickets() && Tickets()[w] == Ticket(w.granted, w.expired, w.woken)
    {
    }

    lemma KeyOf(i: nat, k: nat)
      requires Valid() && i < |buckets| && k < |buckets[i].waiters|
      ensures var w := buckets[i].waiters[k]; w.key == buckets[i].key && w in Tickets()
    {
      hide Kept, Sum, Openings, Lending;
      assert Waits(buckets[i].waiters[k], buckets[i].key, Tickets());
    }

    lemma NotQueuedYet(i: nat, w: Waiter)
      requires Books() && i < |buckets| && w !in parked
      ensures w !in buckets[i].waiters
    {
      hide Kept, Sum, Openings;
      forall k | 0 <= k < |buckets[i].waiters| ensures buckets[i].waiters[k] != w {
        assert Waits(buckets[i].waiters[k], buckets[i].key, Tickets());
      }
    }

    /** An open that succeeds. */
    method OpenDone(i: nat, conn: Conn)
      requires Valid() && i < |buckets| && buckets[i].opening > 0
      requires conn.key == buckets[i].key && conn !in buckets[i].idle && conn !in buckets[i].busy
      modifies `buckets, `total, `hands, `made
      ensures Valid() && hands == old(hands) + {conn} && total == old(total) + 1 && made == old(made) + multiset{conn}
      ensures total + Openings(buckets) == old(total) + Openings(old(buckets))
      ensures var b := old(buckets)[i];
              buckets == old(buckets)[i := b.(opening := b.opening - 1, busy := b.busy + [conn])]
      ensures !Stranded(buckets[i])
    {
      hide Kept, Sum, Openings, Lending, Out, Tickets, Queued, Balanced;
      var b := buckets[i];
      OneOk(buckets, opt, i);
      AddBusy(b.(opening := b.opening - 1), opt, conn);
      var b' := b.(opening := b.opening - 1, busy := b.busy + [conn]);
      Lends(i, b', conn);
      Storing(i, b');
      NowMade(made, buckets, closed, conn);
      TakesIn(made + multiset{conn}, buckets, i, b', closed, conn);
      buckets := buckets[i := b'];
      total := total + 1;
      made := made + multiset{conn};
      hands := hands + {conn};
    }

    /** An open that fails, or whose coroutine dies. The slot is free again, but nobody is told:
        whoever waits goes on waiting, with room in the bucket. */
    method OpenFailed(i: nat)
      requires Valid() && i < |buckets| && buckets[i].opening > 0
      modifies `buckets, `lapsed
      ensures Valid()
      ensures buckets == old(buckets)[i := old(buckets)[i].(opening := old(buckets)[i].opening - 1)]
      ensures buckets[i].waiters != [] && |buckets[i].busy| + buckets[i].opening < opt.maxPerHost <==>
                old(buckets)[i].waiters != []
      ensures Stranded(buckets[i]) <==>
                old(buckets)[i].waiters != [] && old(buckets)[i].busy == [] && old(buckets)[i].opening == 1
      ensures lapsed == (old(lapsed) || Stranded(buckets[i]))
    {
      hide Kept, Sum, Openings, Lending, Out, Tickets, Queued, Balanced;
      var b := buckets[i];
      OneOk(buckets, opt, i);
      SameLists(made, buckets, i, b.(opening := b.opening - 1), multiset{}, closed);
      Storing(i, b.(opening := b.opening - 1));
      SameQueue(buckets, i, b.(opening := b.opening - 1), Tickets());
      OutSame(buckets, i, b.(opening := b.opening - 1));
      buckets := buckets[i := b.(opening := b.opening - 1)];
      lapsed := lapsed || Stranded(buckets[i]);
    }

    /** The longest waiter is woken, with a connection or with just the slot; no other is told
        anything. */
    method WakeFront(i: nat, granted: Option<Conn>)
      requires Books() && i < |buckets| && buckets[i].waiters != []
      modifies `buckets, parked
      ensures Books() && buckets == old(buckets)[i := old(buckets)[i].(waiters := old(buckets)[i].waiters[1..])]
      ensures Out(buckets) == Out(old(buckets))
      ensures forall due :: Balanced(made, old(buckets), due, closed) ==> Balanced(made, buckets, due, closed)
      ensures var w := old(buckets)[i].waiters[0];
              && w in old(Tickets()) && old(Tickets())[w] == Ticket(None, false, false)
              && Tickets() == old(Tickets())[w := Ticket(granted, false, true)]
    {
      hide Kept, Sum, Openings, Queued, Out, Balanced;
      var b := buckets[i];
      var w, less := b.waiters[0], b.(waiters := b.waiters[1..]);
      Foremost(i);
      Storing(i, less);
      SameQueue(buckets, i, less, Tickets());
      OutSame(buckets, i, less);
      forall due | Balanced(made, buckets, due, closed) ensures Balanced(made, buckets[i := less], due, closed) {
        SameLists(made, buckets, i, less, due, closed);
      }
      InNoQueue(buckets[i := less], i, Tickets(), w, opt);
      ToldOutside(buckets[i := less], Tickets(), w, Ticket(granted, false, true));
      w.granted := granted;
      w.woken := true;
      buckets := buckets[i := less];
      assert Tickets() == old(Tickets())[w := Ticket(granted, false, true)];
    }

    lemma Foremost(i: nat)
      requires Books() && i < |buckets| && buckets[i].waiters != []
      ensures var b := buckets[i]; var w := b.waiters[0];
              && BucketOk(b.(waiters := b.waiters[1..]), opt) && w !in b.waiters[1..]
              && w in parked && w.key == b.key && w.granted == None && !w.expired && !w.woken
    {
      hide Sum, Openings;
      var b := buckets[i];
      assert BucketOk(b, opt) && Waits(b.waiters[0], b.key, Tickets());
      DistinctTail(b.waiters);
    }

    /** A connection comes back, off the lists but still counted: to the longest waiter if it is
        still good, as a bare slot if not; with nobody waiting it is parked if there is room. */
    method GrantOrPark(i: nat, conn: Conn, alive: bool)
      requires Returning(i, conn) && i < |buckets| && conn.key == buckets[i].key
      requires conn !in buckets[i].idle && conn !in buckets[i].busy
      requires Held(buckets[i]) + buckets[i].opening < opt.maxPerHost
      requires !lapsed ==> !(|buckets[i].waiters| > 1 && buckets[i].busy == [] && buckets[i].opening == 0 && !alive)
      modifies `buckets, `total, `closed, parked
      ensures Valid() && |buckets| == |old(buckets)|
      ensures forall j :: 0 <= j < |buckets| && j != i ==> buckets[j] == old(buckets)[j]
      ensures var b, b' := old(buckets)[i], buckets[i];
              if b.waiters != [] then
                b' == b.(waiters := b.waiters[1..], busy := if alive then b.busy + [conn] else b.busy)
              else b' == if |b.idle| < opt.maxIdle then b.(idle := b.idle + [conn]) else b
      ensures Tickets() == Told(old(Tickets()), old(buckets)[i].waiters, if alive then Some(conn) else None)
      ensures closed == old(closed) + if Keeps(old(buckets)[i], opt, true, alive) then [] else [conn]
    {
      hide Valid, Returning, Tickets;
      if buckets[i].waiters != [] {
        if alive { GrantFront(i, conn); } else { Discard(i, conn); }
      } else if |buckets[i].idle| >= opt.maxIdle {
        TurnAway(i, conn);
      } else {
        ParkIdle(i, conn);
      }
    }

    /** There is no room for the connection: it is closed. */
    method TurnAway(i: nat, conn: Conn)
      requires Returning(i, conn) && buckets[i].waiters == []
      modifies `total, `closed
      ensures Valid() && closed == old(closed) + [conn]
    {
      hide Kept, Sum, BucketOk, Openings, Queued, Out, Lending, Tickets, Balanced;
      NowClosed(made, buckets, closed, conn);
      closed := closed + [conn];
      if total > 0 { total := total - 1; }
    }

    /** The connection is idle again. */
    method ParkIdle(i: nat, conn: Conn)
      requires Returning(i, conn) && conn.key == buckets[i].key && conn !in buckets[i].idle && conn !in buckets[i].busy
      requires Held(buckets[i]) + buckets[i].opening < opt.maxPerHost
      requires buckets[i].waiters == [] && |buckets[i].idle| < opt.maxIdle
      modifies `buckets
      ensures Valid() && buckets == old(buckets)[i := old(buckets)[i].(idle := old(buckets)[i].idle + [conn])]
    {
      hide Kept, Sum, BucketOk, Openings, Queued, Out, Lending, Tickets, Balanced;
      var b := buckets[i];
      OneOk(buckets, opt, i);
      var b' := b.(idle := b.idle + [conn]);
      AddIdle(b, opt, conn);
      Storing(i, b');
      SameQueue(buckets, i, b', Tickets());
      OutSame(buckets, i, b');
      TakesIn(made, buckets, i, b', closed, conn);
      buckets := buckets[i := b'];
    }

    /** A connection is off the bucket's lists and still counted. */
    ghost predicate Returning(i: nat, conn: Conn)
      reads this, parked
    {
      && Kept(buckets, opt) && total == Sum(buckets) + 1 && i < |buckets| && Queued(buckets, Tickets()) && Ledger()
      && (!lapsed ==> forall j :: 0 <= j < |buckets| && j != i ==> !Stranded(buckets[j])) && Loans()
      && Balanced(made, buckets, multiset{conn}, closed)
    }

    /** The connection goes on loan to the longest waiter. */
    method GrantFront(i: nat, conn: Conn)
      requires Returning(i, conn) && conn.key == buckets[i].key && conn !in buckets[i].idle && conn !in buckets[i].busy
      requires Held(buckets[i]) + buckets[i].opening < opt.maxPerHost && buckets[i].waiters != []
      modifies `buckets, parked
      ensures Valid() && |buckets| == |old(buckets)| && buckets == old(buckets)[i := buckets[i]]
      ensures var b := old(buckets)[i]; buckets[i] == b.(waiters := b.waiters[1..], busy := b.busy + [conn])
      ensures Tickets() == Told(old(Tickets()), old(buckets)[i].waiters, Some(conn))
    {
      hide Kept, Sum, BucketOk, Openings, Queued, Out, Lending, Tickets, Balanced;
      var b := buckets[i];
      var b' := b.(busy := b.busy + [conn]);
      OneOk(buckets, opt, i);
      AddBusy(b, opt, conn);
      Storing(i, b');
      SameQueue(buckets, i, b', Tickets());
      OutMore(buckets, i, b', conn);
      NotOut(buckets, opt, i, conn);
      TakesIn(made, buckets, i, b', closed, conn);
      buckets := buckets[i := b'];
      WakeFront(i, Some(conn));
      if !careless {
        LendsToWaiter(Out(old(buckets)), old(Tickets()), hands, lost, b.waiters[0], Ticket(Some(conn), false, true));
      }
    }

    /** A connection that is not to be used again is gone; the longest waiter gets its slot. */
    method Discard(i: nat, conn: Conn)
      requires Returning(i, conn)
      requires !lapsed ==> !(|buckets[i].waiters| > 1 && buckets[i].busy == [] && buckets[i].opening == 0)
      modifies `buckets, `total, `closed, parked
      ensures Valid() && |buckets| == |old(buckets)| && buckets == old(buckets)[i := buckets[i]]
      ensures closed == old(closed) + [conn]
      ensures var b := old(buckets)[i]; buckets[i] == if b.waiters != [] then b.(waiters := b.waiters[1..]) else b
      ensures Tickets() == Told(old(Tickets()), old(buckets)[i].waiters, None)
    {
      hide Kept, Sum, BucketOk, Openings, Queued, Out, Lending, Tickets, Balanced;
      NowClosed(made, buckets, closed, conn);
      closed := closed + [conn];
      if total > 0 { total := total - 1; }
      if buckets[i].waiters != [] {
        WakeFront(i, None);
        if !careless {
          LendsToWaiter(Out(old(buckets)), old(Tickets()), hands, lost, old(buckets)[i].waiters[0],
                        Ticket(None, false, true));
          assert Out(buckets) + {} == Out(buckets);
        }
      }
    }

    /** release(), in the connection's bucket: only one that is out on loan is taken back, so a
        second release of the same one does nothing. A connection that is not to be used again
        frees its slot for the longest waiter. */
    method ReleaseIn(i: nat, conn: Conn, reusable: bool, alive: bool)
      requires Valid() && i < |buckets| && buckets[i].key == conn.key
      modifies `buckets, `total, `closed, `lapsed, `hands, `careless, parked
      ensures Valid() && |buckets| == |old(buckets)|
      ensures forall j :: 0 <= j < |buckets| && j != i ==> buckets[j] == old(buckets)[j]
      ensures Returned(old(buckets)[i], buckets[i], opt, conn, reusable, alive)
      ensures Tickets() ==
                if conn !in old(buckets)[i].busy then old(Tickets())
                else Told(old(Tickets()), old(buckets)[i].waiters, if reusable && alive then Some(conn) else None)
      ensures hands == old(hands) - if conn in old(buckets)[i].busy then {conn} else {}
      ensures closed == old(closed) + if Closes(old(buckets)[i], opt, conn, reusable, alive) then [conn] else []
      ensures careless <==> old(careless) || (conn in old(buckets)[i].busy && conn !in old(hands))
      ensures conn in old(buckets)[i].busy ==>
                (Stranded(buckets[i]) <==> LeavesBehind(old(buckets)[i], reusable && alive))
      ensures lapsed <==>
                old(lapsed) || (conn in old(buckets)[i].busy && LeavesBehind(old(buckets)[i], reusable && alive))
    {
      hide Valid, Returning, Tickets, Told, Returned, Drop, Stranded;
      var k := Position(buckets[i].busy, conn);
      if k == |buckets[i].busy| {
        NotReturned(buckets[i], opt, conn, reusable, alive);
        return;
      }
      var b := buckets[i];
      Lapse(LeavesBehind(b, reusable && alive));
      Detach(i, k);
      DropLength(b.busy, k);
      if reusable { GrantOrPark(i, conn, alive); } else { Discard(i, conn); }
      IsReturned(b, buckets[i], opt, k, reusable, alive);
    }

    ghost method Lapse(yes: bool)
      requires Valid()
      modifies `lapsed
      ensures Valid() && lapsed == (old(lapsed) || yes)
    {
      hide Kept, Sum, Openings, Queued, Lending, Out, Tickets, Balanced;
      lapsed := lapsed || yes;
    }

    /** A loan is over. */
    method Detach(i: nat, k: nat)
      requires Valid() && i < |buckets| && k < |buckets[i].busy|
      modifies `buckets, `hands, `careless
      ensures Returning(i, old(buckets)[i].busy[k])
      ensures buckets == old(buckets)[i := old(buckets)[i].(busy := Drop(old(buckets)[i].busy, k))]
      ensures var b, conn := buckets[i], old(buckets)[i].busy[k];
              && conn !in b.idle && conn !in b.busy && conn.key == b.key && Held(b) + b.opening < opt.maxPerHost
              && hands == old(hands) - {conn} && careless == (old(careless) || conn !in old(hands))
    {
      hide Kept, Sum, BucketOk, Queued, Openings, Out, Lending, Tickets, Balanced;
      var b := buckets[i];
      var conn, less := b.busy[k], b.(busy := b.busy[..k] + b.busy[k + 1..]);
      OneOk(buckets, opt, i);
      DropBusy(b, opt, k);
      RoomLeft(b, opt);
      Storing(i, less);
      SameQueue(buckets, i, less, Tickets());
      OutLess(buckets, opt, i, less, k);
      GivesOut(made, buckets, i, less, closed, k, conn);
      if !careless && conn in hands { TakesBack(Out(buckets), Tickets(), hands, lost, conn); }
      careless := careless || conn !in hands;
      hands := hands - {conn};
      buckets := buckets[i := less];
    }

    method Release(conn: Conn, reusable: bool, alive: bool)
      requires Valid()
      modifies `buckets, `total, `closed, `lapsed, `hands, `careless, parked
      ensures Valid() && |buckets| >= |old(buckets)|
      ensures forall j :: 0 <= j < |old(buckets)| && old(buckets)[j].key == conn.key && conn in old(buckets)[j].busy ==>
                && Tickets() == Told(old(Tickets()), old(buckets)[j].waiters,
                                     if reusable && alive then Some(conn) else None)
                && hands == old(hands) - {conn} && careless == (old(careless) || conn !in old(hands))
      ensures conn !in Out(old(buckets)) ==>
                Tickets() == old(Tickets()) && hands == old(hands) && careless == old(careless)
      ensures old(careless) ==> careless
      ensures closed == old(closed) + if exists j :: 0 <= j < |old(buckets)| && old(buckets)[j].key == conn.key
                                                     && Closes(old(buckets)[j], opt, conn, reusable, alive)
                                      then [conn] else []
      ensures lapsed <==> old(lapsed) || exists j :: 0 <= j < |old(buckets)| && old(buckets)[j].key == conn.key
                                                     && conn in old(buckets)[j].busy
                                                     && LeavesBehind(old(buckets)[j], reusable && alive)
      ensures forall j :: 0 <= j < |old(buckets)| ==>
                if old(buckets)[j].key == conn.key
                then Returned(old(buckets)[j], buckets[j], opt, conn, reusable, alive)
                else buckets[j] == old(buckets)[j]
    {
      hide Returned, BucketOk, Sum, Queued, Out, Lending, Tickets, Told, Openings, Balanced;
      var i := BucketFor(conn.key);
      ghost var at := buckets;
      assert forall j :: 0 <= j < |at| && at[j].key == conn.key ==> j == i;
      IsOut(at, i, conn);
      ReleaseIn(i, conn, reusable, alive);
      assert forall j :: 0 <= j < |old(buckets)| ==> at[j] == old(buckets)[j];
    }

    /** The idle timer of a parked connection. */
    method DropIdle(i: nat, conn: Conn)
      requires Valid() && i < |buckets| && buckets[i].key == conn.key
      modifies `buckets, `total, `closed
      ensures Valid() && |buckets| == |old(buckets)|
      ensures closed == old(closed) + if conn in old(buckets)[i].idle then [conn] else []
      ensures forall j :: 0 <= j < |buckets| && j != i ==> buckets[j] == old(buckets)[j]
      ensures conn !in buckets[i].idle && (conn !in old(buckets)[i].idle ==> buckets == old(buckets))
      ensures buckets[i] == old(buckets)[i].(idle := buckets[i].idle)
      ensures conn in old(buckets)[i].idle ==> total == old(total) - 1
      ensures conn in old(buckets)[i].idle ==>
                var was := old(buckets)[i].idle;
                exists k :: 0 <= k < |was| && was[k] == conn && buckets[i].idle == Drop(was, k)
    {
      hide Kept, Sum, BucketOk, Queued, Openings, Out, Lending, Tickets, Balanced;
      var k := Position(buckets[i].idle, conn);
      if k == |buckets[i].idle| { return; }
      var b := buckets[i];
      OneOk(buckets, opt, i);
      DropIdleOk(b, opt, k);
      var less := b.(idle := b.idle[..k] + b.idle[k + 1..]);
      Storing(i, less);
      SameQueue(buckets, i, less, Tickets());
      OutSame(buckets, i, less);
      assert less.idle == Drop(b.idle, k);
      GivesOut(made, buckets, i, less, closed, k, conn);
      NowClosed(made, buckets[i := less], closed, conn);
      buckets := buckets[i := less];
      closed := closed + [conn];
      if total > 0 { total := total - 1; }
    }

    /** A waiter leaves the queue, wherever it stands. */
    method Dequeue(i: nat, w: Waiter)
      requires Valid() && i < |buckets|
      modifies `buckets
      ensures Valid() && |buckets| == |old(buckets)|
      ensures forall j :: 0 <= j < |buckets| && j != i ==> buckets[j] == old(buckets)[j]
      ensures var b, b' := old(buckets)[i], buckets[i];
              b' == b.(waiters := Others(b.waiters, w)) && w !in b'.waiters && (Stranded(b') ==> Stranded(b))
    {
      hide Kept, Sum, BucketOk, Openings, Queued, Out, Lending, Tickets, Balanced;
      var b := buckets[i];
      OneOk(buckets, opt, i);
      var rest := Remove(b.waiters, w);
      OthersOk(b, opt, w);
      SameQueue(buckets, i, b.(waiters := rest), Tickets());
      OutSame(buckets, i, b.(waiters := rest));
      SameLists(made, buckets, i, b.(waiters := rest), multiset{}, closed);
      Storing(i, b.(waiters := rest));
      buckets := buckets[i := b.(waiters := rest)];
    }

    /** A waiter's frame is gone: it is out of the queue, and a connection it had been granted stays
        on loan with nobody to give it back. */
    method Leave(i: nat, w: Waiter)
      requires Valid() && i < |buckets| && w in parked && w.key == buckets[i].key
      modifies `buckets, `parked, `lost
      ensures Valid() && |buckets| == |old(buckets)| && parked == old(parked) - {w}
      ensures forall j :: 0 <= j < |buckets| && j != i ==> buckets[j] == old(buckets)[j]
      ensures var b, b' := old(buckets)[i], buckets[i];
              b' == b.(waiters := Others(b.waiters, w)) && (Stranded(b') ==> Stranded(b))
      ensures lost == old(lost) + if w.granted.Some? then {w.granted.value} else {}
    {
      hide Kept, Sum, BucketOk, Openings, Queued, Out, Lending, Balanced;
      Dequeue(i, w);
      Forget(i, w);
      lost := lost + if w.granted.Some? then {w.granted.value} else {};
      parked := parked - {w};
      assert Tickets() == old(Tickets()) - {w};
    }

    lemma Forget(i: nat, w: Waiter)
      requires Valid() && i < |buckets| && w in parked && w.key == buckets[i].key && w !in buckets[i].waiters
      ensures w in Tickets() && Tickets()[w] == Ticket(w.granted, w.expired, w.woken)
      ensures Queued(buckets, Tickets() - {w})
      ensures var c := Taken(Tickets()[w]);
              !careless ==> Lending(Out(buckets), Tickets() - {w}, hands, lost + c)
                            && Lending(Out(buckets), Tickets() - {w}, hands + c, lost)
    {
      hide Kept, Sum, Openings, Queued, Out, Lending, Balanced;
      InNoQueue(buckets, i, Tickets(), w, opt);
      ToldOutside(buckets, Tickets(), w, Ticket(None, false, false));
      if !careless { LendsNoMore(Out(buckets), Tickets(), hands, lost, w); }
    }

    /** A woken waiter runs again, with an error if its time was up, with the connection it was
        granted, or with nothing but a slot: then it goes through acquire() once more. */
    method Resume(i: nat, w: Waiter) returns (r: Wakeup)
      requires Valid() && i < |buckets| && w in parked && w.key == buckets[i].key && w.woken
      modifies `parked, `hands, `lost
      ensures Valid() && parked == old(parked) - {w}
      ensures r == if w.expired then TimedOut else if w.granted.Some? then Took(w.granted.value) else Slot
      ensures hands == old(hands) + if r.Took? then {r.conn} else {}
      ensures lost == old(lost) + if w.expired && w.granted.Some? then {w.granted.value} else {}
    {
      hide Kept, Sum, BucketOk, Openings, Queued, Out, Lending, Balanced;
      WokenIsOut(i, w);
      Forget(i, w);
      parked := parked - {w};
      r := if w.expired then TimedOut else if w.granted.Some? then Took(w.granted.value) else Slot;
      lost := lost + if w.expired && w.granted.Some? then {w.granted.value} else {};
      hands := hands + if r.Took? then {r.conn} else {};
      assert Tickets() == old(Tickets()) - {w};
      assert hands + {} == hands && lost + {} == lost;
    }

    lemma WokenIsOut(i: nat, w: Waiter)
      requires Books() && i < |buckets| && w in parked && w.woken
      ensures w !in buckets[i].waiters
    {
      hide Kept, Sum, Openings;
      forall k | 0 <= k < |buckets[i].waiters| ensures buckets[i].waiters[k] != w {
        assert Waits(buckets[i].waiters[k], buckets[i].key, Tickets());
      }
    }

    method WaitExpired(i: nat, w: Waiter)
      requires Valid() && i < |buckets| && w in parked && w.key == buckets[i].key
      modifies `buckets, w
      ensures Valid() && |buckets| == |old(buckets)|
      ensures forall j :: 0 <= j < |buckets| && j != i ==> buckets[j] == old(buckets)[j]
      ensures buckets[i] == old(buckets)[i].(waiters := Others(old(buckets)[i].waiters, w)) && w !in buckets[i].waiters
      ensures w.expired && w.woken && w.granted == old(w.granted)
    {
      hide Kept, Sum, BucketOk, Openings, Queued, Out, Lending, Balanced;
      Dequeue(i, w);
      Forget(i, w);
      InNoQueue(buckets, i, Tickets(), w, opt);
      ToldOutside(buckets, Tickets(), w, Ticket(w.granted, true, true));
      if !careless { LendsOn(Out(buckets), Tickets(), hands, lost, w, Ticket(w.granted, true, true)); }
      w.expired := true;
      w.woken := true;
      assert Tickets() == old(Tickets())[w := Ticket(w.granted, true, true)];
    }

    /** Any run over any origins. */
    method Drive(keys: seq<Key>, ws: set<Waiter>) returns (alive: set<Waiter>)
      requires Valid() && ws == parked
      modifies this, parked
      ensures Valid() && total == Sum(buckets) && alive == parked
      ensures made == Holdings(buckets) + multiset(closed) && |made| == total + |closed|
      ensures old(closed) <= closed && old(made) <= made
      ensures forall i :: 0 <= i < |buckets| ==>
                && |buckets[i].idle| + |buckets[i].busy| + buckets[i].opening <= opt.maxPerHost
                && |buckets[i].idle| <= opt.maxIdle
                && (buckets[i].waiters != [] ==> buckets[i].idle == [])
      ensures total + Openings(buckets) <= most && (most > opt.maxTotal <==> crowded)
      ensures most <= if peak == 0 then 0 else opt.maxTotal + peak - 1
      ensures !lapsed ==> NoneStranded(buckets)
      ensures !careless ==> Lending(Out(buckets), Tickets(), hands, lost)
      ensures old(most) <= most && old(peak) <= peak && (old(crowded) ==> crowded) && (old(lapsed) ==> lapsed)
      ensures old(careless) ==> careless
    {
      hide Valid, Tickets;
      alive := ws;
      var turns: nat := *;
      while turns > 0
        invariant Valid() && alive == parked && fresh(parked - old(parked)) && (old(careless) ==> careless)
        invariant old(most) <= most && old(peak) <= peak && (old(crowded) ==> crowded) && (old(lapsed) ==> lapsed)
        invariant old(closed) <= closed && old(made) <= made
      {
        turns := turns - 1;
        var at: int := *;
        if 0 <= at < |keys| {
          var i := BucketFor(keys[at]);
          alive := Turn(i, keys[at], alive);
        }
      }
      Limits();
    }

    /** One thing that may happen at an origin. */
    method Turn(i: nat, key: Key, ws: set<Waiter>) returns (alive: set<Waiter>)
      requires Valid() && ws == parked && i < |buckets| && buckets[i].key == key
      modifies this, parked
      ensures Valid() && alive == parked && fresh(parked - old(parked)) && (old(careless) ==> careless)
      ensures old(most) <= most && old(peak) <= peak && (old(crowded) ==> crowded) && (old(lapsed) ==> lapsed)
      ensures old(closed) <= closed && old(made) <= made
    {
      hide Valid, Tickets, Told, Sum, Openings, Closes, Picked, Returned, LeavesBehind;
      alive := ws;
      var act: nat, id: nat, yes: bool, good: bool, sound: set<Conn> := *, *, *, *, *;
      var conn := Conn(id, key);
      if act == 0 {
        var r := Acquire(i, sound);
        if r.Parked? { alive := alive + {r.waiter}; }
      } else if act == 1 && buckets[i].opening > 0 {
        if conn !in buckets[i].idle && conn !in buckets[i].busy { OpenDone(i, conn); }
      } else if act == 2 && buckets[i].opening > 0 {
        OpenFailed(i);
      } else if act == 3 {
        Release(conn, yes, good);
      } else if act == 4 {
        DropIdle(i, conn);
      } else if w :| w in alive && w.key == key {
        if yes {
          WaitExpired(i, w);
        } else if good && w.woken {
          var r := Resume(i, w);
          alive := alive - {w};
        } else {
          Leave(i, w);
          alive := alive - {w};
        }
      }
    }

    lemma Limits()
      requires Valid()
      ensures total == Sum(buckets) && made == Holdings(buckets) + multiset(closed) && |made| == total + |closed|
      ensures forall i :: 0 <= i < |buckets| ==>
                && |buckets[i].idle| + |buckets[i].busy| + buckets[i].opening <= opt.maxPerHost
                && |buckets[i].idle| <= opt.maxIdle
                && (buckets[i].waiters != [] ==> buckets[i].idle == [])
      ensures total + Openings(buckets) <= most && (most > opt.maxTotal <==> crowded)
      ensures most <= if peak == 0 then 0 else opt.maxTotal + peak - 1
      ensures !lapsed ==> NoneStranded(buckets)
      ensures !careless ==> Lending(Out(buckets), Tickets(), hands, lost)
    {
      hide Sum, Openings, Lending, Holdings;
      HoldingsCount(buckets);
    }
  }

  /** How a wait ends: out of time, with a connection, or with a slot to open one in. */
  datatype Wakeup = TimedOut | Took(conn: Conn) | Slot

  /** The longest waiter, if there is one, has been told; nobody else has. */
  ghost function Told(tickets: map<Waiter, Ticket>, ws: seq<Waiter>, granted: Option<Conn>): map<Waiter, Ticket> {
    if ws == [] then tickets else tickets[ws[0] := Ticket(granted, false, true)]
  }

  /** The limit on all connections is checked before an open and counted after it, so opens in
      flight to different origins pass it together, by as much as they can. */
  method OverTotal() returns (p: Pool)
    ensures p.Valid() && p.opt.maxTotal == 1 && p.total == 2 && p.crowded && p.total == p.opt.maxTotal + p.peak - 1
  {
    hide Pool.Valid, Openings;
    var a, b;
    p, a, b := TwoOpens();
    p.OpenDone(a, Conn(1, ("a", 80)));
    p.OpenDone(b, Conn(2, ("b", 80)));
  }

  lemma NoOpenings()
    ensures Openings([]) == 0
  {
  }

  /** Two opens under way, each begun while there was room for one. */
  method TwoOpens() returns (p: Pool, a: nat, b: nat)
    ensures fresh(p) && p.Valid() && p.opt.maxTotal == 1 && p.total == 0 && p.crowded && p.peak == 2
    ensures |p.buckets| == 2 && a == 0 && b == 1
    ensures p.buckets[0] == Bucket(("a", 80), [], [], [], 1) && p.buckets[1] == Bucket(("b", 80), [], [], [], 1)
  {
    hide Pool.Valid, Pool.Tickets, Openings, Out;
    NoOpenings();
    p := new Pool(Options(1, 1, 1));
    a := p.BucketFor(("a", 80));
    var r := p.Acquire(a, {});
    b := p.BucketFor(("b", 80));
    var s := p.Acquire(b, {});
  }

  /** A request waits for the one slot; the open that holds the slot fails; the request is still
      waiting, and the bucket is empty. */
  method ForgottenWaiter() returns (p: Pool)
    ensures p.Valid() && |p.buckets| == 1 && Held(p.buckets[0]) + p.buckets[0].opening == 0
    ensures |p.buckets[0].waiters| == 1
  {
    hide Pool.Valid, Picked, Newest;
    p := new Pool(Options(1, 1, 1));
    var a := p.BucketFor(("a", 80));
    var r := p.Acquire(a, {});
    var s := p.Acquire(a, {});
    p.OpenFailed(a);
  }

  /** A request waits because another origin has the one connection; that is closed, and the waiter
      is not told: the whole pool is empty, and no open has failed. */
  method OtherOriginForgotten() returns (p: Pool)
    ensures p.Valid() && p.total == 0 && Openings(p.buckets) == 0 && |p.buckets| == 2 && |p.buckets[1].waiters| == 1
  {
    hide Pool.Valid, Pool.Tickets, Sum, Openings, Out, Holdings, Picked, Newest, Closes;
    p := new Pool(Options(1, 1, 1));
    var a := p.BucketFor(("a", 80));
    var r := p.Acquire(a, {});
    p.OpenDone(a, Conn(1, ("a", 80)));
    var b := p.BucketFor(("b", 80));
    var s := p.Acquire(b, {});
    p.ReleaseIn(a, Conn(1, ("a", 80)), false, true);
    assert p.buckets[a].busy == [];
    p.Limits();
    SumTwo(p.buckets);
  }

  /** One connection, in a caller's hands, and two requests waiting for it. */
  method TwoWaiting() returns (p: Pool, conn: Conn, v: Waiter, w: Waiter)
    ensures fresh(p) && fresh(v) && fresh(w) && v != w && p.Valid() && !p.careless && p.parked == {v, w}
    ensures |p.buckets| == 1 && p.buckets[0] == Bucket(conn.key, [], [conn], [v, w], 0) && p.hands == {conn}
    ensures p.lost == {} && v in p.Tickets() && w in p.Tickets() && v.key == conn.key && p.opt == Options(1, 1, 1)
  {
    hide Pool.Valid, Openings, Out, Picked, Newest;
    conn := Conn(1, ("a", 80));
    p := new Pool(Options(1, 1, 1));
    var a := p.BucketFor(("a", 80));
    var r := p.Acquire(a, {});
    p.OpenDone(a, conn);
    assert |p.buckets| == 1 && p.buckets[0] == Bucket(conn.key, [], [conn], [], 0) && p.total == 1;
    var s := p.Acquire(a, {});
    assert |p.buckets| == 1 && p.buckets[0] == Bucket(conn.key, [], [conn], [s.waiter], 0);
    var t := p.Acquire(a, {});
    v, w := s.waiter, t.waiter;
    p.KeyOf(0, 0);
  }

  /** The one connection goes from its borrower to the longest waiter. */
  lemma PassedOver(b: Bucket, b': Bucket, opt: Options, conn: Conn)
    requires Returned(b, b', opt, conn, true, true) && b.busy == [conn] && b.waiters != []
    ensures b'.busy == [conn] && b'.waiters == b.waiters[1..] && b'.key == b.key
  {
  }

  /** The one connection is gone, and the longest waiter with it. */
  lemma SlotFreed(b: Bucket, b': Bucket, opt: Options, conn: Conn)
    requires Returned(b, b', opt, conn, false, true) && b.busy == [conn] && b.waiters != []
    ensures b' == b.(busy := [], waiters := b.waiters[1..])
  {
  }

  /** A connection given back a second time, when it is on loan to somebody else, is on loan to two. */
  method LentTwice() returns (p: Pool, conn: Conn, v: Waiter, w: Waiter)
    ensures p.Valid() && p.careless && v != w && v.granted == w.granted == Some(conn)
  {
    hide Pool.Valid, Pool.Tickets, Returned, LeavesBehind, Stranded;
    p, conn, v, w := TwoWaiting();
    ghost var first := p.buckets[0];
    p.ReleaseIn(0, conn, true, true);
    PassedOver(first, p.buckets[0], p.opt, conn);
    ghost var second := p.buckets[0];
    p.ReleaseIn(0, conn, true, true);
    PassedOver(second, p.buckets[0], p.opt, conn);
    p.Reads(v);
    p.Reads(w);
  }

  /** A waiter that dies between its grant and its turn takes the connection with it: the bucket is
      full for good, and nobody has the connection. */
  method LostLoan() returns (p: Pool, conn: Conn)
    ensures p.Valid() && !p.careless && |p.buckets| == 1 && p.buckets[0].busy == [conn] && p.opt.maxPerHost == 1
    ensures p.lost == {conn} && p.hands == {}
  {
    hide Pool.Valid, Out, Closes;
    var v, w;
    p, conn, v, w := TwoWaiting();
    p.ReleaseIn(0, conn, true, true);
    p.Leave(0, v);
  }

  /** A waiter woken with just a slot can lose its turn: a newcomer opens in that slot first, and
      the waiter goes to the end of the queue, behind one that came after it. */
  method Overtaken() returns (p: Pool, v: Waiter, w: Waiter, again: Waiter, r: Wakeup)
    ensures p.Valid() && r == Slot && !v.expired && v != w && fresh(again)
    ensures |p.buckets| == 1 && p.buckets[0].opening == 1 && p.buckets[0].waiters == [w, again]
  {
    hide Pool.Valid, Out, Openings, Sum, Holdings, Picked, Newest, Closes, Returned, LeavesBehind, Stranded;
    var conn;
    p, conn, v, w := TwoWaiting();
    ghost var first := p.buckets[0];
    p.ReleaseIn(0, conn, false, true);
    SlotFreed(first, p.buckets[0], p.opt, conn);
    p.Limits();
    SumOne(p.buckets);
    var newcomer := p.Acquire(0, {});
    r := p.Resume(0, v);
    var attempt := p.Acquire(0, {});
    again := attempt.waiter;
  }

  lemma SumOne(bs: seq<Bucket>)
    requires |bs| == 1
    ensures Sum(bs) == Held(bs[0])
  {
    assert bs[1..] == [];
  }

  lemma SumTwo(bs: seq<Bucket>)
    requires |bs| == 2
    ensures Sum(bs) == Held(bs[0]) + Held(bs[1]) && Openings(bs) == bs[0].opening + bs[1].opening
  {
    var tail := bs[1..];
    assert tail[0] == bs[1] && tail[1..] == [];
    assert Sum(tail[1..]) == 0 && Openings(tail[1..]) == 0;
    assert Sum(tail) == Held(bs[1]) && Openings(tail) == bs[1].opening;
  }

  /** A return that ends the bucket's last loan and wakes a waiter, with another behind it. */
  predicate LeavesBehind(b: Bucket, kept: bool) {
    |b.waiters| > 1 && |b.busy| == 1 && b.opening == 0 && !kept
  }

  /** The bucket once its k-th loan is over. */
  ghost function After(b: Bucket, opt: Options, k: nat, reusable: bool, alive: bool): Bucket
    requires k < |b.busy|
  {
    var rest := b.(busy := Drop(b.busy, k));
    if b.waiters != [] then
      rest.(waiters := b.waiters[1..], busy := if reusable && alive then rest.busy + [b.busy[k]] else rest.busy)
    else if reusable && |b.idle| < opt.maxIdle then rest.(idle := b.idle + [b.busy[k]])
    else rest
  }

  /** A connection that comes back is not closed: a waiter takes it, or there is room for it. */
  predicate Keeps(b: Bucket, opt: Options, reusable: bool, alive: bool) {
    reusable && if b.waiters != [] then alive else |b.idle| < opt.maxIdle
  }

  predicate Closes(b: Bucket, opt: Options, conn: Conn, reusable: bool, alive: bool) {
    conn in b.busy && !Keeps(b, opt, reusable, alive)
  }

  /** What a release leaves of the bucket. */
  ghost predicate Returned(b: Bucket, b': Bucket, opt: Options, conn: Conn, reusable: bool, alive: bool) {
    if conn !in b.busy then b' == b
    else exists k :: 0 <= k < |b.busy| && b.busy[k] == conn && b' == After(b, opt, k, reusable, alive)
  }

  lemma SameQueue(bs: seq<Bucket>, i: nat, b: Bucket, tickets: map<Waiter, Ticket>)
    requires Queued(bs, tickets) && i < |bs| && b.key == bs[i].key
    requires forall k :: 0 <= k < |b.waiters| ==> b.waiters[k] in bs[i].waiters
    ensures Queued(bs[i := b], tickets)
  {
    hide Waits;
    forall k | 0 <= k < |b.waiters| ensures Waits(b.waiters[k], b.key, tickets) {
      assert b.waiters[k] in bs[i].waiters;
      var j :| 0 <= j < |bs[i].waiters| && bs[i].waiters[j] == b.waiters[k];
    }
  }

  lemma LongerQueue(bs: seq<Bucket>, i: nat, b: Bucket, tickets: map<Waiter, Ticket>, w: Waiter)
    requires Queued(bs, tickets) && i < |bs| && b == bs[i].(waiters := bs[i].waiters + [w]) && w !in tickets
    requires w.key == b.key
    ensures Queued(bs[i := b], tickets[w := Ticket(None, false, false)])
  {
  }

  /** A waiter that is in no queue may be told what it likes. */
  lemma ToldOutside(bs: seq<Bucket>, tickets: map<Waiter, Ticket>, w: Waiter, t: Ticket)
    requires Queued(bs, tickets) && forall i, k :: 0 <= i < |bs| && 0 <= k < |bs[i].waiters| ==> bs[i].waiters[k] != w
    ensures Queued(bs, tickets[w := t]) && Queued(bs, tickets - {w})
  {
  }

  /** A waiter that has left the queue of its own bucket is in no other. */
  lemma InNoQueue(bs: seq<Bucket>, i: nat, tickets: map<Waiter, Ticket>, w: Waiter, opt: Options)
    requires Kept(bs, opt) && Queued(bs, tickets) && i < |bs| && w.key == bs[i].key && w !in bs[i].waiters
    ensures forall j, k :: 0 <= j < |bs| && 0 <= k < |bs[j].waiters| ==> bs[j].waiters[k] != w
  {
    hide BucketOk;
    forall j, k | 0 <= j < |bs| && 0 <= k < |bs[j].waiters| ensures bs[j].waiters[k] != w {
      assert Waits(bs[j].waiters[k], bs[j].key, tickets);
    }
  }

  // ------------------------------------------------------------------ the loans

  /** The connections out on loan. */
  ghost function Out(bs: seq<Bucket>): set<Conn> {
    set i, c | 0 <= i < |bs| && c in bs[i].busy :: c
  }

  lemma OutSame(bs: seq<Bucket>, i: nat, b: Bucket)
    requires i < |bs| && b.busy == bs[i].busy
    ensures Out(bs[i := b]) == Out(bs)
  {
    var bs' := bs[i := b];
    forall c ensures c in Out(bs') <==> c in Out(bs) {
      if j :| 0 <= j < |bs| && c in bs[j].busy { assert c in bs'[j].busy; }
      if j :| 0 <= j < |bs'| && c in bs'[j].busy { assert c in bs[j].busy; }
    }
  }

  lemma IsOut(bs: seq<Bucket>, i: nat, c: Conn)
    requires i < |bs|
    ensures c in bs[i].busy ==> c in Out(bs)
  {
  }

  lemma OutAppend(bs: seq<Bucket>, b: Bucket)
    requires b.busy == []
    ensures Out(bs + [b]) == Out(bs)
  {
    var bs' := bs + [b];
    forall c ensures c in Out(bs') <==> c in Out(bs) {
      if j :| 0 <= j < |bs| && c in bs[j].busy { assert c in bs'[j].busy; }
    }
  }

  lemma OutMore(bs: seq<Bucket>, i: nat, b: Bucket, conn: Conn)
    requires i < |bs| && b.busy == bs[i].busy + [conn]
    ensures Out(bs[i := b]) == Out(bs) + {conn}
  {
    var bs' := bs[i := b];
    assert bs'[i].busy[|bs[i].busy|] == conn;
    forall c ensures c in Out(bs') <==> c in Out(bs) || c == conn {
      if j :| 0 <= j < |bs| && c in bs[j].busy { assert c in bs'[j].busy; }
      if j :| 0 <= j < |bs'| && c in bs'[j].busy { assert c in bs[j].busy || c == conn; }
    }
  }

  lemma OutLess(bs: seq<Bucket>, opt: Options, i: nat, b: Bucket, k: nat)
    requires Kept(bs, opt) && i < |bs| && k < |bs[i].busy| && b.busy == Drop(bs[i].busy, k) && bs[i].busy[k] !in b.busy
    ensures Out(bs[i := b]) == Out(bs) - {bs[i].busy[k]} && bs[i].busy[k] in Out(bs)
  {
    hide BucketOk, Drop;
    var bs', conn := bs[i := b], bs[i].busy[k];
    OwnKey(bs, opt, i, conn);
    forall c ensures c in Out(bs') <==> c in Out(bs) && c != conn {
      KeptByDrop(bs[i].busy, k, c);
      if j :| 0 <= j < |bs| && c in bs[j].busy && c != conn { assert c in bs'[j].busy; }
      if j :| 0 <= j < |bs'| && c in bs'[j].busy {
        assert c in bs[j].busy;
        OwnKey(bs, opt, j, c);
        assert c == conn ==> i == j;
      }
    }
  }

  lemma DropLength(s: seq<Conn>, k: nat)
    requires k < |s|
    ensures |Drop(s, k)| == |s| - 1
  {
  }

  lemma NotReturned(b: Bucket, opt: Options, conn: Conn, reusable: bool, alive: bool)
    requires conn !in b.busy
    ensures Returned(b, b, opt, conn, reusable, alive)
  {
  }

  lemma IsReturned(b: Bucket, b': Bucket, opt: Options, k: nat, reusable: bool, alive: bool)
    requires k < |b.busy|
    requires var less := b.(busy := Drop(b.busy, k));
             b' == if b.waiters != [] then
                     less.(waiters := b.waiters[1..],
                           busy := if reusable && alive then less.busy + [b.busy[k]] else less.busy)
                   else if reusable && |b.idle| < opt.maxIdle then less.(idle := b.idle + [b.busy[k]])
                   else less
    ensures Returned(b, b', opt, b.busy[k], reusable, alive) && (Stranded(b') <==> LeavesBehind(b, reusable && alive))
  {
    hide Drop;
    DropLength(b.busy, k);
    assert b.busy[k] in b.busy;
  }

  lemma KeptByDrop(s: seq<Conn>, k: nat, c: Conn)
    requires k < |s|
    ensures c in Drop(s, k) ==> c in s
    ensures c in s && c != s[k] ==> c in Drop(s, k)
  {
    var rest := Drop(s, k);
    if m :| 0 <= m < |s| && s[m] == c && c != s[k] { assert rest[if m < k then m else m - 1] == c; }
    if m :| 0 <= m < |rest| && rest[m] == c { assert s[if m < k then m else m + 1] == c; }
  }

  lemma OwnKey(bs: seq<Bucket>, opt: Options, i: nat, c: Conn)
    requires Kept(bs, opt) && i < |bs| && (c in bs[i].busy || c in bs[i].idle)
    ensures c.key == bs[i].key
  {
    assert BucketOk(bs[i], opt);
  }

  /** A connection that is in its bucket but not busy there is not on loan. */
  lemma NotOut(bs: seq<Bucket>, opt: Options, i: nat, c: Conn)
    requires Kept(bs, opt) && i < |bs| && c.key == bs[i].key && c !in bs[i].busy
    ensures c !in Out(bs)
  {
    hide BucketOk;
    if j :| 0 <= j < |bs| && c in bs[j].busy { OwnKey(bs, opt, j, c); }
  }

  /** The connections granted to waiters that have not run yet. */
  ghost function Lent(tickets: map<Waiter, Ticket>): set<Conn> {
    set w | w in tickets && tickets[w].granted.Some? :: tickets[w].granted.value
  }

  /** Every connection on loan has exactly one borrower: a caller that has it in hand, or one waiter
      it was granted to; or its borrower died before it could run. */
  ghost predicate Lending(out: set<Conn>, tickets: map<Waiter, Ticket>, hands: set<Conn>, lost: set<Conn>) {
    && out == hands + lost + Lent(tickets) && hands !! lost && hands !! Lent(tickets) && lost !! Lent(tickets)
    && forall v, w :: v in tickets && w in tickets && v != w && tickets[v].granted.Some? ==>
         tickets[v].granted != tickets[w].granted
  }

  lemma LentMore(tickets: map<Waiter, Ticket>, w: Waiter, t: Ticket)
    requires w in tickets ==> tickets[w].granted.None?
    ensures Lent(tickets[w := t]) == Lent(tickets) + if t.granted.Some? then {t.granted.value} else {}
  {
    forall c ensures c in Lent(tickets[w := t]) <==> c in Lent(tickets) || t.granted == Some(c) {
      if t.granted == Some(c) { assert tickets[w := t][w].granted == Some(c); }
      if v :| v in tickets && tickets[v].granted == Some(c) { assert tickets[w := t][v].granted == Some(c); }
    }
  }

  lemma LentSame(tickets: map<Waiter, Ticket>, w: Waiter, t: Ticket)
    requires w in tickets && tickets[w].granted == t.granted
    ensures Lent(tickets[w := t]) == Lent(tickets)
  {
    forall c ensures c in Lent(tickets[w := t]) <==> c in Lent(tickets) {
      if v :| v in tickets && tickets[v].granted == Some(c) { assert tickets[w := t][v].granted == Some(c); }
      if v :| v in tickets && tickets[w := t][v].granted == Some(c) { assert tickets[v].granted == Some(c); }
    }
  }

  lemma LentLess(tickets: map<Waiter, Ticket>, w: Waiter)
    requires w in tickets
    requires forall v :: v in tickets && v != w && tickets[w].granted.Some? ==> tickets[v].granted != tickets[w].granted
    ensures Lent(tickets - {w}) ==
            Lent(tickets) - if tickets[w].granted.Some? then {tickets[w].granted.value} else {}
    ensures tickets[w].granted.Some? ==> tickets[w].granted.value in Lent(tickets)
  {
    forall c ensures c in Lent(tickets - {w}) <==> c in Lent(tickets) && tickets[w].granted != Some(c) {
      if v :| v in tickets && v != w && tickets[v].granted == Some(c) { assert (tickets - {w})[v].granted == Some(c); }
    }
  }

  /** A connection that was not on loan goes to a caller. */
  lemma LendsToCaller(out: set<Conn>, tickets: map<Waiter, Ticket>, hands: set<Conn>, lost: set<Conn>, c: Conn)
    requires Lending(out, tickets, hands, lost) && c !in out
    ensures Lending(out + {c}, tickets, hands + {c}, lost)
  {
  }

  /** A caller gives a connection back. */
  lemma TakesBack(out: set<Conn>, tickets: map<Waiter, Ticket>, hands: set<Conn>, lost: set<Conn>, c: Conn)
    requires Lending(out, tickets, hands, lost) && c in hands
    ensures Lending(out - {c}, tickets, hands - {c}, lost)
  {
  }

  /** A waiter is told something new: that it is granted a connection that was not on loan, or
      nothing. */
  lemma LendsToWaiter(out: set<Conn>, tickets: map<Waiter, Ticket>, hands: set<Conn>, lost: set<Conn>, w: Waiter,
                      t: Ticket)
    requires Lending(out, tickets, hands, lost) && (w in tickets ==> tickets[w].granted.None?)
    requires t.granted.Some? ==> t.granted.value !in out
    ensures Lending(out + (if t.granted.Some? then {t.granted.value} else {}), tickets[w := t], hands, lost)
  {
    LentMore(tickets, w, t);
    forall v | v in tickets && tickets[v].granted.Some? ensures tickets[v].granted.value in out {
      assert tickets[v].granted.value in Lent(tickets);
    }
  }

  lemma LendsOn(out: set<Conn>, tickets: map<Waiter, Ticket>, hands: set<Conn>, lost: set<Conn>, w: Waiter, t: Ticket)
    requires Lending(out, tickets, hands, lost) && w in tickets && t.granted == tickets[w].granted
    ensures Lending(out, tickets[w := t], hands, lost)
  {
    LentSame(tickets, w, t);
  }

  /** A waiter is gone, and what it was granted with it, or into its caller's hands. */
  lemma LendsNoMore(out: set<Conn>, tickets: map<Waiter, Ticket>, hands: set<Conn>, lost: set<Conn>, w: Waiter)
    requires Lending(out, tickets, hands, lost) && w in tickets
    ensures var c := Taken(tickets[w]);
            Lending(out, tickets - {w}, hands, lost + c) && Lending(out, tickets - {w}, hands + c, lost)
  {
    LentLess(tickets, w);
  }

  ghost function Taken(t: Ticket): set<Conn> {
    if t.granted.Some? then {t.granted.value} else {}
  }

  method Position(s: seq<Conn>, c: Conn) returns (k: nat)
    ensures k <= |s| && (k < |s| ==> s[k] == c) && (k == |s| ==> c !in s)
  {
    k := 0;
    while k < |s|
      invariant k <= |s| && c !in s[..k]
    {
      if s[k] == c { return; }
      k := k + 1;
    }
  }

  ghost function Others(ws: seq<Waiter>, w: Waiter): seq<Waiter> {
    if ws == [] then [] else (if ws[0] == w then [] else [ws[0]]) + Others(ws[1..], w)
  }

  method Remove(ws: seq<Waiter>, w: Waiter) returns (rest: seq<Waiter>)
    ensures rest == Others(ws, w)
  {
    rest := [];
    assert ws[0..] == ws;
    for k := 0 to |ws|
      invariant rest + Others(ws[k..], w) == Others(ws, w)
    {
      assert ws[k..][1..] == ws[k + 1..];
      if ws[k] != w { rest := rest + [ws[k]]; }
    }
  }

  lemma {:induction false} OthersDistinct(ws: seq<Waiter>, w: Waiter)
    requires Distinct(ws)
    ensures Distinct(Others(ws, w)) && w !in Others(ws, w)
    ensures forall k :: 0 <= k < |Others(ws, w)| ==> Others(ws, w)[k] in ws
  {
    if ws != [] {
      DistinctTail(ws);
      OthersDistinct(ws[1..], w);
      DistinctCons(ws[0], Others(ws[1..], w), ws);
    }
  }

  lemma DistinctCons<T>(x: T, rest: seq<T>, all: seq<T>)
    requires Distinct(rest) && all != [] && x == all[0] && x !in all[1..]
    requires forall k :: 0 <= k < |rest| ==> rest[k] in all[1..]
    ensures Distinct([x] + rest) && forall k :: 0 <= k < |rest| ==> rest[k] in all && ([x] + rest)[k + 1] == rest[k]
  {
  }

  lemma OthersOk(b: Bucket, opt: Options, w: Waiter)
    requires BucketOk(b, opt)
    ensures BucketOk(b.(waiters := Others(b.waiters, w)), opt) && w !in Others(b.waiters, w)
    ensures forall k :: 0 <= k < |Others(b.waiters, w)| ==> Others(b.waiters, w)[k] in b.waiters
  {
    OthersDistinct(b.waiters, w);
    if b.waiters == [] { assert Others(b.waiters, w) == []; }
  }

  lemma RoomLeft(b: Bucket, opt: Options)
    requires BucketOk(b, opt)
    ensures Held(b) + b.opening <= opt.maxPerHost
  {
  }

  lemma MoreOpening(b: Bucket, opt: Options)
    requires BucketOk(b, opt) && b.idle == [] && |b.busy| + b.opening < opt.maxPerHost
    ensures BucketOk(b.(opening := b.opening + 1), opt)
  {
  }

  lemma OneMore(b: Bucket, opt: Options, w: Waiter)
    requires BucketOk(b, opt) && b.idle == [] && w !in b.waiters
    ensures BucketOk(b.(waiters := b.waiters + [w]), opt)
  {
  }

  lemma OneOk(bs: seq<Bucket>, opt: Options, i: nat)
    requires Kept(bs, opt) && i < |bs|
    ensures BucketOk(bs[i], opt)
  {
  }
}
