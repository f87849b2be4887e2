/** Cancelers: the list of ops in flight with its deferred self-deletion, and the pointer walk
    that cancels a whole subtree. */
module Canceler {
  import opened Chains
  import opened Forests
  import opened Optional

  /** An awaiter with its embedded list node, bound to one canceler. */
  class Awaiter {
    const canceler: Canceler
    var prev: Option<Awaiter>
    var next: Option<Awaiter>
    // token of the io in flight, 0 when there is none to cancel
    var token: nat
    var submitted: bool
    var submitFailed: bool
    var cancelledBeforeSubmit: bool
    var resolved: bool

    constructor (canceler: Canceler)
      ensures this.canceler == canceler && prev == None && next == None && !submitted && !resolved
      ensures !submitFailed && !cancelledBeforeSubmit && token == 0
    {
      this.canceler := canceler;
      prev, next, token := None, None, 0;
      submitted, submitFailed, cancelledBeforeSubmit, resolved := false, false, false, false;
    }

    /** The awaiter is on its canceler's books exactly while its op is armed and unresolved. */
    ghost predicate Booked()
      reads `submitted, `resolved, canceler`inflight
    {
      (submitted && !resolved) <==> this in canceler.inflight
    }

    method AwaitReady(opReady: bool) returns (ready: bool)
      modifies `cancelledBeforeSubmit
      ensures ready <==> canceler.cancelled || opReady
      ensures cancelledBeforeSubmit == (old(cancelledBeforeSubmit) || canceler.cancelled)
    {
      if canceler.cancelled {
        cancelledBeforeSubmit := true;
        return true;
      }
      return opReady;
    }

    /** Submission: `token` is 0 when the op was not accepted. */
    method AwaitSuspend(accepted: bool, token: nat) returns (suspended: bool)
      requires canceler.Valid() && canceler.deletions == 0 && Booked() && !submitted && !resolved
      modifies this, canceler`activeHead, canceler`tracked, canceler`ops, canceler`inflight, canceler`deletions
      modifies canceler.inflight`prev, canceler.inflight`next
      ensures canceler.Valid() && Booked() && submitted == suspended == (accepted && !canceler.cancelled)
      ensures resolved == old(resolved) && (suspended ==> this.token == token)
      ensures cancelledBeforeSubmit == (old(cancelledBeforeSubmit) || canceler.cancelled)
      ensures canceler.inflight ==
              if suspended && !resolved then old(canceler.inflight) + {this} else old(canceler.inflight)
      ensures canceler.ops.list == (if suspended then [this] else []) + old(canceler.ops).list
    {
      hide Canceler.Valid, Order.Ok, Order.Pushed, Order.Cut;
      PushedList(canceler.ops, this);
      if this !in canceler.inflight { PushThenCut(canceler.ops, this); }
      if canceler.cancelled {
        cancelledBeforeSubmit := true;
        return false;
      }
      canceler.LinkNode(this);
      if !accepted {
        canceler.UnlinkNode(this);
        canceler.OpResolved(this);
        submitFailed := true;
        return false;
      }
      this.token := token;
      submitted := true;
      return true;
    }

    /** Completion; a second call changes nothing. */
    method AwaitResume() returns (cancelledEarly: bool)
      requires canceler.Valid() && Booked() && (cancelledBeforeSubmit ==> !submitted)
      modifies `resolved, canceler`activeHead, canceler`tracked, canceler`ops, canceler`inflight, canceler`deletions
      modifies canceler.inflight`prev, canceler.inflight`next
      ensures canceler.Valid() && Booked() && this !in canceler.inflight
      ensures cancelledEarly == old(cancelledBeforeSubmit) && canceler.inflight == old(canceler.inflight) - {this}
      ensures canceler.deletions == old(canceler.deletions)
                + if canceler.orphaned && old(this in canceler.inflight) && canceler.inflight == {} then 1 else 0
    {
      hide Canceler.Valid, Order.Ok;
      if cancelledBeforeSubmit { return true; }
      if submitted && !resolved {
        resolved := true;
        canceler.UnlinkNode(this);
        canceler.OpResolved(this);
      }
      return false;
    }

    /** The frame dies with the op still armed. */
    method Destroy()
      requires canceler.Valid() && Booked()
      modifies canceler`activeHead, canceler`tracked, canceler`ops, canceler`inflight, canceler`deletions
      modifies canceler.inflight`prev, canceler.inflight`next
      ensures canceler.Valid() && canceler.inflight == old(canceler.inflight) - {this}
      ensures canceler.deletions == old(canceler.deletions)
                + if canceler.orphaned && old(this in canceler.inflight) && canceler.inflight == {} then 1 else 0
    {
      hide Canceler.Valid, Order.Ok;
      if submitted && !resolved {
        canceler.UnlinkNode(this);
        canceler.OpResolved(this);
      }
    }
  }

  /** The ops with something to cancel, in list order. */
  ghost function Cancellable(s: seq<Awaiter>, live: set<Awaiter>): seq<Awaiter> {
    if s == [] then [] else (if s[0] in live then [s[0]] else []) + Cancellable(s[1..], live)
  }

  /** Linking an op and unlinking it again leaves the list as it was. */
  lemma PushThenCut(o: Order<Awaiter>, n: Awaiter)
    requires o.Ok() && n !in o.at
    ensures o.Pushed(n).Ok() && n in o.Pushed(n).at && o.Pushed(n).Cut(n).list == o.list
  {
    o.PushedOk(n);
    hide Order.Ok;
    assert o.Pushed(n).list[..0] + o.Pushed(n).list[1..] == o.list;
  }

  lemma PushedList(o: Order<Awaiter>, n: Awaiter)
    ensures o.Pushed(n).list == [n] + o.list && [] + o.list == o.list
  {
  }

  lemma CancellableNext(done: seq<Awaiter>, s: seq<Awaiter>, live: set<Awaiter>)
    requires s != []
    ensures (if s[0] in live then done + [s[0]] else done) + Cancellable(s[1..], live) == done + Cancellable(s, live)
  {
    CancellableStep(s, live);
    hide Cancellable;
    if s[0] in live { Shift(done, s[0], Cancellable(s[1..], live)); }
  }

  lemma CancellableStep(s: seq<Awaiter>, live: set<Awaiter>)
    requires s != []
    ensures Cancellable(s, live) ==
            if s[0] in live then [s[0]] + Cancellable(s[1..], live) else Cancellable(s[1..], live)
  {
    assert [] + Cancellable(s[1..], live) == Cancellable(s[1..], live);
  }

  lemma Shift(a: seq<Awaiter>, x: Awaiter, b: seq<Awaiter>)
    ensures (a + [x]) + b == a + ([x] + b)
  {
  }

  lemma {:induction false} CancellableSame(s: seq<Awaiter>, live: set<Awaiter>, live': set<Awaiter>)
    requires forall k :: 0 <= k < |s| ==> (s[k] in live <==> s[k] in live')
    ensures Cancellable(s, live) == Cancellable(s, live')
  {
    if s != [] { CancellableSame(s[1..], live, live'); }
  }

  lemma CancellableEnds(s: seq<Awaiter>, live: set<Awaiter>)
    ensures [] + Cancellable(s, live) == Cancellable(s, live) && Cancellable([], live) == []
  {
  }

  class Canceler {
    var cancelled: bool
    var activeHead: Option<Awaiter>
    var tracked: nat
    var orphaned: bool
    var parent: Option<Canceler>
    var firstChild: Option<Canceler>
    var nextSibling: Option<Canceler>
    var prevSibling: Option<Canceler>
    // the ops on the list, the awaiters that still refer to this canceler, how often
    // cancel_active_tasks() ran and how often the canceler was deleted
    ghost var ops: Order<Awaiter>
    ghost var inflight: set<Awaiter>
    ghost var sweeps: nat
    ghost var deletions: nat
    // the ops asked to cancel so far
    ghost var asked: seq<Awaiter>

    /** A new root joins the forest. */
    constructor Root(ghost f: Forest<Canceler>)
      requires Family(f)
      ensures Valid() && inflight == {} && !cancelled && !orphaned
      ensures Family(f.Planted(this))
    {
      cancelled, activeHead, tracked, orphaned := false, None, 0, false;
      parent, firstChild, nextSibling, prevSibling := None, None, None, None;
      ops, inflight, sweeps, deletions, asked := Order([], map[]), {}, 0, 0, [];
      new;
      EmptyIsValid();
      PlantedKin(f, this);
    }

    lemma EmptyIsValid()
      requires activeHead == None && ops == Order([], map[]) && inflight == {} && tracked == 0 && !orphaned
      requires deletions == 0
      ensures Valid()
    {
      StrungNone(Wires());
    }

    /** A new canceler becomes its parent's first child. */
    constructor Child(parent: Canceler, ghost f: Forest<Canceler>)
      requires Family(f) && parent in f.kids
      modifies parent`firstChild, f.kids.Keys`prevSibling
      ensures Family(f.Grown(parent, this)) && Valid() && inflight == {} && !cancelled && !orphaned
    {
      cancelled, activeHead, tracked, orphaned := false, None, 0, false;
      this.parent, firstChild, nextSibling, prevSibling := Some(parent), None, parent.firstChild, None;
      ops, inflight, sweeps, deletions, asked := Order([], map[]), {}, 0, 0, [];
      new;
      hide *;
      Hook(parent, f);
      EmptyIsValid();
    }

    /** The pointer writes a new child makes outside itself. */
    method Hook(parent: Canceler, ghost f: Forest<Canceler>)
      requires Family(f) && parent in f.kids && this !in f.kids
      requires Kin(this.parent, firstChild, nextSibling, prevSibling) ==
                 Kin(Some(parent), None, parent.firstChild, None)
      modifies parent`firstChild, f.kids.Keys`prevSibling
      ensures Family(f.Grown(parent, this))
    {
      hide Forest.Grown, KinOf;
      f.GrownOk(parent, this);
      GrownKin(f, parent, this);
      if nextSibling.Some? { nextSibling.value.prevSibling := Some(this); }
      parent.firstChild := Some(this);
    }

    /** The destructor of a canceler without children takes it out of its parent's list. */
    method Unhook(ghost f: Forest<Canceler>)
      requires Family(f) && this in f.kids && f.kids[this].list == []
      modifies f.kids.Keys`firstChild, f.kids.Keys`prevSibling, f.kids.Keys`nextSibling
      ensures Family(f.Pruned(this))
    {
      hide Forest.Pruned, Forest.Ok, KinOf, KinWithout;
      f.PrunedOk(this);
      PrunedKin(f, this);
      KinOutside(f, this);
      Unlace(f.kids.Keys);
    }

    /** The pointer writes of the destructor. */
    method Unlace(ghost all: set<Canceler>)
      requires this in all
      requires parent.Some? ==> parent.value in all && parent.value != this
      requires prevSibling.Some? ==> prevSibling.value in all && prevSibling.value != this && prevSibling != nextSibling
      requires nextSibling.Some? ==> nextSibling.value in all && nextSibling.value != this
      requires parent.None? ==> prevSibling.None? && nextSibling.None?
      modifies all`firstChild, all`prevSibling, all`nextSibling
      ensures var k := old(Kin(parent, firstChild, nextSibling, prevSibling));
              forall x :: x in all && x != this ==>
                Kin(x.parent, x.firstChild, x.nextSibling, x.prevSibling) ==
                  KinWithout(old(Kin(x.parent, x.firstChild, x.nextSibling, x.prevSibling)), x, k)
    {
      if parent.Some? {
        if prevSibling.Some? {
          prevSibling.value.nextSibling := nextSibling;
        } else {
          parent.value.firstChild := nextSibling;
        }
        if nextSibling.Some? { nextSibling.value.prevSibling := prevSibling; }
      }
    }

    ghost function Wires(): map<Awaiter, Pointers<Awaiter>>
      reads `inflight, inflight`prev, inflight`next
    {
      map a | a in inflight :: Pointers(a.prev, a.next)
    }

    /** The list is well formed, and every detached op has both pointers clear. */
    ghost predicate Listed()
      reads `inflight, `ops, `activeHead, inflight`prev, inflight`next
      ensures Listed() ==> ops.Ok() && ops.at.Keys <= inflight
    {
      Strung(ops, activeHead, Wires()) && forall a :: a in inflight ==> a.canceler == this
    }

    /** The count is that of the ops in flight, listed or not; the canceler is gone if and only
        if it is orphaned and nothing is in flight, and it went once. */
    ghost predicate Valid()
      reads `inflight, `ops, `activeHead, `tracked, `orphaned, `deletions, inflight`prev, inflight`next
      ensures Valid() ==> ops.Ok() && ops.at.Keys <= inflight && (inflight != {} ==> deletions == 0)
      ensures Valid() ==> forall a :: a in inflight ==> a.canceler == this
    {
      && Listed() && tracked == |inflight|
      && deletions == if orphaned && tracked == 0 then 1 else 0
    }

    /** The pointer writes of link_node(). */
    method Push(a: Awaiter)
      requires Listed() && a !in inflight && a.canceler == this
      modifies `activeHead, `ops, `inflight, inflight`prev, a`prev, a`next
      ensures Listed() && inflight == old(inflight) + {a} && ops == old(ops).Pushed(a) && a in ops.at
    {
      hide Strung, Order.Pushed;
      ghost var w := Wires()[a := Pointers(None, None)];
      StrungNew(ops, activeHead, Wires(), a);
      StrungPush(ops, activeHead, w, a);
      a.prev := None;
      a.next := activeHead;
      if activeHead.Some? { activeHead.value.prev := Some(a); }
      activeHead := Some(a);
      inflight, ops := inflight + {a}, ops.Pushed(a);
      assert Wires() == PushWires(w, old(activeHead), a);
    }

    method LinkNode(a: Awaiter)
      requires Valid() && deletions == 0 && a !in inflight && a.canceler == this
      modifies `activeHead, `tracked, `ops, `inflight, inflight`prev, a`prev, a`next
      ensures Valid() && inflight == old(inflight) + {a} && ops == old(ops).Pushed(a) && a in ops.at
    {
      hide Listed, Order.Pushed;
      Push(a);
      tracked := tracked + 1;
    }

    /** A node that is no longer on the list is left alone, and so is the list. */
    method UnlinkNode(a: Awaiter)
      requires Valid() && a in inflight
      modifies `activeHead, `ops, inflight`prev, inflight`next
      ensures Valid() && a !in ops.at
      ensures ops == if a in old(ops).at then old(ops).Cut(a) else old(ops)
    {
      hide Strung, Order.Ok, Order.Cut;
      StrungMember(ops, activeHead, Wires(), a);
      if a.prev.None? && a.next.None? && activeHead != Some(a) { return; }
      StrungCut(ops, activeHead, Wires(), a);
      ops := ops.Cut(a);
      Splice(a);
    }

    method Splice(a: Awaiter)
      requires a in inflight
      requires a.prev.Some? ==> a.prev.value in inflight && a.prev.value != a
      requires a.next.Some? ==> a.next.value in inflight && a.next.value != a
      modifies `activeHead, inflight`prev, inflight`next
      ensures Wires() == CutWires(old(Wires()), a)
      ensures activeHead == if old(a.prev).Some? then old(activeHead) else old(a.next)
    {
      if a.prev.Some? { a.prev.value.next := a.next; } else { activeHead := a.next; }
      if a.next.Some? { a.next.value.prev := a.prev; }
      a.prev, a.next := None, None;
    }

    /** The op of `a` is done with this canceler; the last one out of an orphan deletes it. */
    method OpResolved(ghost a: Awaiter)
      requires Valid() && a in inflight && a !in ops.at
      modifies `tracked, `inflight, `deletions
      ensures Valid() && inflight == old(inflight) - {a}
      ensures deletions == old(deletions) + if orphaned && inflight == {} then 1 else 0
    {
      hide Strung;
      StrungWithout(ops, activeHead, Wires(), a);
      tracked := tracked - 1;
      inflight := inflight - {a};
      assert Wires() == old(Wires()) - {a};
      if tracked == 0 && orphaned { deletions := deletions + 1; }
    }

    /** Ownership passes to the ops in flight. */
    method Orphan()
      requires Valid() && deletions == 0
      modifies `orphaned, `deletions
      ensures Valid() && orphaned && (deletions == 1 <==> inflight == {})
    {
      orphaned := true;
      if tracked == 0 { deletions := deletions + 1; }
    }

    method Reset() returns (busy: bool)
      requires Valid() && deletions == 0
      modifies `cancelled
      ensures Valid() && (busy <==> inflight != {})
      ensures cancelled == if busy then old(cancelled) else false
    {
      if tracked != 0 { return true; }
      cancelled := false;
      return false;
    }

    ghost function Submitted(): set<Awaiter>
      reads `inflight, inflight`token
    {
      set a | a in inflight && a.token != 0
    }

    method Clear(a: Awaiter)
      requires a in inflight
      modifies a`prev, a`next
      ensures Wires() == old(Wires())[a := Pointers(None, None)]
    {
      a.prev, a.next := None, None;
    }

    /** The loop of cancel_active_tasks(). */
    method TakeApart() returns (asked: seq<Awaiter>)
      requires Listed()
      modifies `activeHead, inflight`prev, inflight`next
      ensures activeHead == None && Wires() == Detaching(old(Wires()), [])
      ensures asked == Cancellable(ops.list, old(Submitted()))
    {
      hide Strung, Order.Ok, Order.EndsWith, Detaching, Cancellable;
      StrungWhole(ops, activeHead, Wires());
      DetachingStarts(Wires(), ops.list);
      CancellableEnds(ops.list, Submitted());
      ghost var first, w, rest, live := activeHead, Wires(), ops.list, Submitted();
      var node := activeHead;
      activeHead := None;
      asked := [];
      while node.Some?
        modifies inflight`prev, inflight`next
        invariant node == (if rest == [] then None else Some(rest[0])) && ops.EndsWith(rest)
        invariant Wires() == Detaching(w, rest)
        invariant asked + Cancellable(rest, live) == Cancellable(ops.list, live)
        decreases |rest|
      {
        StrungRest(ops, first, w, rest);
        DetachNext(w, rest);
        CancellableNext(asked, rest, live);
        var a := node.value;
        var next := a.next;
        Clear(a);
        if a.token != 0 { asked := asked + [a]; }
        rest := rest[1..];
        node := next;
      }
    }

    /** Every listed op is asked to cancel, once and in order, and the list is taken apart; the
        ops stay on the books. */
    method CancelActiveTasks() returns (now: seq<Awaiter>)
      requires Valid()
      modifies `activeHead, `ops, `sweeps, `asked, inflight`prev, inflight`next
      ensures Valid() && ops == Order([], map[]) && activeHead == None && sweeps == old(sweeps) + 1
      ensures now == Cancellable(old(ops.list), old(Submitted())) && asked == old(asked) + now
    {
      hide Strung, Order.Ok, Detaching, Cancellable;
      DetachingEnds(Wires());
      now := TakeApart();
      StrungNone(Wires());
      ops, sweeps, asked := Order([], map[]), sweeps + 1, asked + now;
    }

    /** Of the awaiters whose frames exist, exactly those armed and unresolved are on the books. */
    ghost predicate BooksKept(alive: set<Awaiter>)
      reads `inflight, alive`submitted, alive`resolved, alive`cancelledBeforeSubmit
    {
      && inflight <= alive
      && (forall a :: a in alive ==> a.canceler == this && ((a.submitted && !a.resolved) <==> a in inflight))
      && (forall a :: a in alive && a.cancelledBeforeSubmit ==> !a.submitted)
    }

    /** What the owner may do; true once it has let go. */
    method OwnerTurn(act: nat) returns (released: bool)
      requires Valid() && !orphaned
      modifies `cancelled, `orphaned, `deletions, `activeHead, `ops, `sweeps, `asked, inflight`prev, inflight`next
      ensures Valid() && released == orphaned
    {
      hide Listed, Order.Ok;
      if act == 0 {
        Orphan();
      } else if act == 1 {
        var busy := Reset();
      } else if act == 2 && !cancelled {
        cancelled := true;
        var now := CancelActiveTasks();
      }
      released := orphaned;
    }

    /** What an awaiter may do. A new op needs a canceler that is still there. */
    method AwaiterTurn(a: Awaiter, act: nat, owned: bool, ghost alive: set<Awaiter>) returns (dead: bool)
      requires Valid() && BooksKept(alive) && a in alive && (owned ==> !orphaned)
      modifies a, `activeHead, `tracked, `ops, `inflight, `deletions, inflight`prev, inflight`next
      ensures Valid() && BooksKept(if dead then alive - {a} else alive)
    {
      hide Valid, Order.Ok, Order.Pushed;
      StillThere();
      dead := false;
      if act == 0 && !a.submitted && !a.resolved && !a.cancelledBeforeSubmit && (owned || tracked > 0) {
        var accepted: bool, token: nat := *, *;
        var suspended := a.AwaitSuspend(accepted, token);
      } else if act == 1 {
        var early := a.AwaitResume();
      } else if act == 2 {
        a.Destroy();
        dead := true;
      }
    }

    /** Any run of a canceler and its awaiters: submitting, completing, destroying, cancelling,
        resetting and orphaning in any order. The owner lets go once it has orphaned the canceler;
        from then on only ops that are still on the books may add more. */
    method Drive(awaiters: seq<Awaiter>) returns (alive: set<Awaiter>)
      requires Valid() && !orphaned && BooksKept(set a | a in awaiters)
      modifies this, awaiters
      ensures Valid() && alive <= (set a | a in awaiters)
      ensures inflight == set a | a in alive && a.submitted && !a.resolved
      ensures tracked == |set a | a in alive && a.submitted && !a.resolved|
    {
      hide Valid;
      alive := set a | a in awaiters;
      var owned := true;
      var turns: nat := *;
      while turns > 0
        invariant Valid() && (owned ==> !orphaned) && BooksKept(alive) && alive <= set a | a in awaiters
      {
        turns := turns - 1;
        var i: nat, act: nat := *, *;
        if owned && i >= |awaiters| {
          var released := OwnerTurn(act);
          owned := !released;
        } else if i < |awaiters| && awaiters[i] in alive {
          var dead := AwaiterTurn(awaiters[i], act, owned, alive);
          if dead { alive := alive - {awaiters[i]}; }
        }
      }
      Books();
      assert inflight == set a | a in alive && a.submitted && !a.resolved;
    }

    /** A canceler with ops in flight has not been deleted. */
    lemma StillThere()
      requires Valid()
      ensures tracked > 0 || !orphaned ==> deletions == 0
    {
    }

    lemma Books()
      requires Valid()
      ensures tracked == |inflight|
    {
    }

    /** One stop of the walk: a canceler that is not cancelled yet is marked and swept, and only
        its own ops are touched. */
    method Stop(ghost f: Forest<Canceler>, ghost frames: set<Awaiter>)
      requires Sound(f, frames) && this in f.kids
      modifies `cancelled, `activeHead, `ops, `sweeps, `asked, frames`prev, frames`next
      ensures Sound(f, frames)
      ensures NowFlag(frames) == if old(cancelled) then old(NowFlag(frames)) else Swept(old(NowFlag(frames)))
      ensures forall a :: a in frames && (a.canceler != this || old(cancelled)) ==>
                a.prev == old(a.prev) && a.next == old(a.next)
    {
      hide Valid, Family;
      if !cancelled {
        OwnOps();
        Sweep(frames);
      }
    }

    lemma OwnOps()
      requires Valid()
      ensures forall a :: a in inflight ==> a.canceler == this
    {
    }

    method Sweep(ghost frames: set<Awaiter>)
      requires Valid() && inflight <= frames
      modifies `cancelled, `activeHead, `ops, `sweeps, `asked, inflight`prev, inflight`next
      ensures Valid() && NowFlag(frames) == Swept(old(NowFlag(frames)))
    {
      hide Listed, Cancellable;
      AskedSame(frames);
      cancelled := true;
      var now := CancelActiveTasks();
    }

    lemma AskedSame(frames: set<Awaiter>)
      requires Valid() && inflight <= frames
      ensures Cancellable(ops.list, Submitted()) == Cancellable(ops.list, Tokened(frames))
    {
      forall k | 0 <= k < |ops.list| ensures ops.list[k] in inflight { assert ops.list[k] in ops.at; }
      CancellableSame(ops.list, Submitted(), Tokened(frames));
    }

    ghost function NowFlag(frames: set<Awaiter>): Flag
      reads `cancelled, `sweeps, `ops, `activeHead, `asked, frames`token
    {
      Flag(cancelled, sweeps, ops, activeHead, asked, Tokened(frames))
    }

    method Visit(ghost f: Forest<Canceler>, ghost frames: set<Awaiter>)
      requires Sound(f, frames) && this in f.kids
      modifies `cancelled, `activeHead, `ops, `sweeps, `asked, frames`prev, frames`next
      ensures Sound(f, frames) && Flags(f, frames) == Mark(old(Flags(f, frames)), this)
      ensures Spared(old(Links(frames)), Links(frames), old(Flags(f, frames)), [this])
    {
      hide Sound, Forest.Ok, Mark, Swept;
      ghost var before := Flags(f, frames);
      Stop(f, frames);
      forall c | c in f.kids && c != this ensures Flags(f, frames)[c] == before[c] {
        assert c.NowFlag(frames) == old(c.NowFlag(frames));
      }
      MarkIs(before, this, Flags(f, frames));
    }

    /** From a leaf to the next canceler of the walk over `root`: the next sibling of the nearest
        ancestor that has one. */
    method Climb(root: Canceler, ghost f: Forest<Canceler>, ghost done: seq<Canceler>) returns (next: Option<Canceler>)
      requires Family(f) && root in f.kids && f.Past(root, done, this)
      ensures if next.Some? then f.At(root, done, next.value) else done == f.Pre(root)
    {
      hide Family, Forest.Ok, Forest.Pre, Forest.After, Forest.Under, Forest.At;
      var current := this;
      while current != root
        invariant f.Past(root, done, current)
        decreases f.depth[current]
      {
        f.HasParent(root, done, current);
        KinKnown(f, current);
        if current.nextSibling.Some? {
          f.WalkAcross(root, done, current);
          return current.nextSibling;
        }
        f.WalkUp(root, done, current);
        current := current.parent.value;
      }
      f.WalkEnds(root, done);
      return None;
    }

    /** The pointer walk over a subtree marks exactly its pre-order. */
    method CancelSubtree(ghost f: Forest<Canceler>, ghost frames: set<Awaiter>)
      requires Sound(f, frames) && this in f.kids
      modifies f.kids.Keys`cancelled, f.kids.Keys`activeHead, f.kids.Keys`ops, f.kids.Keys`sweeps
      modifies f.kids.Keys`asked, frames`prev, frames`next
      ensures Sound(f, frames) && Flags(f, frames) == MarkAll(old(Flags(f, frames)), f.Pre(this))
      ensures Spared(old(Links(frames)), Links(frames), old(Flags(f, frames)), f.Pre(this))
    {
      hide Sound, Family, Forest.Ok, Forest.Pre, Forest.Past, Forest.At, Mark, MarkAll, Flags, Links, Spared;
      ghost var flags, links := Flags(f, frames), Links(frames);
      MarkNone(flags);
      SparedNone(links, flags);
      ghost var done: seq<Canceler> := [];
      var current: Option<Canceler> := Some(this);
      f.WalkStarts(this);
      while current.Some?
        invariant Sound(f, frames) && Flags(f, frames) == MarkAll(flags, done)
        invariant Spared(links, Links(frames), flags, done)
        invariant if current.Some? then f.At(this, done, current.value) else done == f.Pre(this)
        decreases if current.Some? then |f.Pre(this)| - |done| else 0
      {
        var c := current.value;
        f.WalkGrows(this, done, c);
        ghost var met := Links(frames);
        c.Visit(f, frames);
        SparedThen(links, met, Links(frames), flags, done, [c]);
        MarkMore(flags, done, c);
        KinKnown(f, c);
        if c.firstChild.Some? {
          f.WalkDown(this, done, c);
          current := c.firstChild;
        } else {
          f.WalkLeaf(this, done, c);
          current := c.Climb(this, f, done + [c]);
        }
        done := done + [c];
        if current.Some? { f.WalkGrows(this, done, current.value); }
      }
    }

    /** cancel(): nothing on a canceler that is cancelled already; otherwise everything under it
        ends up cancelled, each newly cancelled one is swept once and its list is empty, and no
        other canceler, list or op is touched. */
    method Cancel(ghost f: Forest<Canceler>, ghost frames: set<Awaiter>)
      requires Sound(f, frames) && this in f.kids
      modifies f.kids.Keys`cancelled, f.kids.Keys`activeHead, f.kids.Keys`ops, f.kids.Keys`sweeps
      modifies f.kids.Keys`asked, frames`prev, frames`next
      ensures Sound(f, frames)
      ensures old(cancelled) ==> Flags(f, frames) == old(Flags(f, frames)) && Links(frames) == old(Links(frames))
      ensures !old(cancelled) ==> forall c :: c in f.kids ==>
                c.NowFlag(frames) ==
                  if f.Under(this, c) && !old(c.cancelled) then Swept(old(c.NowFlag(frames)))
                  else old(c.NowFlag(frames))
      ensures forall a :: a in frames
                          && !(a.canceler in f.kids && f.Under(this, a.canceler) && !old(a.canceler.cancelled)) ==>
                a.prev == old(a.prev) && a.next == old(a.next)
    {
      hide Sound, Family, Forest.Ok, Forest.Pre, Forest.PreFrom, Forest.PreUpTo, Forest.Under, Mark, MarkAll;
      hide Swept, Spared;
      if cancelled { return; }
      ghost var flags, links := Flags(f, frames), Links(frames);
      CancelAll(f, frames);
      forall c | c in f.kids
        ensures Flags(f, frames)[c] == if f.Under(this, c) && !flags[c].cancelled then Swept(flags[c]) else flags[c]
      {
        MarkedOne(flags, f.Pre(this), c);
        Subtree(f, this, c);
      }
      forall a | a in frames && !(a.canceler in f.kids && f.Under(this, a.canceler) && !flags[a.canceler].cancelled)
        ensures Links(frames)[a] == links[a]
      {
        if a.canceler in f.kids { Subtree(f, this, a.canceler); }
        SparedOne(links, Links(frames), flags, f.Pre(this), a);
      }
    }

    /** The body of cancel(). */
    method CancelAll(ghost f: Forest<Canceler>, ghost frames: set<Awaiter>)
      requires Sound(f, frames) && this in f.kids
      modifies f.kids.Keys`cancelled, f.kids.Keys`activeHead, f.kids.Keys`ops, f.kids.Keys`sweeps
      modifies f.kids.Keys`asked, frames`prev, frames`next
      ensures Sound(f, frames) && Flags(f, frames) == MarkAll(old(Flags(f, frames)), f.Pre(this))
      ensures Spared(old(Links(frames)), Links(frames), old(Flags(f, frames)), f.Pre(this))
    {
      hide Sound, Family, Forest.Ok, Forest.Pre, Forest.PreFrom, Forest.PreUpTo, Mark, MarkAll, Flags, Links, Spared;
      ghost var flags, links := Flags(f, frames), Links(frames);
      Visit(f, frames);
      KinKnown(f, this);
      StartChildren(f, this, flags);
      var child := firstChild;
      ghost var i := 0;
      while child.Some?
        invariant Sound(f, frames) && i <= |f.kids[this].list| && child == Nth(f.kids[this].list, i)
        invariant Flags(f, frames) == MarkAll(flags, [this] + f.PreUpTo(this, i))
        invariant Spared(links, Links(frames), flags, [this] + f.PreUpTo(this, i))
        decreases |f.kids[this].list| - i
      {
        NextChild(f, this, i, flags);
        ghost var met := Links(frames);
        child.value.CancelSubtree(f, frames);
        SparedThen(links, met, Links(frames), flags, [this] + f.PreUpTo(this, i), f.Pre(child.value));
        KinKnown(f, child.value);
        child := child.value.nextSibling;
        i := i + 1;
      }
      EndChildren(f, this, i);
    }
  }

  // --------------------------------------------------------------- the tree of cancelers

  datatype Kin = Kin(parent: Option<Canceler>, firstChild: Option<Canceler>,
                     nextSibling: Option<Canceler>, prevSibling: Option<Canceler>)

  /** What a canceler's four tree pointers are in the forest `f`. */
  ghost function KinOf(f: Forest<Canceler>, c: Canceler): Kin
    requires f.Ok() && c in f.kids
  {
    Kin(f.up[c], f.kids[c].First(), f.NextOf(c), f.PrevOf(c))
  }

  /** A new first child changes its parent's first child and the old first child's predecessor. */
  ghost function KinWith(k: Kin, x: Canceler, p: Canceler, c: Canceler, first: Option<Canceler>): Kin {
    k.(firstChild := if x == p then Some(c) else k.firstChild,
       prevSibling := if Some(x) == first then Some(c) else k.prevSibling)
  }

  /** A new root has no kin, and nobody else's kin changes. */
  lemma PlantedKin(f: Forest<Canceler>, c: Canceler)
    requires f.Ok() && c !in f.kids
    ensures f.Planted(c).Ok() && f.Planted(c).kids.Keys == f.kids.Keys + {c}
    ensures KinOf(f.Planted(c), c) == Kin(None, None, None, None)
    ensures forall x :: x in f.kids ==> KinOf(f.Planted(c), x) == KinOf(f, x)
  {
    f.PlantedOk(c);
    forall x | x in f.kids ensures KinOf(f.Planted(c), x) == KinOf(f, x) {
      assert f.NodeOk(x);
      if f.up[x].Some? { assert f.NodeOk(f.up[x].value); }
    }
  }

  lemma GrownKinNew(f: Forest<Canceler>, p: Canceler, c: Canceler)
    requires f.Ok() && p in f.kids && c !in f.kids && f.Grown(p, c).Ok() && c !in f.kids[p].at
    ensures f.Grown(p, c).kids.Keys == f.kids.Keys + {c}
    ensures KinOf(f.Grown(p, c), c) == Kin(Some(p), None, KinOf(f, p).firstChild, None)
    ensures KinOf(f, p).firstChild.Some? ==> KinOf(f, p).firstChild.value in f.kids
  {
    hide Order.Ok, Order.Pushed, Order.Next, Order.Prev;
    assert f.NodeOk(p);
    f.kids[p].Pushing(c);
  }

  lemma GrownKin(f: Forest<Canceler>, p: Canceler, c: Canceler)
    requires f.Ok() && p in f.kids && c !in f.kids && f.Grown(p, c).Ok() && c !in f.kids[p].at
    ensures f.Grown(p, c).kids.Keys == f.kids.Keys + {c}
    ensures KinOf(f.Grown(p, c), c) == Kin(Some(p), None, KinOf(f, p).firstChild, None)
    ensures KinOf(f, p).firstChild.Some? ==> KinOf(f, p).firstChild.value in f.kids
    ensures forall x :: x in f.kids ==> KinOf(f.Grown(p, c), x) == KinWith(KinOf(f, x), x, p, c, KinOf(f, p).firstChild)
  {
    hide KinOf, KinWith, Forest.Grown;
    GrownKinNew(f, p, c);
    forall x | x in f.kids ensures KinOf(f.Grown(p, c), x) == KinWith(KinOf(f, x), x, p, c, KinOf(f, p).firstChild) {
      GrownKinOne(f, p, c, x);
    }
  }

  lemma GrownKinOne(f: Forest<Canceler>, p: Canceler, c: Canceler, x: Canceler)
    requires f.Ok() && p in f.kids && c !in f.kids && f.Grown(p, c).Ok() && c !in f.kids[p].at && x in f.kids
    ensures KinOf(f.Grown(p, c), x) == KinWith(KinOf(f, x), x, p, c, KinOf(f, p).firstChild)
  {
    hide Order.Ok, Order.Pushed, Order.Next, Order.Prev, Order.First;
    assert f.NodeOk(p) && f.NodeOk(x);
    f.kids[p].Pushing(c);
  }

  /** A canceler that leaves is bridged by its neighbours. */
  ghost function KinWithout(k: Kin, x: Canceler, gone: Kin): Kin {
    k.(firstChild := if Some(x) == gone.parent && gone.prevSibling.None? then gone.nextSibling else k.firstChild,
       nextSibling := if Some(x) == gone.prevSibling then gone.nextSibling else k.nextSibling,
       prevSibling := if Some(x) == gone.nextSibling then gone.prevSibling else k.prevSibling)
  }

  lemma PrunedKinOne(f: Forest<Canceler>, c: Canceler, x: Canceler)
    requires f.Ok() && c in f.kids && x in f.kids && x != c && f.Pruned(c).Ok() && x in f.Pruned(c).kids
    ensures KinOf(f.Pruned(c), x) == KinWithout(KinOf(f, x), x, KinOf(f, c))
  {
    hide Order.Ok, Order.Cut, Order.Next, Order.Prev, Order.First;
    assert f.NodeOk(c) && f.NodeOk(x) && f.Pruned(c).NodeOk(x);
    if f.up[c].Some? {
      var p := f.up[c].value;
      assert f.NodeOk(p);
      f.kids[p].Cutting(c);
      if f.up[x] != Some(p) { assert x !in f.kids[p].at; }
      if f.up[x].Some? { assert f.NodeOk(f.up[x].value); }
    }
  }

  lemma KinOutside(f: Forest<Canceler>, c: Canceler)
    requires f.Ok() && c in f.kids && f.kids[c].list == []
    ensures var k := KinOf(f, c);
            && (k.parent.Some? ==> k.parent.value in f.kids && k.parent.value != c)
            && (k.prevSibling.Some? ==> k.prevSibling.value in f.kids && k.prevSibling.value != c)
            && (k.prevSibling.Some? ==> k.prevSibling != k.nextSibling)
            && (k.nextSibling.Some? ==> k.nextSibling.value in f.kids && k.nextSibling.value != c)
            && (k.parent.None? ==> k.prevSibling.None? && k.nextSibling.None?)
  {
    assert f.NodeOk(c);
    if f.up[c].Some? {
      assert f.NodeOk(f.up[c].value);
      f.kids[f.up[c].value].Neighbours(c);
    }
  }

  lemma PrunedKin(f: Forest<Canceler>, c: Canceler)
    requires f.Ok() && c in f.kids && f.Pruned(c).Ok()
    ensures f.Pruned(c).kids.Keys == f.kids.Keys - {c}
    ensures forall x :: x in f.kids && x != c ==> KinOf(f.Pruned(c), x) == KinWithout(KinOf(f, x), x, KinOf(f, c))
  {
    hide Order.Ok, Order.Cut, KinOf, KinWithout;
    assert f.NodeOk(c);
    if f.up[c].Some? { assert f.NodeOk(f.up[c].value); }
    forall x | x in f.kids && x != c ensures KinOf(f.Pruned(c), x) == KinWithout(KinOf(f, x), x, KinOf(f, c)) {
      PrunedKinOne(f, c, x);
    }
  }

  ghost predicate Family(f: Forest<Canceler>)
    reads f.kids.Keys`parent, f.kids.Keys`firstChild, f.kids.Keys`nextSibling, f.kids.Keys`prevSibling
    ensures Family(f) ==> f.Ok()
  {
    f.Ok() && forall c :: c in f.kids ==> Kin(c.parent, c.firstChild, c.nextSibling, c.prevSibling) == KinOf(f, c)
  }

  /** The tree pointers are those of `f`, and every canceler's own list is well formed. */
  ghost predicate Sound(f: Forest<Canceler>, frames: set<Awaiter>)
    reads f.kids.Keys, frames`prev, frames`next
    ensures Sound(f, frames) ==> f.Ok() && Family(f)
  {
    && Family(f)
    && (forall c :: c in f.kids ==> c.inflight <= frames)
    && (forall c :: c in f.kids ==> c.Valid())
  }

  /** What a walk may change of a canceler. */
  datatype Flag = Flag(cancelled: bool, sweeps: nat, ops: Order<Awaiter>, head: Option<Awaiter>,
                       asked: seq<Awaiter>, live: set<Awaiter>)

  /** The ops that have a token to cancel by. */
  ghost function Tokened(frames: set<Awaiter>): set<Awaiter>
    reads frames`token
  {
    set a | a in frames && a.token != 0
  }

  ghost function Flags(f: Forest<Canceler>, frames: set<Awaiter>): map<Canceler, Flag>
    reads f.kids.Keys`cancelled, f.kids.Keys`sweeps, f.kids.Keys`ops, f.kids.Keys`activeHead
    reads f.kids.Keys`asked, frames`token
  {
    map c | c in f.kids :: c.NowFlag(frames)
  }

  /** Cancelled, swept once more, every listed op with a token asked, in order, and nothing left
      on the list. */
  ghost function Swept(flag: Flag): Flag {
    Flag(true, flag.sweeps + 1, Order([], map[]), None, flag.asked + Cancellable(flag.ops.list, flag.live), flag.live)
  }

  /** Marking sweeps a canceler once, and only if it was not cancelled before. */
  ghost function Mark(flags: map<Canceler, Flag>, c: Canceler): map<Canceler, Flag> {
    if c in flags && !flags[c].cancelled then flags[c := Swept(flags[c])] else flags
  }

  ghost function MarkAll(flags: map<Canceler, Flag>, s: seq<Canceler>): map<Canceler, Flag> {
    if s == [] then flags else Mark(MarkAll(flags, s[..|s| - 1]), s[|s| - 1])
  }

  lemma MarkIs(flags: map<Canceler, Flag>, c: Canceler, after: map<Canceler, Flag>)
    requires c in flags && after.Keys == flags.Keys && forall x :: x in flags && x != c ==> after[x] == flags[x]
    requires after[c] == if flags[c].cancelled then flags[c] else Swept(flags[c])
    ensures after == Mark(flags, c)
  {
  }

  lemma MarkNone(flags: map<Canceler, Flag>)
    ensures MarkAll(flags, []) == flags
  {
  }

  lemma MarkMore(flags: map<Canceler, Flag>, s: seq<Canceler>, c: Canceler)
    ensures MarkAll(flags, s + [c]) == Mark(MarkAll(flags, s), c)
  {
    assert (s + [c])[..|s|] == s;
  }

  /** The list links of the ops in the given frames. */
  ghost function Links(frames: set<Awaiter>): map<Awaiter, Pointers<Awaiter>>
    reads frames`prev, frames`next
  {
    map a | a in frames :: Pointers(a.prev, a.next)
  }

  /** Only ops of cancelers that were visited and not cancelled before have new links. */
  ghost predicate Spared(was: map<Awaiter, Pointers<Awaiter>>, now: map<Awaiter, Pointers<Awaiter>>,
                         flags: map<Canceler, Flag>, visited: seq<Canceler>)
  {
    && now.Keys == was.Keys
    && forall a :: a in was && !(a.canceler in visited && a.canceler in flags && !flags[a.canceler].cancelled) ==>
         now[a] == was[a]
  }

  lemma SparedNone(links: map<Awaiter, Pointers<Awaiter>>, flags: map<Canceler, Flag>)
    ensures Spared(links, links, flags, [])
  {
  }

  lemma SparedOne(was: map<Awaiter, Pointers<Awaiter>>, now: map<Awaiter, Pointers<Awaiter>>,
                  flags: map<Canceler, Flag>, visited: seq<Canceler>, a: Awaiter)
    requires Spared(was, now, flags, visited) && a in was
    requires !(a.canceler in visited && a.canceler in flags && !flags[a.canceler].cancelled)
    ensures a in now && now[a] == was[a]
  {
  }

  lemma SparedThen(was: map<Awaiter, Pointers<Awaiter>>, met: map<Awaiter, Pointers<Awaiter>>,
                   now: map<Awaiter, Pointers<Awaiter>>,
                   flags: map<Canceler, Flag>, visited: seq<Canceler>, more: seq<Canceler>)
    requires Spared(was, met, flags, visited) && Spared(met, now, MarkAll(flags, visited), more)
    ensures Spared(was, now, flags, visited + more)
  {
    hide MarkAll;
    forall a | a in was && !(a.canceler in visited + more && a.canceler in flags && !flags[a.canceler].cancelled)
      ensures now[a] == was[a]
    {
      assert met[a] == was[a];
      if a.canceler in flags {
        MarkedOne(flags, visited, a.canceler);
      } else {
        MarkedKeys(flags, visited);
      }
    }
  }

  lemma {:induction false} MarkedKeys(flags: map<Canceler, Flag>, s: seq<Canceler>)
    ensures MarkAll(flags, s).Keys == flags.Keys
  {
    if s != [] { MarkedKeys(flags, s[..|s| - 1]); }
  }

  lemma KinKnown(f: Forest<Canceler>, c: Canceler)
    requires Family(f) && c in f.kids
    ensures c.firstChild == f.kids[c].First() && c.parent == f.up[c] && c.nextSibling == f.NextOf(c)
  {
  }

  ghost function Nth(s: seq<Canceler>, i: nat): Option<Canceler> {
    if i < |s| then Some(s[i]) else None
  }

  lemma StartChildren(f: Forest<Canceler>, p: Canceler, flags: map<Canceler, Flag>)
    requires f.Ok() && p in f.kids
    ensures f.kids[p].First() == Nth(f.kids[p].list, 0)
    ensures Mark(flags, p) == MarkAll(flags, [p] + f.PreUpTo(p, 0)) && [p] + f.PreUpTo(p, 0) == [p]
  {
    assert [p] + f.PreUpTo(p, 0) == [] + [p];
    MarkMore(flags, [], p);
  }

  lemma NextChild(f: Forest<Canceler>, p: Canceler, i: nat, flags: map<Canceler, Flag>)
    requires f.Ok() && p in f.kids && i < |f.kids[p].list|
    ensures var k := f.kids[p].list[i];
            && k in f.kids && f.NextOf(k) == Nth(f.kids[p].list, i + 1)
            && MarkAll(MarkAll(flags, [p] + f.PreUpTo(p, i)), f.Pre(k)) == MarkAll(flags, [p] + f.PreUpTo(p, i + 1))
            && [p] + f.PreUpTo(p, i + 1) == ([p] + f.PreUpTo(p, i)) + f.Pre(k)
  {
    f.Child(p, i);
    var k := f.kids[p].list[i];
    MarkAgain(flags, [p] + f.PreUpTo(p, i), f.Pre(k));
    assert [p] + f.PreUpTo(p, i + 1) == ([p] + f.PreUpTo(p, i)) + f.Pre(k);
  }

  lemma EndChildren(f: Forest<Canceler>, p: Canceler, i: nat)
    requires f.Ok() && p in f.kids && i == |f.kids[p].list|
    ensures [p] + f.PreUpTo(p, i) == f.Pre(p)
  {
    f.PreSplit(p, i);
  }

  lemma {:induction false} MarkAgain(flags: map<Canceler, Flag>, a: seq<Canceler>, b: seq<Canceler>)
    ensures MarkAll(MarkAll(flags, a), b) == MarkAll(flags, a + b)
  {
    if b == [] {
      assert a + b == a;
    } else {
      MarkAgain(flags, a, b[..|b| - 1]);
      assert (a + b)[..|a + b| - 1] == a + b[..|b| - 1];
    }
  }

  lemma {:induction false} MarkedOne(flags: map<Canceler, Flag>, s: seq<Canceler>, c: Canceler)
    requires c in flags
    ensures c in MarkAll(flags, s)
    ensures MarkAll(flags, s)[c] == if c in s && !flags[c].cancelled then Swept(flags[c]) else flags[c]
  {
    if s != [] { MarkedOne(flags, s[..|s| - 1], c); }
  }

  lemma Subtree(f: Forest<Canceler>, root: Canceler, c: Canceler)
    requires f.Ok() && root in f.kids && c in f.kids
    ensures c in f.Pre(root) <==> f.Under(root, c)
  {
    if c in f.Pre(root) { f.PreIsUnder(root, c); }
    if f.Under(root, c) { f.UnderIsPre(root, c); }
  }
}
