/** The io_uring slot table: generation-tagged tokens, and the ops that allocate and free them. */
module SlotTable {
  import opened Optional

  // indices and generations are 32 bits wide
  const WORD := 0x1_0000_0000

  /** Generation in the upper half, index in the lower. */
  function Encode(index: nat, generation: nat): nat
    requires index < WORD && generation < WORD
  {
    generation * WORD + index
  }

  function IndexOf(token: nat): nat { token % WORD }

  function GenerationOf(token: nat): nat { token / WORD % WORD }

  lemma DecodeEncode(index: nat, generation: nat)
    requires index < WORD && generation < WORD
    ensures IndexOf(Encode(index, generation)) == index && GenerationOf(Encode(index, generation)) == generation
    ensures Encode(index, generation) < WORD * WORD
  {
  }

  lemma EncodeDecode(token: nat)
    requires token < WORD * WORD
    ensures Encode(IndexOf(token), GenerationOf(token)) == token
  {
  }

  datatype Slot<T> = Slot(task: Option<T>, generation: nat)

  /** One allocation: the slot it got, how often that slot had been freed by then, and for whom. */
  datatype Issue<T> = Issue(index: nat, stamp: nat, task: T) {
    function Token(): nat
      requires index < WORD
    {
      Encode(index, Stamped(stamp))
    }
  }

  /** The generation of a slot that has been freed so often. */
  function Stamped(frees: nat): (g: nat)
    ensures g < WORD
  {
    (1 + frees) % WORD
  }

  lemma NextStamp(frees: nat)
    ensures (Stamped(frees) + 1) % WORD == Stamped(frees + 1)
  {
  }

  /** The slots after any history, given how often each has been freed. */
  ghost predicate Kept<T>(slots: seq<Slot<T>>, frees: seq<nat>, issued: seq<Issue<T>>) {
    && 0 < |slots| <= WORD && |frees| == |slots|
    && (forall i :: 0 <= i < |slots| ==> slots[i].generation == Stamped(frees[i]))
    && (forall k :: 0 <= k < |issued| ==> Past(slots, frees, issued[k]))
    && (forall i :: 0 <= i < |slots| && slots[i].task.Some? ==> Issue(i, frees[i], slots[i].task.value) in issued)
    && (forall j, k :: 0 <= j < k < |issued| ==>
          issued[j].index != issued[k].index || issued[j].stamp != issued[k].stamp)
    && (forall i :: 0 <= i < |slots| ==> CountOf(issued, i) == frees[i] + if slots[i].task.Some? then 1 else 0)
  }

  /** How many allocations got slot `i`. */
  ghost function CountOf<T>(issued: seq<Issue<T>>, i: nat): nat {
    if issued == [] then 0
    else (if issued[|issued| - 1].index == i then 1 else 0) + CountOf(issued[..|issued| - 1], i)
  }

  lemma CountMore<T>(issued: seq<Issue<T>>, s: Issue<T>, i: nat)
    ensures CountOf(issued + [s], i) == CountOf(issued, i) + if s.index == i then 1 else 0
  {
    assert (issued + [s])[..|issued|] == issued;
  }

  lemma {:induction false} CountNone<T>(issued: seq<Issue<T>>, i: nat)
    requires forall k :: 0 <= k < |issued| ==> issued[k].index != i
    ensures CountOf(issued, i) == 0
  {
    if issued != [] { CountNone(issued[..|issued| - 1], i); }
  }

  ghost predicate Past<T>(slots: seq<Slot<T>>, frees: seq<nat>, s: Issue<T>)
    requires |frees| == |slots|
  {
    && s.index < |slots| && s.stamp <= frees[s.index]
    && (s.stamp == frees[s.index] ==> slots[s.index].task == Some(s.task))
  }

  /** An allocation that has not been freed. */
  ghost predicate Live<T>(frees: seq<nat>, s: Issue<T>) {
    s.index < |frees| && s.stamp == frees[s.index]
  }

  ghost predicate FreeListOk<T>(slots: seq<Slot<T>>, free: seq<nat>) {
    && (forall k :: 0 <= k < |free| ==> free[k] < |slots| && slots[free[k]].task.None?)
    && (forall j, k :: 0 <= j < k < |free| ==> free[j] != free[k])
    && (forall i :: 0 <= i < |slots| && slots[i].task.None? ==> i in free)
  }

  function Find<T>(slots: seq<Slot<T>>, token: nat): Option<T> {
    var idx := IndexOf(token);
    if idx >= |slots| then None else if slots[idx].generation != GenerationOf(token) then None else slots[idx].task
  }

  lemma SameGeneration(a: nat, b: nat)
    requires a <= b
    ensures (1 + a) % WORD == (1 + b) % WORD <==> (b - a) % WORD == 0
  {
  }

  /** A token leads to its task while it is live. Once freed it leads nowhere, unless its slot has
      since been freed a multiple of 2^32 times in all and is taken again. */
  lemma FindIssued<T>(slots: seq<Slot<T>>, frees: seq<nat>, issued: seq<Issue<T>>, k: nat)
    requires Kept(slots, frees, issued) && k < |issued|
    ensures issued[k].index < WORD
    ensures Live(frees, issued[k]) ==> Find(slots, issued[k].Token()) == Some(issued[k].task)
    ensures !Live(frees, issued[k]) ==>
              (Find(slots, issued[k].Token()).Some?
               <==> (frees[issued[k].index] - issued[k].stamp) % WORD == 0 && slots[issued[k].index].task.Some?)
    ensures !Live(frees, issued[k]) && frees[issued[k].index] < WORD - 1 ==>
              Find(slots, issued[k].Token()) == None
  {
    var s := issued[k];
    assert Past(slots, frees, s);
    DecodeEncode(s.index, Stamped(s.stamp));
    SameGeneration(s.stamp, frees[s.index]);
  }

  /** Live tokens differ from one another, and from 0 as long as slot 0 has not wrapped. */
  lemma LiveTokensDiffer<T>(slots: seq<Slot<T>>, frees: seq<nat>, issued: seq<Issue<T>>, j: nat, k: nat)
    requires Kept(slots, frees, issued) && j < k < |issued| && Live(frees, issued[j])
    requires Live(frees, issued[k])
    ensures issued[j].index < WORD && issued[k].index < WORD && issued[j].Token() != issued[k].Token()
  {
    assert Past(slots, frees, issued[j]) && Past(slots, frees, issued[k]);
    DecodeEncode(issued[j].index, Stamped(issued[j].stamp));
    DecodeEncode(issued[k].index, Stamped(issued[k].stamp));
  }

  lemma TokenIsZeroIff<T>(s: Issue<T>)
    requires s.index < WORD
    ensures s.Token() == 0 <==> s.index == 0 && (1 + s.stamp) % WORD == 0
  {
    DecodeEncode(s.index, Stamped(s.stamp));
  }

  lemma KeptGrow<T>(slots: seq<Slot<T>>, frees: seq<nat>, issued: seq<Issue<T>>, n: nat)
    requires Kept(slots, frees, issued) && |slots| + n <= WORD
    ensures Kept(slots + seq(n, _ => Slot(None, 1)), frees + seq(n, _ => 0), issued)
  {
    var slots', frees' := slots + seq(n, _ => Slot(None, 1)), frees + seq(n, _ => 0);
    forall k | 0 <= k < |issued| ensures Past(slots', frees', issued[k]) { assert Past(slots, frees, issued[k]); }
    forall i | |slots| <= i < |slots'| ensures CountOf(issued, i) == 0 {
      assert forall k :: 0 <= k < |issued| ==> Past(slots, frees, issued[k]);
      CountNone(issued, i);
    }
  }

  lemma KeptAlloc<T>(slots: seq<Slot<T>>, frees: seq<nat>, issued: seq<Issue<T>>, i: nat, task: T)
    requires Kept(slots, frees, issued) && i < |slots| && slots[i].task.None?
    ensures Kept(slots[i := slots[i].(task := Some(task))], frees, issued + [Issue(i, frees[i], task)])
  {
    var slots', issued' := slots[i := slots[i].(task := Some(task))], issued + [Issue(i, frees[i], task)];
    forall k | 0 <= k < |issued'| ensures Past(slots', frees, issued'[k]) {
      if k < |issued| { assert Past(slots, frees, issued[k]); }
    }
    forall j, k | 0 <= j < k < |issued'|
      ensures issued'[j].index != issued'[k].index || issued'[j].stamp != issued'[k].stamp
    {
      assert Past(slots, frees, issued[j]);
    }
    forall x | 0 <= x < |slots'| && slots'[x].task.Some? ensures Issue(x, frees[x], slots'[x].task.value) in issued' {
      if x == i { assert issued'[|issued|] == Issue(i, frees[i], task); }
    }
    forall x | 0 <= x < |slots'| ensures CountOf(issued', x) == frees[x] + if slots'[x].task.Some? then 1 else 0 {
      CountMore(issued, Issue(i, frees[i], task), x);
    }
  }

  lemma KeptFree<T>(slots: seq<Slot<T>>, frees: seq<nat>, issued: seq<Issue<T>>, i: nat)
    requires Kept(slots, frees, issued) && i < |slots| && slots[i].task.Some?
    ensures Kept(slots[i := Slot(None, (slots[i].generation + 1) % WORD)], frees[i := frees[i] + 1], issued)
  {
    var slots', frees' := slots[i := Slot(None, (slots[i].generation + 1) % WORD)], frees[i := frees[i] + 1];
    NextStamp(frees[i]);
    hide Stamped, CountOf;
    forall k | 0 <= k < |issued| ensures Past(slots', frees', issued[k]) { assert Past(slots, frees, issued[k]); }
  }

  /** An io operation: it holds the token of its slot while armed, 0 otherwise. */
  class Utask {
    var slotData: nat
    var completed: bool
    var value: int
    var userWork: bool
    var userIoCounted: bool
    // a coroutine is suspended on it
    var awaited: bool

    constructor ()
      ensures slotData == 0 && !completed && userWork && !userIoCounted && awaited
    {
      slotData, completed, value, userWork, userIoCounted, awaited := 0, false, 0, true, false, true;
    }
  }

  class SlotTable {
    var slots: seq<Slot<Utask>>
    var freeList: seq<nat>
    // how often each slot has been freed, and every allocation ever made
    ghost var frees: seq<nat>
    ghost var issued: seq<Issue<Utask>>

    ghost predicate Valid()
      reads this
    {
      Kept(slots, frees, issued) && FreeListOk(slots, freeList)
    }

    constructor (capacity: nat)
      requires 0 < capacity <= WORD
      ensures Valid() && issued == [] && |slots| == capacity
      ensures forall i :: 0 <= i < |slots| ==> slots[i] == Slot(None, 1)
    {
      slots := seq(capacity, _ => Slot(None, 1));
      freeList := seq(capacity, i => i);
      frees, issued := seq(capacity, _ => 0), [];
      new;
      forall i | 0 <= i < capacity ensures i in freeList { assert freeList[i] == i; }
    }

    /** Doubles the table; the new slots go on the free list. */
    method Grow()
      requires Valid() && freeList == [] && 2 * |slots| <= WORD
      modifies this
      ensures Valid() && issued == old(issued) && freeList != [] && freeList[|freeList| - 1] > 0
      ensures |frees| == 2 * |old(frees)| && frees[..|old(frees)|] == old(frees)
      ensures |slots| == 2 * |old(slots)| && slots[..|old(slots)|] == old(slots)
      ensures forall i :: |old(slots)| <= i < |slots| ==> slots[i].task == None
    {
      var n := |slots|;
      KeptGrow(slots, frees, issued, n);
      hide Kept;
      slots := slots + seq(n, _ => Slot(None, 1));
      frees := frees + seq(n, _ => 0);
      freeList := seq(n, i requires 0 <= i => n + i);
      forall i | 0 <= i < |slots| && slots[i].task.None? ensures i in freeList {
        if i >= n { assert freeList[i - n] == i; }
      }
    }

    /** A slot for `task`. The token is new, and names the allocation just made. */
    method Alloc(task: Utask) returns (token: nat)
      requires Valid() && (freeList == [] ==> 2 * |slots| <= WORD)
      modifies this
      ensures Valid() && |issued| == |old(issued)| + 1 && issued[..|old(issued)|] == old(issued)
      ensures var s := issued[|old(issued)|];
              && s.task == task && s.index < |slots| && s.index < WORD && s.stamp == frees[s.index]
              && token == s.Token()
              && slots[s.index].task == Some(task) && slots[s.index].generation == Stamped(s.stamp)
              && (s.index < |old(slots)| ==> old(slots)[s.index].task == None)
              && (s.index == 0 <==> old(freeList) != [] && old(freeList)[|old(freeList)| - 1] == 0)
              && forall i :: 0 <= i < |slots| && i != s.index ==>
                   slots[i].task == if i < |old(slots)| then old(slots)[i].task else None
      ensures |slots| >= |old(slots)| && |frees| == |slots|
      ensures forall i :: 0 <= i < |old(frees)| ==> frees[i] == old(frees)[i]
      ensures forall i :: 0 <= i < |old(slots)| ==> slots[i].generation == old(slots)[i].generation
    {
      hide Kept, FreeListOk, Encode;
      if freeList == [] { Grow(); }
      token := Take(task);
      KeptFacts(slots, frees, issued);
    }

    method Take(task: Utask) returns (token: nat)
      requires Valid() && freeList != []
      modifies this
      ensures Valid() && |issued| == |old(issued)| + 1 && issued[..|old(issued)|] == old(issued) && frees == old(frees)
      ensures var s := issued[|old(issued)|];
              && s.task == task && s.index < |slots| <= WORD && |frees| == |slots| && s.stamp == frees[s.index]
              && token == s.Token()
              && old(freeList) != [] && s.index == old(freeList)[|old(freeList)| - 1] && |slots| == |old(slots)|
              && slots == old(slots)[s.index := old(slots)[s.index].(task := Some(task))]
              && old(slots)[s.index].task == None
    {
      var idx := freeList[|freeList| - 1];
      KeptAlloc(slots, frees, issued, idx, task);
      TakeLast(slots, freeList, task);
      assert slots[idx].generation == Stamped(frees[idx]);
      hide Kept;
      freeList := freeList[..|freeList| - 1];
      issued := issued + [Issue(idx, frees[idx], task)];
      slots := slots[idx := slots[idx].(task := Some(task))];
      token := Encode(idx, slots[idx].generation);
    }

    /** Frees the slot of a live token; the token is stale from then on. */
    method Free(token: nat)
      requires Valid() && IndexOf(token) < |slots| && slots[IndexOf(token)].task.Some?
      modifies this
      ensures var idx := IndexOf(token);
              && slots == old(slots)[idx := Slot(None, (old(slots)[idx].generation + 1) % WORD)]
              && |frees| == |old(frees)| && idx < |frees| && frees == old(frees)[idx := old(frees)[idx] + 1]
      ensures Valid() && issued == old(issued)
    {
      var idx := IndexOf(token);
      KeptFree(slots, frees, issued, idx);
      PutBack(slots, freeList, idx);
      assert idx < |frees|;
      hide Kept;
      slots := slots[idx := Slot(None, (slots[idx].generation + 1) % WORD)];
      freeList := freeList + [idx];
      frees := frees[idx := frees[idx] + 1];
    }

    method Lookup(token: nat) returns (task: Option<Utask>)
      requires Valid()
      ensures task == Find(slots, token)
    {
      var idx, gen := IndexOf(token), GenerationOf(token);
      if idx >= |slots| { return None; }
      var slot := slots[idx];
      if slot.generation != gen { return None; }
      return slot.task;
    }

    /** The tokens of all occupied slots, each once. */
    method ForEachActive() returns (tokens: seq<nat>)
      requires Valid()
      ensures forall i :: 0 <= i < |slots| && slots[i].task.Some? ==>
                i < WORD && slots[i].generation < WORD && Encode(i, slots[i].generation) in tokens
      ensures forall k :: 0 <= k < |tokens| ==> Find(slots, tokens[k]).Some?
      ensures forall j, k :: 0 <= j < k < |tokens| ==> IndexOf(tokens[j]) < IndexOf(tokens[k])
    {
      hide Encode, IndexOf, GenerationOf, Kept, FreeListOk, Find;
      KeptFacts(slots, frees, issued);
      tokens := [];
      for i := 0 to |slots|
        invariant forall x :: 0 <= x < i && slots[x].task.Some? ==>
                  slots[x].generation < WORD && Encode(x, slots[x].generation) in tokens
        invariant forall k :: 0 <= k < |tokens| ==> Find(slots, tokens[k]).Some? && IndexOf(tokens[k]) < i
        invariant forall j, k :: 0 <= j < k < |tokens| ==> IndexOf(tokens[j]) < IndexOf(tokens[k])
      {
        if slots[i].task.Some? {
          FindOwn(slots, i);
          tokens := tokens + [Encode(i, slots[i].generation)];
        }
      }
    }
  }

  lemma PutBack<T>(slots: seq<Slot<T>>, free: seq<nat>, idx: nat)
    requires FreeListOk(slots, free) && idx < |slots| && slots[idx].task.Some?
    ensures FreeListOk(slots[idx := Slot(None, (slots[idx].generation + 1) % WORD)], free + [idx])
  {
    var slots', free' := slots[idx := Slot(None, (slots[idx].generation + 1) % WORD)], free + [idx];
    forall i | 0 <= i < |slots'| && slots'[i].task.None? ensures i in free' {
      if i == idx { assert free'[|free|] == idx; } else { assert i in free; }
    }
  }

  lemma FindOwn<T>(slots: seq<Slot<T>>, i: nat)
    requires i < |slots| <= WORD && slots[i].generation < WORD
    ensures var t := Encode(i, slots[i].generation); IndexOf(t) == i && Find(slots, t) == slots[i].task
  {
    DecodeEncode(i, slots[i].generation);
  }

  lemma KeptFacts<T>(slots: seq<Slot<T>>, frees: seq<nat>, issued: seq<Issue<T>>)
    requires Kept(slots, frees, issued)
    ensures 0 < |slots| <= WORD && |frees| == |slots|
    ensures forall i :: 0 <= i < |slots| ==> slots[i].generation == Stamped(frees[i])
  {
  }

  lemma TakeLast<T>(slots: seq<Slot<T>>, free: seq<nat>, task: T)
    requires FreeListOk(slots, free) && free != []
    ensures var idx := free[|free| - 1];
            idx < |slots| && FreeListOk(slots[idx := slots[idx].(task := Some(task))], free[..|free| - 1])
  {
    var idx := free[|free| - 1];
    var slots' := slots[idx := slots[idx].(task := Some(task))];
    forall i | 0 <= i < |slots'| && slots'[i].task.None? ensures i in free[..|free| - 1] {
      var k :| 0 <= k < |free| && free[k] == i;
      assert k < |free| - 1 && free[..|free| - 1][k] == i;
    }
  }

  // ------------------------------------------------------------------ the ops

  /** Where the ops of one context meet their slots. */
  class Ring {
    const table: SlotTable
    // user io in flight, as the drain logic counts it
    var userIo: nat
    // ops whose coroutines are to run, in that order
    var spawned: seq<Utask>

    constructor (table: SlotTable)
      requires table.Valid() && forall i :: 0 <= i < |table.slots| ==> table.slots[i].task == None
      ensures this.table == table && userIo == 0 && spawned == [] && Owned({})
    {
      this.table, userIo, spawned := table, 0, [];
    }

    ghost function Tokens(ops: set<Utask>): map<Utask, nat>
      reads ops`slotData
    {
      map u | u in ops :: u.slotData
    }

    ghost function Counted(ops: set<Utask>): set<Utask>
      reads ops`userIoCounted
    {
      set u | u in ops && u.userIoCounted
    }

    ghost predicate Owned(ops: set<Utask>)
      reads this, table, ops
    {
      && table.Valid() && Matched(table.slots, Tokens(ops))
      && userIo == |Counted(ops)| && forall u :: u in Counted(ops) ==> u.slotData != 0
    }

    /** A new op, not armed. */
    ghost method Adopt(u: Utask, ops: set<Utask>)
      requires Owned(ops) && u !in ops && u.slotData == 0 && !u.userIoCounted
      ensures Owned(ops + {u})
    {
      hide Kept, FreeListOk, Matched;
      MatchedNew(table.slots, Tokens(ops), u);
      assert Tokens(ops + {u}) == Tokens(ops)[u := 0];
      assert Counted(ops + {u}) == Counted(ops);
    }

    /** The next slot to be taken is slot 0, with its generation wrapped to 0. */
    predicate Spent()
      reads table
    {
      && table.freeList != [] && table.freeList[|table.freeList| - 1] == 0 && |table.slots| > 0
      && table.slots[0].generation == 0
    }

    /** The op gets a slot, and the slots and the tokens match unless that slot is spent. */
    method TakeSlot(u: Utask, ghost ops: set<Utask>)
      requires table.Valid() && Matched(table.slots, Tokens(ops)) && u in ops && u.slotData == 0
      requires table.freeList == [] ==> 2 * |table.slots| <= WORD
      modifies table, u`slotData
      ensures table.Valid()
      ensures Matched(table.slots, Tokens(ops)) <==> !old(Spent())
      ensures u.slotData != 0 <==> !old(Spent())
    {
      hide Kept, FreeListOk, Encode, IndexOf, Matched;
      ghost var tokens := Tokens(ops);
      KeptFacts(table.slots, table.frees, table.issued);
      u.slotData := table.Alloc(u);
      KeptFacts(table.slots, table.frees, table.issued);
      ghost var s := table.issued[|old(table.issued)|];
      Named(s);
      assert Tokens(ops) == tokens[u := u.slotData];
      if old(Spent()) {
        MatchedNot(table.slots, Tokens(ops), u, s.index);
      } else {
        MatchedAlloc(old(table.slots), table.slots, tokens, u, s.index);
      }
    }

    /** The op is armed: it gets a slot, and counts as user work if it is any. The books are right
        if and only if the slot is not spent: else the token is 0, which means "no slot". */
    method PrepareInto(u: Utask, ghost ops: set<Utask>)
      requires Owned(ops) && u in ops && u.slotData == 0
      requires table.freeList == [] ==> 2 * |table.slots| <= WORD
      modifies `userIo, table, u`slotData, u`userIoCounted
      ensures u.userIoCounted == u.userWork
      ensures Owned(ops) <==> !old(Spent())
      ensures u.slotData != 0 <==> !old(Spent())
    {
      hide Kept, FreeListOk, Matched;
      assert u !in Counted(ops);
      TakeSlot(u, ops);
      ghost var tokens := Tokens(ops);
      if u.userWork && !u.userIoCounted {
        userIo := userIo + 1;
        u.userIoCounted := true;
        assert Counted(ops) == old(Counted(ops)) + {u};
      } else {
        assert Counted(ops) == old(Counted(ops));
      }
      assert Tokens(ops) == tokens;
    }

    /** The slot goes back, once: the op forgets its token. */
    method Release(u: Utask, ghost ops: set<Utask>)
      requires Owned(ops) && u in ops && u.slotData != 0 && u !in Counted(ops)
      modifies table, u`slotData
      ensures Owned(ops) && u.slotData == 0 && table.issued == old(table.issued)
      ensures var i := IndexOf(old(u.slotData));
              i < |old(table.frees)| && table.frees == old(table.frees)[i := old(table.frees)[i] + 1]
    {
      hide Kept, FreeListOk, Encode, IndexOf, Matched;
      ghost var tokens := Tokens(ops);
      KeptFacts(table.slots, table.frees, table.issued);
      MatchedHolds(table.slots, tokens, u);
      table.Free(u.slotData);
      u.slotData := 0;
      MatchedFree(old(table.slots), tokens, u);
      assert Tokens(ops) == tokens[u := 0] && Counted(ops) == old(Counted(ops));
    }

    method Uncount(u: Utask, ghost ops: set<Utask>)
      requires Owned(ops) && u in ops
      modifies `userIo, u`userIoCounted
      ensures Owned(ops) && !u.userIoCounted
    {
      hide Kept, FreeListOk, Matched;
      if u.userIoCounted {
        assert u in Counted(ops);
        userIo := userIo - 1;
        u.userIoCounted := false;
        assert Counted(ops) == old(Counted(ops)) - {u};
      }
      assert Tokens(ops) == old(Tokens(ops));
    }

    /** The completion of an armed op. */
    method Complete(u: Utask, res: int, ghost ops: set<Utask>)
      requires Owned(ops) && u in ops && u.slotData != 0
      modifies `userIo, `spawned, table, u`slotData, u`userIoCounted, u`value, u`completed
      ensures spawned == if u.awaited then old(spawned) + [u] else old(spawned)
      ensures Owned(ops) && u.slotData == 0 && u.completed && u.value == res && !u.userIoCounted
      ensures table.issued == old(table.issued)
      ensures var i := IndexOf(old(u.slotData));
              i < |old(table.frees)| && table.frees == old(table.frees)[i := old(table.frees)[i] + 1]
    {
      hide Kept, FreeListOk, Matched, IndexOf;
      Uncount(u, ops);
      Release(u, ops);
      ghost var tokens, counted := Tokens(ops), Counted(ops);
      u.value, u.completed := res, true;
      if u.awaited { spawned := spawned + [u]; }
      assert Tokens(ops) == tokens && Counted(ops) == counted;
    }

    /** The destructor: an op abandoned while armed gives back its slot; any other gives back
        nothing. */
    method Destroy(u: Utask, ghost ops: set<Utask>)
      requires Owned(ops) && u in ops
      modifies `userIo, table, u`slotData, u`userIoCounted
      ensures Owned(ops - {u}) && u.slotData == 0 && table.issued == old(table.issued)
      ensures old(u.slotData) == 0 ==> table.frees == old(table.frees)
      ensures old(u.slotData) != 0 ==>
                var i := IndexOf(old(u.slotData));
                i < |old(table.frees)| && table.frees == old(table.frees)[i := old(table.frees)[i] + 1]
    {
      hide Kept, FreeListOk, Matched, IndexOf;
      Uncount(u, ops);
      if u.slotData != 0 { Release(u, ops); }
      MatchedGone(table.slots, Tokens(ops), u);
      assert Tokens(ops - {u}) == Tokens(ops) - {u} && Counted(ops - {u}) == Counted(ops);
    }

    /** The move constructor. The token and the count change hands, but the slot goes on naming the
        old object: the books stay right if and only if the op was not armed. */
    method Move(from: Utask, to: Utask, ghost ops: set<Utask>)
      requires Owned(ops) && from in ops && to !in ops
      modifies from, to
      ensures to.slotData == old(from.slotData) && from.slotData == 0 && to.userIoCounted == old(from.userIoCounted)
      ensures !from.userIoCounted
      ensures to.completed == old(from.completed) && to.value == old(from.value) && to.userWork == old(from.userWork)
      ensures to.awaited == old(from.awaited)
      ensures Owned(ops + {to}) <==> old(from.slotData) == 0
      ensures old(from.slotData) != 0 ==> Find(table.slots, to.slotData) == Some(from)
    {
      hide Kept, FreeListOk, Encode, IndexOf, Matched, Find;
      KeptFacts(table.slots, table.frees, table.issued);
      if from.slotData != 0 { MatchedMoved(table.slots, Tokens(ops), from, to); }
      MatchedNew(table.slots, Tokens(ops), to);
      assert from.slotData == 0 ==> !from.userIoCounted by { if from.userIoCounted { assert from in Counted(ops); } }
      Transfer(from, to);
      assert Tokens(ops + {to}) == old(Tokens(ops))[to := to.slotData][from := 0];
      if to.slotData == 0 {
        assert Counted(ops + {to}) == old(Counted(ops));
        assert Tokens(ops + {to}) == old(Tokens(ops))[to := 0];
      }
    }

    static method Transfer(from: Utask, to: Utask)
      requires from != to
      modifies from, to
      ensures to.slotData == old(from.slotData) && from.slotData == 0 && to.userIoCounted == old(from.userIoCounted)
      ensures !from.userIoCounted
      ensures to.completed == old(from.completed) && to.value == old(from.value) && to.userWork == old(from.userWork)
      ensures to.awaited == old(from.awaited)
    {
      to.slotData, to.completed, to.value, to.userWork := from.slotData, from.completed, from.value, from.userWork;
      to.userIoCounted, to.awaited := from.userIoCounted, from.awaited;
      from.userIoCounted := false;
      from.slotData := 0;
    }

    /** A completion from the kernel: dispatched to the op that holds the token, ignored if the
        token is stale or names no op. */
    method Process(data: nat, res: int, ghost ops: set<Utask>) returns (dispatched: Option<Utask>)
      requires Owned(ops)
      modifies `userIo, `spawned, table, ops`slotData, ops`userIoCounted, ops`value, ops`completed
      ensures Owned(ops) && dispatched == (if data == 0 then None else old(Find(table.slots, data)))
      ensures dispatched.Some? ==>
                var u, i := dispatched.value, IndexOf(data);
                && u in ops && old(u.slotData) == data % (WORD * WORD) && u.slotData == 0 && u.completed
                && u.value == res && !u.userIoCounted && i < |old(table.frees)|
                && table.frees == old(table.frees)[i := old(table.frees)[i] + 1] && table.issued == old(table.issued)
      ensures dispatched.None? ==> unchanged(table) && userIo == old(userIo)
      ensures spawned == old(spawned) + if dispatched.Some? && dispatched.value.awaited then [dispatched.value] else []
      ensures forall u :: u in ops && Some(u) != dispatched ==>
                && u.slotData == old(u.slotData) && u.completed == old(u.completed) && u.value == old(u.value)
                && u.userIoCounted == old(u.userIoCounted)
    {
      hide Kept, FreeListOk, Encode, IndexOf, Matched, Find;
      if data == 0 { return None; }
      dispatched := table.Lookup(data);
      if dispatched.Some? {
        KeptFacts(table.slots, table.frees, table.issued);
        MatchedFind(table.slots, Tokens(ops), data);
        Complete(dispatched.value, res, ops);
      }
    }

    /** Any run of ops being armed, completed by the kernel (with any token, stale or made up)
        and destroyed, with no op armed on a spent slot: the slots in use are those of the armed
        ops, one each, every armed op is found by its token, and the count of user io in flight
        is right. */
    method Drive(us: seq<Utask>) returns (alive: set<Utask>)
      requires Owned(set u | u in us)
      modifies `userIo, `spawned, table, us
      ensures alive <= (set u | u in us) && Owned(alive) && userIo == |set u | u in alive && u.userIoCounted|
      ensures forall u :: u in alive && u.slotData != 0 ==> Find(table.slots, u.slotData) == Some(u)
      ensures forall i :: 0 <= i < |table.slots| && table.slots[i].task.Some? ==>
                table.slots[i].task.value in alive && IndexOf(table.slots[i].task.value.slotData) == i
    {
      hide Owned, Spent, Kept, FreeListOk, Encode, IndexOf, Find;
      alive := set u | u in us;
      var turns: nat := *;
      while turns > 0
        invariant alive <= (set u | u in us) && Owned(alive)
      {
        turns := turns - 1;
        var k: nat, arm: bool, data: nat, res: int := *, *, *, *;
        if k >= |us| || us[k] !in alive {
          var to := Process(data, res, alive);
        } else if !arm {
          Destroy(us[k], alive);
          alive := alive - {us[k]};
        } else if us[k].slotData == 0 && !Spent() && (table.freeList == [] ==> 2 * |table.slots| <= WORD) {
          PrepareInto(us[k], alive);
        }
      }
      Pointing(alive);
    }

    lemma Pointing(ops: set<Utask>)
      requires Owned(ops)
      ensures userIo == |Counted(ops)|
      ensures forall u :: u in ops && u.slotData != 0 ==> Find(table.slots, u.slotData) == Some(u)
      ensures forall i :: 0 <= i < |table.slots| && table.slots[i].task.Some? ==>
                table.slots[i].task.value in ops && IndexOf(table.slots[i].task.value.slotData) == i
    {
      ghost var tokens := Tokens(ops);
      forall u | u in ops && u.slotData != 0 ensures Find(table.slots, u.slotData) == Some(u) {
        MatchedHolds(table.slots, tokens, u);
        var i := IndexOf(tokens[u]);
        FindOwn(table.slots, i);
      }
    }
  }

  /** A completion for an op that was moved while armed goes to the object it left. */
  method MovedWhileArmed() returns (r: Ring, from: Utask, to: Utask)
    ensures fresh(r) && from != to && to.slotData != 0 && !r.Owned({from, to})
    ensures Find(r.table.slots, to.slotData) == Some(from)
  {
    hide Kept, FreeListOk, Encode, IndexOf, Find, Matched;
    var t := new SlotTable(1);
    r := new Ring(t);
    from := new Utask();
    to := new Utask();
    r.Adopt(from, {});
    assert {} + {from} == {from};
    r.PrepareInto(from, {from});
    r.Move(from, to, {from});
    assert {from} + {to} == {from, to};
  }

  /** A spent slot can be reached: one slot taken and freed again and again. */
  lemma {:induction false} Worn<T>(task: T, n: nat) returns (issued: seq<Issue<T>>)
    ensures Kept([Slot(None, Stamped(n))], [n], issued) && FreeListOk([Slot<T>.Slot(None, Stamped(n))], [0])
    ensures n == WORD - 1 ==> Stamped(n) == 0
  {
    hide Kept, FreeListOk, Stamped;
    NewSlot<T>(n);
    if n == 0 {
      issued := [];
    } else {
      var before := Worn(task, n - 1);
      var slots := [Slot(None, Stamped(n - 1))];
      KeptFacts(slots, [n - 1], before);
      KeptAlloc(slots, [n - 1], before, 0, task);
      issued := before + [Issue(0, n - 1, task)];
      NextStamp(n - 1);
      var taken := slots[0 := slots[0].(task := Some(task))];
      KeptFree(taken, [n - 1], issued, 0);
      assert taken[0 := Slot(None, Stamped(n))] == [Slot(None, Stamped(n))] && [n - 1][0 := n] == [n];
    }
  }

  lemma NewSlot<T>(n: nat)
    ensures FreeListOk([Slot<T>.Slot(None, Stamped(n))], [0]) && (n == WORD - 1 ==> Stamped(n) == 0)
    ensures n == 0 ==> Kept([Slot<T>.Slot(None, Stamped(n))], [n], [])
  {
  }

  // ------------------------------------------- slots and ops point at each other

  /** An op holds a token exactly while a slot names it, and that slot is the one the token names. */
  ghost predicate Matched(slots: seq<Slot<Utask>>, tokens: map<Utask, nat>) {
    && (forall u :: u in tokens && tokens[u] != 0 ==> Holds(slots, u, tokens[u]))
    && (forall i :: 0 <= i < |slots| && slots[i].task.Some? ==>
          && slots[i].task.value in tokens && tokens[slots[i].task.value] != 0
          && IndexOf(tokens[slots[i].task.value]) == i)
  }

  ghost predicate Holds(slots: seq<Slot<Utask>>, u: Utask, token: nat) {
    var i := IndexOf(token);
    && i < |slots| && i < WORD && slots[i].task == Some(u) && slots[i].generation < WORD
    && token == Encode(i, slots[i].generation)
  }

  lemma MatchedNew(slots: seq<Slot<Utask>>, tokens: map<Utask, nat>, u: Utask)
    requires Matched(slots, tokens) && u !in tokens
    ensures Matched(slots, tokens[u := 0])
  {
    hide Encode, IndexOf;
  }

  lemma MatchedGone(slots: seq<Slot<Utask>>, tokens: map<Utask, nat>, u: Utask)
    requires Matched(slots, tokens) && u in tokens && tokens[u] == 0
    ensures Matched(slots, tokens - {u})
  {
    hide Encode, IndexOf;
  }

  lemma MatchedMoved(slots: seq<Slot<Utask>>, tokens: map<Utask, nat>, u: Utask, v: Utask)
    requires Matched(slots, tokens) && u in tokens && tokens[u] != 0 && v !in tokens && |slots| <= WORD
    ensures Find(slots, tokens[u]) == Some(u) && !Matched(slots, tokens[v := tokens[u]][u := 0])
  {
    assert Holds(slots, u, tokens[u]);
    FindOwn(slots, IndexOf(tokens[u]));
  }

  /** A slot that names an op without a token. */
  lemma MatchedNot(slots: seq<Slot<Utask>>, tokens: map<Utask, nat>, u: Utask, i: nat)
    requires u in tokens && tokens[u] == 0 && i < |slots| && slots[i].task == Some(u)
    ensures !Matched(slots, tokens)
  {
  }

  lemma MatchedHolds(slots: seq<Slot<Utask>>, tokens: map<Utask, nat>, u: Utask)
    requires Matched(slots, tokens) && u in tokens && tokens[u] != 0
    ensures Holds(slots, u, tokens[u])
  {
  }

  lemma MatchedAlloc(slots: seq<Slot<Utask>>, slots': seq<Slot<Utask>>, tokens: map<Utask, nat>, u: Utask, i: nat)
    requires Matched(slots, tokens) && u in tokens && tokens[u] == 0 && i < |slots'| <= WORD && |slots| <= |slots'|
    requires slots'[i].task == Some(u) && slots'[i].generation < WORD && (i < |slots| ==> slots[i].task == None)
    requires forall x :: 0 <= x < |slots'| && x != i ==> slots'[x].task == if x < |slots| then slots[x].task else None
    requires forall x :: 0 <= x < |slots| ==> slots'[x].generation == slots[x].generation
    requires var t := Encode(i, slots'[i].generation); IndexOf(t) == i && t != 0
    ensures Matched(slots', tokens[u := Encode(i, slots'[i].generation)])
  {
    hide Encode, IndexOf;
    var tokens' := tokens[u := Encode(i, slots'[i].generation)];
    forall v | v in tokens' && tokens'[v] != 0 ensures Holds(slots', v, tokens'[v]) {
      if v != u { assert Holds(slots, v, tokens[v]); }
    }
  }

  lemma MatchedFree(slots: seq<Slot<Utask>>, tokens: map<Utask, nat>, u: Utask)
    requires Matched(slots, tokens) && u in tokens && tokens[u] != 0 && IndexOf(tokens[u]) < |slots|
    ensures var i := IndexOf(tokens[u]);
            Matched(slots[i := Slot(None, (slots[i].generation + 1) % WORD)], tokens[u := 0])
  {
    hide Encode, IndexOf;
    var i := IndexOf(tokens[u]);
    var slots', tokens' := slots[i := Slot(None, (slots[i].generation + 1) % WORD)], tokens[u := 0];
    assert Holds(slots, u, tokens[u]);
    forall v | v in tokens' && tokens'[v] != 0 ensures Holds(slots', v, tokens'[v]) {
      assert Holds(slots, v, tokens[v]);
    }
  }

  /** The op a live token leads to is the one that holds it. */
  lemma MatchedFind(slots: seq<Slot<Utask>>, tokens: map<Utask, nat>, data: nat)
    requires Matched(slots, tokens) && |slots| <= WORD && Find(slots, data).Some?
    ensures var u := Find(slots, data).value;
            u in tokens && tokens[u] != 0 && tokens[u] == data % (WORD * WORD) && IndexOf(tokens[u]) == IndexOf(data)
  {
    hide Encode, IndexOf, GenerationOf;
    var u := Find(slots, data).value;
    assert Holds(slots, u, tokens[u]);
    DecodedIsToken(data);
  }

  lemma DecodedIsToken(data: nat)
    ensures IndexOf(data) < WORD && GenerationOf(data) < WORD
    ensures Encode(IndexOf(data), GenerationOf(data)) == data % (WORD * WORD)
  {
  }

  lemma Named<T>(s: Issue<T>)
    requires s.index < WORD
    ensures s.Token() != 0 <==> s.index != 0 || Stamped(s.stamp) != 0
    ensures IndexOf(s.Token()) == s.index && s.Token() == Encode(s.index, Stamped(s.stamp))
  {
    DecodeEncode(s.index, Stamped(s.stamp));
  }
}
