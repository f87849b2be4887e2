/** The abstract value of an intrusive doubly linked list: its nodes in order, and where each
    one is. Linking or unlinking a node changes the neighbours' pointers and nobody else's. */
module Chains {
  import opened Optional

  /** A sequence of distinct nodes with the place of each. */
  datatype Order<T(==)> = Order(list: seq<T>, at: map<T, nat>) {

    ghost predicate Ok() {
      && (forall i :: 0 <= i < |list| ==> list[i] in at && at[list[i]] == i)
      && (forall n :: n in at ==> at[n] < |list| && list[at[n]] == n)
    }

    ghost function First(): Option<T> {
      if list == [] then None else Some(list[0])
    }

    ghost function Last(): Option<T> {
      if list == [] then None else Some(list[|list| - 1])
    }

    ghost function Prev(n: T): Option<T>
      requires Ok() && n in at
    {
      if at[n] == 0 then None else Some(list[at[n] - 1])
    }

    ghost function Next(n: T): Option<T>
      requires Ok() && n in at
    {
      if at[n] + 1 == |list| then None else Some(list[at[n] + 1])
    }

    ghost function Pushed(n: T): Order<T> {
      Order([n] + list, (map m | m in at :: at[m] + 1)[n := 0])
    }

    ghost function Cut(n: T): Order<T>
      requires Ok() && n in at
    {
      var k := at[n];
      Order(list[..k] + list[k + 1..], map m | m in at && m != n :: if at[m] <= k then at[m] else at[m] - 1)
    }

    lemma PushedOk(n: T)
      requires Ok() && n !in at
      ensures var o := Pushed(n);
              o.Ok() && o.at.Keys == at.Keys + {n} && o.First() == Some(n) && o.Prev(n) == None && o.Next(n) == First()
    {
    }

    lemma PushedLinks(n: T, m: T)
      requires Ok() && n !in at && m in at && Pushed(n).Ok()
      ensures var o := Pushed(n);
              m in o.at && o.Next(m) == Next(m) && o.Prev(m) == if Some(m) == First() then Some(n) else Prev(m)
    {
    }

    lemma CutOk(n: T)
      requires Ok() && n in at
      ensures var o := Cut(n);
              o.Ok() && o.at.Keys == at.Keys - {n} && o.First() == if Some(n) == First() then Next(n) else First()
    {
      var o, k := Cut(n), at[n];
      forall i | 0 <= i < |o.list| ensures o.list[i] in o.at && o.at[o.list[i]] == i {
        assert o.list[i] == list[if i < k then i else i + 1];
      }
    }

    lemma CutLinks(n: T, m: T)
      requires Ok() && n in at && m in at && m != n && Cut(n).Ok() && m in Cut(n).at
      ensures var o := Cut(n);
              && o.Prev(m) == (if Some(m) == Next(n) then Prev(n) else Prev(m))
              && o.Next(m) == (if Some(m) == Prev(n) then Next(n) else Next(m))
    {
      var k, i := at[n], at[m];
      assert list[i] == m && list[k] == n && i != k;
      assert Some(m) == Next(n) <==> i == k + 1;
      assert Some(m) == Prev(n) <==> i + 1 == k;
      if i < k { CutBefore(n, m); } else { CutBehind(n, m); }
    }

    lemma CutBefore(n: T, m: T)
      requires Ok() && n in at && m in at && at[m] < at[n] && Cut(n).Ok() && m in Cut(n).at
      ensures Cut(n).Prev(m) == Prev(m) && Cut(n).Next(m) == if at[m] + 1 == at[n] then Next(n) else Next(m)
    {
      var k, i := at[n], at[m];
      assert list[i] == m && list[k] == n && Cut(n).at[m] == i;
      assert i > 0 ==> Cut(n).list[i - 1] == list[i - 1];
      assert i + 1 < |list| - 1 ==> Cut(n).list[i + 1] == list[if i + 1 < k then i + 1 else i + 2];
    }

    lemma CutBehind(n: T, m: T)
      requires Ok() && n in at && m in at && at[m] > at[n] && Cut(n).Ok() && m in Cut(n).at
      ensures Cut(n).Next(m) == Next(m) && Cut(n).Prev(m) == if at[m] == at[n] + 1 then Prev(n) else Prev(m)
    {
      var k, i := at[n], at[m];
      assert list[i] == m && list[k] == n && Cut(n).at[m] == i - 1;
      assert i > 1 ==> Cut(n).list[i - 2] == list[if i - 2 < k then i - 2 else i - 1];
      assert i < |list| - 1 ==> Cut(n).list[i] == list[i + 1];
    }

    lemma Neighbours(n: T)
      requires Ok() && n in at
      ensures Prev(n).Some? ==> Prev(n).value in at && Prev(n).value != n && Prev(n) != Next(n)
      ensures Next(n).Some? ==> Next(n).value in at && Next(n).value != n
    {
      assert list[at[n]] == n;
    }

    /** Pushing on the front relinks only the old head. */
    lemma Pushing(n: T)
      requires Ok() && n !in at
      ensures var o := Pushed(n);
              && o.Ok() && o.at.Keys == at.Keys + {n} && o.First() == Some(n) && o.Prev(n) == None
              && o.Next(n) == First()
              && (First().Some? ==> First().value in at)
              && forall m :: m in at ==>
                   o.Next(m) == Next(m) && o.Prev(m) == if Some(m) == First() then Some(n) else Prev(m)
    {
      PushedOk(n);
      forall m | m in at
        ensures Pushed(n).Next(m) == Next(m) && Pushed(n).Prev(m) == if Some(m) == First() then Some(n) else Prev(m)
      {
        PushedLinks(n, m);
      }
    }

    lemma PushedKeys(n: T)
      requires Ok() && n !in at
      ensures Pushed(n).Ok() && Pushed(n).at.Keys == at.Keys + {n}
    {
      PushedOk(n);
    }

    lemma CutKeys(n: T)
      requires Ok() && n in at
      ensures Cut(n).Ok() && Cut(n).at.Keys == at.Keys - {n}
    {
      CutOk(n);
    }

    /** Taking a node out relinks only its neighbours. */
    lemma Cutting(n: T)
      requires Ok() && n in at
      ensures var o := Cut(n);
              && o.Ok() && o.at.Keys == at.Keys - {n} && o.First() == (if Some(n) == First() then Next(n) else First())
              && (Prev(n).None? <==> Some(n) == First()) && (Prev(n).Some? ==> Prev(n).value in o.at)
              && (Next(n).Some? ==> Next(n).value in o.at)
              && forall m :: m in o.at ==>
                   && o.Prev(m) == (if Some(m) == Next(n) then Prev(n) else Prev(m))
                   && o.Next(m) == (if Some(m) == Prev(n) then Next(n) else Next(m))
    {
      CutOk(n);
      forall m | m in Cut(n).at
        ensures Cut(n).Prev(m) == if Some(m) == Next(n) then Prev(n) else Prev(m)
        ensures Cut(n).Next(m) == if Some(m) == Prev(n) then Next(n) else Next(m)
      {
        CutLinks(n, m);
      }
    }

    // a list with both ends

    ghost function Appended(n: T): Order<T> {
      Order(list + [n], at[n := |list|])
    }

    lemma AppendedOk(n: T)
      requires Ok() && n !in at
      ensures var o := Appended(n);
              && o.Ok() && o.at.Keys == at.Keys + {n} && o.Last() == Some(n) && o.Prev(n) == Last() && o.Next(n) == None
              && o.First() == (if Last().None? then Some(n) else First()) && (Last().Some? ==> Last().value in at)
    {
    }

    lemma AppendedLinks(n: T, m: T)
      requires Ok() && n !in at && m in at && Appended(n).Ok() && m in Appended(n).at
      ensures Appended(n).Prev(m) == Prev(m) && Appended(n).Next(m) == if Some(m) == Last() then Some(n) else Next(m)
    {
      assert list[at[m]] == m;
    }

    /** Appending relinks only the old tail. */
    lemma Appending(n: T)
      requires Ok() && n !in at
      ensures var o := Appended(n);
              && o.Ok() && o.at.Keys == at.Keys + {n} && o.Last() == Some(n) && o.Prev(n) == Last() && o.Next(n) == None
              && o.First() == (if Last().None? then Some(n) else First()) && (Last().Some? ==> Last().value in at)
              && forall m :: m in at ==>
                   o.Prev(m) == Prev(m) && o.Next(m) == if Some(m) == Last() then Some(n) else Next(m)
    {
      AppendedOk(n);
      forall m | m in at
        ensures Appended(n).Prev(m) == Prev(m) && Appended(n).Next(m) == if Some(m) == Last() then Some(n) else Next(m)
      {
        AppendedLinks(n, m);
      }
    }

    lemma CutLast(n: T)
      requires Ok() && n in at
      ensures Cut(n).Last() == (if Next(n).None? then Prev(n) else Last()) && (Next(n).None? <==> Last() == Some(n))
    {
      assert list[at[n]] == n;
    }

    lemma CutFirst(n: T)
      requires Ok() && list != [] && n == list[0]
      ensures n in at && Cut(n).list == list[1..]
    {
    }

    // the part of the list a walk has still to visit

    ghost predicate EndsWith(rest: seq<T>) {
      |rest| <= |list| && list[|list| - |rest|..] == rest
    }

    /** `rest` once `n` is out of the list. */
    ghost function Trim(rest: seq<T>, n: T): seq<T>
      requires Ok() && EndsWith(rest) && n in at
    {
      var j := at[n] - (|list| - |rest|);
      if j < 0 then rest else rest[..j] + rest[j + 1..]
    }

    lemma RestOfPushed(n: T, rest: seq<T>)
      requires EndsWith(rest)
      ensures Pushed(n).EndsWith(rest)
    {
    }

    static lemma Without(s: seq<T>, k: nat, d: nat)
      requires k < |s| && d <= |s|
      ensures k < d ==> (s[..k] + s[k + 1..])[d - 1..] == s[d..]
      ensures k >= d ==> (s[..k] + s[k + 1..])[d..] == s[d..][..k - d] + s[d..][k - d + 1..]
    {
    }

    static lemma WithoutHas(s: seq<T>, j: nat, m: T)
      requires j < |s| && forall i :: 0 <= i < |s| && i != j ==> s[i] != s[j]
      ensures m in s[..j] + s[j + 1..] <==> m in s && m != s[j]
    {
      var r := s[..j] + s[j + 1..];
      if i :| 0 <= i < |s| && s[i] == m && i != j { assert r[if i < j then i else i - 1] == m; }
      if i :| 0 <= i < |r| && r[i] == m { assert s[if i < j then i else i + 1] == m; }
    }

    lemma TrimEnds(n: T, rest: seq<T>)
      requires Ok() && EndsWith(rest) && n in at
      ensures Cut(n).EndsWith(Trim(rest, n)) && |Trim(rest, n)| <= |rest|
    {
      assert list[at[n]] == n;
      Without(list, at[n], |list| - |rest|);
    }

    /** The rest is the list from some place on, and no two places hold the same. */
    lemma RestAt(rest: seq<T>, i: nat)
      requires Ok() && EndsWith(rest) && i < |rest|
      ensures rest[i] in at && at[rest[i]] == |list| - |rest| + i
    {
      assert rest[i] == list[|list| - |rest| + i];
    }

    lemma TrimHas(n: T, rest: seq<T>, m: T)
      requires Ok() && EndsWith(rest) && n in at
      ensures m in Trim(rest, n) <==> m in rest && m != n
    {
      var j := at[n] - (|list| - |rest|);
      assert list[at[n]] == n;
      forall i | 0 <= i < |rest| ensures rest[i] == n <==> i == j { RestAt(rest, i); }
      if j >= 0 { WithoutHas(rest, j, m); }
    }

    lemma RestOfCut(n: T, rest: seq<T>)
      requires Ok() && EndsWith(rest) && n in at
      ensures var r := Trim(rest, n);
              && Cut(n).EndsWith(r) && |r| <= |rest|
              && (forall m :: m in r <==> m in rest && m != n)
              && (forall i :: 0 <= i < |r| ==> r[i] in rest && r[i] != n)
              && (rest != [] && rest[0] == n ==> r == rest[1..])
              && (rest != [] && rest[0] != n ==> r != [] && r[0] == rest[0])
    {
      hide Ok, Cut, EndsWith, Trim;
      TrimEnds(n, rest);
      if rest != [] { TrimFirst(n, rest); }
      var r := Trim(rest, n);
      forall m ensures m in r <==> m in rest && m != n { TrimHas(n, rest, m); }
      forall i | 0 <= i < |r| ensures r[i] in rest && r[i] != n { TrimHas(n, rest, r[i]); }
    }

    lemma TrimFirst(n: T, rest: seq<T>)
      requires Ok() && EndsWith(rest) && n in at && rest != []
      ensures rest[0] == n ==> Trim(rest, n) == rest[1..]
      ensures rest[0] != n ==> Trim(rest, n) != [] && Trim(rest, n)[0] == rest[0]
    {
      assert list[at[n]] == n;
      RestAt(rest, 0);
    }

    /** The first node of the rest is followed by the rest of the rest. */
    lemma RestHead(rest: seq<T>)
      requires Ok() && EndsWith(rest) && rest != []
      ensures rest[0] in at && Next(rest[0]) == (if |rest| == 1 then None else Some(rest[1])) && rest[0] !in rest[1..]
      ensures EndsWith(rest[1..])
    {
      var d := |list| - |rest|;
      RestAt(rest, 0);
      if |rest| > 1 { RestAt(rest, 1); }
      forall i | 1 <= i < |rest| ensures rest[i] != rest[0] { RestAt(rest, i); }
      assert list[d + 1..] == rest[1..];
    }
  }

  // ------------------------------------------------------- one list in a heap of nodes

  datatype Pointers<T(==)> = Pointers(prev: Option<T>, next: Option<T>)

  /** The nodes of `o` are doubly linked in its order from `head`; every other node is detached. */
  ghost predicate Strung<T>(o: Order<T>, head: Option<T>, w: map<T, Pointers<T>>)
    ensures Strung(o, head, w) ==> o.Ok() && o.at.Keys <= w.Keys
  {
    && o.Ok() && head == o.First() && o.at.Keys <= w.Keys
    && (forall n :: n in o.at ==> w[n] == Pointers(o.Prev(n), o.Next(n)))
    && (forall n :: n in w && n !in o.at ==> w[n] == Pointers(None, None))
  }

  ghost function PushWires<T>(w: map<T, Pointers<T>>, head: Option<T>, n: T): map<T, Pointers<T>> {
    map m | m in w :: if m == n then Pointers(None, head) else if Some(m) == head then w[m].(prev := Some(n)) else w[m]
  }

  ghost function CutWires<T>(w: map<T, Pointers<T>>, n: T): map<T, Pointers<T>>
    requires n in w
  {
    map m | m in w ::
      if m == n then Pointers(None, None)
      else Pointers(if Some(m) == w[n].next then w[n].prev else w[m].prev,
                    if Some(m) == w[n].prev then w[n].next else w[m].next)
  }

  lemma StrungNew<T>(o: Order<T>, head: Option<T>, w: map<T, Pointers<T>>, n: T)
    requires Strung(o, head, w) && n !in w
    ensures n !in o.at && Strung(o, head, w[n := Pointers(None, None)])
  {
    hide Order.Ok, Order.Prev, Order.Next, Order.First;
  }

  lemma StrungWithout<T>(o: Order<T>, head: Option<T>, w: map<T, Pointers<T>>, n: T)
    requires Strung(o, head, w) && n !in o.at
    ensures Strung(o, head, w - {n})
  {
    hide Order.Ok, Order.Prev, Order.Next, Order.First;
  }

  lemma StrungPush<T>(o: Order<T>, head: Option<T>, w: map<T, Pointers<T>>, n: T)
    requires Strung(o, head, w) && n in w && n !in o.at
    ensures head.Some? ==> head.value in w && head.value != n
    ensures o.Pushed(n).at.Keys == o.at.Keys + {n}
    ensures Strung(o.Pushed(n), Some(n), PushWires(w, head, n))
  {
    hide Order.Ok, Order.Prev, Order.Next, Order.First, Order.Pushed;
    o.Pushing(n);
  }

  ghost function AppendWires<T>(w: map<T, Pointers<T>>, tail: Option<T>, n: T): map<T, Pointers<T>> {
    map m | m in w :: if m == n then Pointers(tail, None) else if Some(m) == tail then w[m].(next := Some(n)) else w[m]
  }

  lemma StrungAppend<T>(o: Order<T>, head: Option<T>, w: map<T, Pointers<T>>, n: T)
    requires Strung(o, head, w) && n in w && n !in o.at
    ensures o.Last().Some? ==> o.Last().value in w && o.Last().value != n
    ensures o.Appended(n).at.Keys == o.at.Keys + {n} && o.Appended(n).Last() == Some(n)
    ensures Strung(o.Appended(n), if o.Last().None? then Some(n) else head, AppendWires(w, o.Last(), n))
  {
    hide Order.Ok, Order.Prev, Order.Next, Order.First, Order.Last, Order.Appended;
    o.Appending(n);
  }

  lemma StrungCut<T>(o: Order<T>, head: Option<T>, w: map<T, Pointers<T>>, n: T)
    requires Strung(o, head, w) && n in o.at
    ensures w[n].prev.Some? ==> w[n].prev.value in w && w[n].prev.value != n
    ensures w[n].next.Some? ==> w[n].next.value in w && w[n].next.value != n
    ensures o.Cut(n).at.Keys == o.at.Keys - {n}
    ensures Strung(o.Cut(n), if w[n].prev.Some? then head else w[n].next, CutWires(w, n))
  {
    hide Order.Ok, Order.Prev, Order.Next, Order.First, Order.Cut;
    o.Cutting(n);
  }

  /** A node can tell by its own pointers and the head whether it is in the list. */
  lemma StrungMember<T>(o: Order<T>, head: Option<T>, w: map<T, Pointers<T>>, n: T)
    requires Strung(o, head, w) && n in w
    ensures n in o.at <==> w[n] != Pointers(None, None) || head == Some(n)
  {
    if n in o.at {
      assert o.list[o.at[n]] == n;
    } else if o.list != [] {
      assert o.list[0] in o.at;
    }
  }

  /** Walking along the next pointers visits the list in order. */
  lemma StrungRest<T>(o: Order<T>, head: Option<T>, w: map<T, Pointers<T>>, rest: seq<T>)
    requires Strung(o, head, w) && o.EndsWith(rest) && rest != []
    ensures rest[0] in o.at && w[rest[0]].next == (if |rest| == 1 then None else Some(rest[1]))
    ensures rest[0] !in rest[1..] && o.EndsWith(rest[1..])
  {
    o.RestHead(rest);
  }

  lemma StrungWhole<T>(o: Order<T>, head: Option<T>, w: map<T, Pointers<T>>)
    requires Strung(o, head, w)
    ensures o.EndsWith(o.list) && head == if o.list == [] then None else Some(o.list[0])
    ensures forall i :: 0 <= i < |o.list| ==> o.list[i] in w
    ensures forall n :: n in w && n !in o.list ==> w[n] == Pointers(None, None)
  {
    assert forall n :: n in o.at ==> o.list[o.at[n]] == n;
  }

  lemma StrungNone<T>(w: map<T, Pointers<T>>)
    requires forall n :: n in w ==> w[n] == Pointers(None, None)
    ensures Strung(Order([], map[]), None, w)
  {
  }

  /** The pointers half way through taking the list apart from the front. */
  ghost function Detaching<T>(w: map<T, Pointers<T>>, rest: seq<T>): map<T, Pointers<T>> {
    map n | n in w :: if n in rest then w[n] else Pointers(None, None)
  }

  lemma DetachNext<T>(w: map<T, Pointers<T>>, rest: seq<T>)
    requires rest != [] && rest[0] in w && rest[0] !in rest[1..]
    ensures Detaching(w, rest).Keys == w.Keys && Detaching(w, rest)[rest[0]] == w[rest[0]]
    ensures Detaching(w, rest)[rest[0] := Pointers(None, None)] == Detaching(w, rest[1..])
  {
    assert rest == [rest[0]] + rest[1..];
  }

  lemma DetachingStarts<T>(w: map<T, Pointers<T>>, list: seq<T>)
    requires forall n :: n in w && n !in list ==> w[n] == Pointers(None, None)
    ensures Detaching(w, list) == w
  {
  }

  lemma DetachingEnds<T>(w: map<T, Pointers<T>>)
    ensures forall n :: n in Detaching(w, []) ==> Detaching(w, [])[n] == Pointers(None, None)
  {
  }
}
