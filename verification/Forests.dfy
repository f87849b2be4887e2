/** Forests of nodes with ordered children, and the pre-order a pointer walk follows. */
module Forests {
  import opened Chains
  import opened Optional

  /** Each node's children in order, its parent, and how deep it is. */
  datatype Forest<T(==)> = Forest(kids: map<T, Order<T>>, up: map<T, Option<T>>, depth: map<T, nat>, limit: nat) {

    ghost predicate Ok()
      ensures Ok() ==> kids.Keys == up.Keys && kids.Keys == depth.Keys
    {
      && kids.Keys == up.Keys && kids.Keys == depth.Keys
      && (forall c {:trigger NodeOk(c)} :: c in kids ==> NodeOk(c))
    }

    ghost predicate NodeOk(c: T)
      requires c in kids && c in up && c in depth
    {
      && kids[c].Ok() && depth[c] <= limit
      && (forall k :: k in kids[c].at ==> k in up && up[k] == Some(c))
      && (up[c].Some? ==> ChildOf(up[c].value, c))
    }

    ghost predicate ChildOf(p: T, k: T) {
      p in kids && p in depth && k in depth && k in kids[p].at && depth[k] == depth[p] + 1
    }

    lemma Child(p: T, i: nat)
      requires Ok() && p in kids && i < |kids[p].list|
      ensures var k := kids[p].list[i];
              && k in kids && up[k] == Some(p) && depth[k] == depth[p] + 1 && k in kids[p].at && kids[p].at[k] == i
              && depth[k] <= limit
    {
      assert NodeOk(p);
      var k := kids[p].list[i];
      assert k in kids[p].at;
      assert NodeOk(k);
    }

    /** The neighbours of `c` among its parent's children; a root has none. */
    ghost function NextOf(c: T): Option<T>
      requires Ok() && c in kids
    {
      assert NodeOk(c);
      if up[c].None? then None
      else
        assert NodeOk(up[c].value);
        kids[up[c].value].Next(c)
    }

    ghost function PrevOf(c: T): Option<T>
      requires Ok() && c in kids
    {
      assert NodeOk(c);
      if up[c].None? then None
      else
        assert NodeOk(up[c].value);
        kids[up[c].value].Prev(c)
    }

    /** `c` joins as the first child of `p`. */
    ghost function Grown(p: T, c: T): Forest<T>
      requires p in kids && p in depth
    {
      var d := depth[p] + 1;
      Forest(kids[p := kids[p].Pushed(c)][c := Order([], map[])], up[c := Some(p)], depth[c := d],
             if d > limit then d else limit)
    }

    ghost function Planted(c: T): Forest<T> {
      Forest(kids[c := Order([], map[])], up[c := None], depth[c := 0], limit)
    }

    /** The leaf `c` leaves its parent. */
    ghost function Pruned(c: T): Forest<T>
      requires Ok() && c in kids
    {
      assert NodeOk(c);
      var rest :=
        if up[c].None? then kids
        else
          assert NodeOk(up[c].value);
          kids[up[c].value := kids[up[c].value].Cut(c)];
      Forest(rest - {c}, up - {c}, depth - {c}, limit)
    }

    lemma PlantedOk(c: T)
      requires Ok() && c !in kids
      ensures Planted(c).Ok()
    {
      var f := Planted(c);
      forall x | x in f.kids ensures f.NodeOk(x) {
        if x != c { assert NodeOk(x); }
      }
    }

    lemma GrownParent(p: T, c: T)
      requires Ok() && p in kids && c !in kids && c !in kids[p].at && kids[p].Ok()
      ensures Grown(p, c).NodeOk(p)
    {
      hide Order.Ok, Order.Pushed;
      assert NodeOk(p);
      kids[p].PushedKeys(c);
    }

    lemma GrownChild(p: T, c: T)
      requires Ok() && p in kids && c !in kids && c !in kids[p].at && kids[p].Ok()
      ensures Grown(p, c).NodeOk(c)
    {
      hide Order.Ok, Order.Pushed;
      assert NodeOk(p);
      kids[p].PushedKeys(c);
      EmptyOk<T>();
    }

    lemma GrownNode(p: T, c: T, x: T)
      requires Ok() && p in kids && c !in kids && c !in kids[p].at && x in kids && x != p && kids[p].Ok()
      ensures Grown(p, c).NodeOk(x)
    {
      hide Order.Ok, Order.Pushed;
      assert NodeOk(p) && NodeOk(x);
      kids[p].PushedKeys(c);
    }

    lemma GrownOk(p: T, c: T)
      requires Ok() && p in kids && c !in kids
      ensures Grown(p, c).Ok() && c !in kids[p].at
    {
      hide Order.Ok, Order.Pushed;
      assert NodeOk(p);
      var f := Grown(p, c);
      GrownParent(p, c);
      GrownChild(p, c);
      forall x | x in f.kids ensures f.NodeOk(x) { if x != p && x != c { GrownNode(p, c, x); } }
    }

    /** What a node that stays has for children once `c` is gone. */
    lemma PrunedKids(c: T, x: T)
      requires Ok() && c in kids && x in kids && x != c
      ensures x in Pruned(c).kids && Pruned(c).kids[x].Ok()
      ensures Pruned(c).kids[x].at.Keys == kids[x].at.Keys - {c}
    {
      hide Order.Ok, Order.Cut;
      assert NodeOk(c) && NodeOk(x);
      if up[c].Some? {
        assert NodeOk(up[c].value);
        kids[up[c].value].CutKeys(c);
      }
    }

    lemma PrunedNode(c: T, x: T)
      requires Ok() && c in kids && kids[c].at == map[] && x in kids && x != c
      ensures x in Pruned(c).kids && x in Pruned(c).up && x in Pruned(c).depth && Pruned(c).NodeOk(x)
    {
      assert NodeOk(x) && up[x] != Some(c);
      PrunedKids(c, x);
      if up[x].Some? { PrunedKids(c, up[x].value); }
      hide Order.Ok;
    }

    lemma PrunedOk(c: T)
      requires Ok() && c in kids && kids[c].list == []
      ensures Pruned(c).Ok() && (up[c].Some? ==> ChildOf(up[c].value, c) && up[c].value != c)
    {
      assert NodeOk(c);
      var f := Pruned(c);
      forall x | x in f.kids ensures f.NodeOk(x) { PrunedNode(c, x); }
    }

    /** A node and everything under it, parents first. */
    ghost function Pre(c: T): seq<T>
      requires Ok() && c in kids
      decreases limit - depth[c], 1, 0
    {
      [c] + PreFrom(c, 0)
    }

    /** The subtrees of the children of `p` from the i-th on. */
    ghost function PreFrom(p: T, i: nat): seq<T>
      requires Ok() && p in kids && i <= |kids[p].list|
      decreases limit - depth[p], 0, |kids[p].list| - i
    {
      if i == |kids[p].list| then []
      else
        Child(p, i);
        Pre(kids[p].list[i]) + PreFrom(p, i + 1)
    }

    ghost predicate Under(root: T, c: T)
      requires Ok() && c in kids
      decreases depth[c]
    {
      c == root || (up[c].Some? && ChildOf(up[c].value, c) && Under(root, up[c].value))
    }

    /** What is left of the walk over `root` once the subtree of `c` is done. */
    ghost function After(root: T, c: T): seq<T>
      requires Ok() && c in kids && Under(root, c)
      decreases depth[c]
    {
      if c == root then []
      else
        var p := up[c].value;
        assert NodeOk(p);
        PreFrom(p, kids[p].at[c] + 1) + After(root, p)
    }

    /** Stepping down to the first child, across to the next sibling, or up to the parent keeps
        the rest of the walk. */
    lemma Down(root: T, c: T)
      requires Ok() && c in kids && Under(root, c) && kids[c].list != []
      ensures var k := kids[c].list[0];
              k in kids && Under(root, k) && Pre(c) + After(root, c) == [c] + (Pre(k) + After(root, k))
    {
      Child(c, 0);
      var k := kids[c].list[0];
      assert ChildOf(c, k);
      if k == root {
        NotAbove(root, c);
      }
      assert PreFrom(c, 0) == Pre(k) + PreFrom(c, 1);
      assert After(root, k) == PreFrom(c, 1) + After(root, c);
    }

    lemma Across(root: T, c: T)
      requires Ok() && c in kids && Under(root, c) && c != root && NextOf(c).Some?
      ensures var s := NextOf(c).value;
              s in kids && Under(root, s) && After(root, c) == Pre(s) + After(root, s)
    {
      var p := up[c].value;
      assert NodeOk(p);
      var i := kids[p].at[c];
      Child(p, i + 1);
      var s := kids[p].list[i + 1];
      assert ChildOf(p, s) && kids[p].at[s] == i + 1;
      if s == root { NotAbove(root, p); }
      hide Order.Ok, NodeOk;
      assert After(root, c) == PreFrom(p, i + 1) + After(root, p) && PreFrom(p, i + 1) == Pre(s) + PreFrom(p, i + 2);
      assert After(root, s) == PreFrom(p, i + 2) + After(root, p);
      hide After, PreFrom, Pre;
      Regroup(Pre(s), PreFrom(p, i + 2), After(root, p));
    }

    static lemma Regroup(a: seq<T>, b: seq<T>, c: seq<T>)
      ensures (a + b) + c == a + (b + c)
    {
    }

    lemma Up(root: T, c: T)
      requires Ok() && c in kids && Under(root, c) && c != root && NextOf(c).None?
      ensures up[c].value in kids && Under(root, up[c].value) && After(root, c) == After(root, up[c].value)
    {
    }

    /** The subtrees of the first `i` children. */
    ghost function PreUpTo(p: T, i: nat): seq<T>
      requires Ok() && p in kids && i <= |kids[p].list|
      decreases i
    {
      if i == 0 then [] else
        Child(p, i - 1);
        PreUpTo(p, i - 1) + Pre(kids[p].list[i - 1])
    }

    lemma {:induction false} PreSplit(p: T, i: nat)
      requires Ok() && p in kids && i <= |kids[p].list|
      ensures Pre(p) == [p] + PreUpTo(p, i) + PreFrom(p, i)
      decreases i
    {
      if i > 0 {
        Child(p, i - 1);
        PreSplit(p, i - 1);
        assert PreFrom(p, i - 1) == Pre(kids[p].list[i - 1]) + PreFrom(p, i);
      }
    }

    /** The walk over `root` has done `done` and comes to `c` next. */
    ghost predicate At(root: T, done: seq<T>, c: T)
      requires Ok() && root in kids
      ensures At(root, done, c) ==> c in kids
    {
      c in kids && Under(root, c) && done + (Pre(c) + After(root, c)) == Pre(root)
    }

    /** The walk over `root` has done `done`, and with it the subtree of `c`. */
    ghost predicate Past(root: T, done: seq<T>, c: T)
      requires Ok() && root in kids
      ensures Past(root, done, c) ==> c in kids
    {
      c in kids && Under(root, c) && done + After(root, c) == Pre(root)
    }

    lemma WalkStarts(root: T)
      requires Ok() && root in kids
      ensures At(root, [], root)
    {
    }

    lemma WalkGrows(root: T, done: seq<T>, c: T)
      requires Ok() && root in kids && At(root, done, c)
      ensures |done| < |Pre(root)|
    {
    }

    lemma WalkDown(root: T, done: seq<T>, c: T)
      requires Ok() && root in kids && At(root, done, c) && kids[c].First().Some?
      ensures At(root, done + [c], kids[c].First().value)
    {
      Down(root, c);
      hide Pre, After, Under, Ok;
      var k := kids[c].First().value;
      assert done + [c] + (Pre(k) + After(root, k)) == done + ([c] + (Pre(k) + After(root, k)));
    }

    lemma Leaf(root: T, c: T)
      requires Ok() && c in kids && Under(root, c) && kids[c].First().None?
      ensures Pre(c) == [c]
    {
      assert PreFrom(c, 0) == [];
    }

    lemma WalkLeaf(root: T, done: seq<T>, c: T)
      requires Ok() && root in kids && At(root, done, c) && kids[c].First().None?
      ensures Past(root, done + [c], c)
    {
      Leaf(root, c);
      hide Pre, After, Under, Ok;
      assert done + [c] + After(root, c) == done + ([c] + After(root, c));
    }

    lemma WalkAcross(root: T, done: seq<T>, c: T)
      requires Ok() && root in kids && Past(root, done, c) && c != root && NextOf(c).Some?
      ensures At(root, done, NextOf(c).value)
    {
      Across(root, c);
    }

    lemma WalkUp(root: T, done: seq<T>, c: T)
      requires Ok() && root in kids && Past(root, done, c) && c != root && NextOf(c).None?
      ensures Past(root, done, up[c].value) && depth[up[c].value] < depth[c]
    {
      Up(root, c);
    }

    lemma HasParent(root: T, done: seq<T>, c: T)
      requires Ok() && root in kids && Past(root, done, c) && c != root
      ensures up[c].Some?
    {
    }

    lemma WalkEnds(root: T, done: seq<T>)
      requires Ok() && root in kids && Past(root, done, root)
      ensures done == Pre(root)
    {
    }

    lemma {:induction false} NotAbove(root: T, c: T)
      requires Ok() && root in kids && c in kids && Under(root, c)
      ensures depth[root] <= depth[c]
      decreases depth[c]
    {
      if c != root { NotAbove(root, up[c].value); }
    }

    lemma {:induction false} UnderTrans(a: T, b: T, c: T)
      requires Ok() && b in kids && c in kids && Under(a, b) && Under(b, c)
      ensures Under(a, c)
      decreases depth[c]
    {
      if c != b { UnderTrans(a, b, up[c].value); }
    }

    lemma {:induction false} UnderUnique(a: T, b: T, c: T)
      requires Ok() && a in kids && b in kids && c in kids && Under(a, c) && Under(b, c) && depth[a] == depth[b]
      ensures a == b
      decreases depth[c]
    {
      NotAbove(a, c);
      NotAbove(b, c);
      if a == c {
        if b != c { NotAbove(b, up[c].value); }
      } else if b == c {
        NotAbove(a, up[c].value);
      } else {
        UnderUnique(a, b, up[c].value);
      }
    }

    /** Everything in the pre-order is under the root of the walk. */
    lemma {:induction false} PreIsUnder(c: T, x: T)
      requires Ok() && c in kids && x in Pre(c)
      ensures x in kids && Under(c, x)
      decreases limit - depth[c], 1, 0
    {
      if x != c {
        var j := PreFromIsUnder(c, 0, x);
        Child(c, j);
        assert ChildOf(c, kids[c].list[j]);
        assert Under(c, c);
        UnderTrans(c, kids[c].list[j], x);
      }
    }

    lemma {:induction false} PreFromIsUnder(p: T, i: nat, x: T) returns (j: nat)
      requires Ok() && p in kids && i <= |kids[p].list| && x in PreFrom(p, i)
      ensures i <= j < |kids[p].list| && x in kids && Under(kids[p].list[j], x) && kids[p].list[j] in kids
      decreases limit - depth[p], 0, |kids[p].list| - i
    {
      Child(p, i);
      if x in Pre(kids[p].list[i]) {
        PreIsUnder(kids[p].list[i], x);
        j := i;
      } else {
        j := PreFromIsUnder(p, i + 1, x);
      }
    }

    /** Whatever lies under `c` other than `c` lies under one of its children. */
    lemma {:induction false} UnderChild(c: T, x: T) returns (k: T)
      requires Ok() && c in kids && x in kids && Under(c, x) && x != c
      ensures k in kids && ChildOf(c, k) && Under(k, x)
      decreases depth[x]
    {
      if up[x].value == c {
        k := x;
      } else {
        k := UnderChild(c, up[x].value);
      }
    }

    /** Everything under the root of the walk is in the pre-order. */
    lemma {:induction false} UnderIsPre(c: T, x: T)
      requires Ok() && c in kids && x in kids && Under(c, x)
      ensures x in Pre(c)
      decreases limit - depth[c]
    {
      if x != c {
        var k := UnderChild(c, x);
        assert NodeOk(c) && NodeOk(k);
        UnderIsPre(k, x);
        InPreFrom(c, 0, kids[c].at[k], x);
      }
    }

    lemma {:induction false} InPreFrom(p: T, i: nat, j: nat, x: T)
      requires Ok() && p in kids && i <= j < |kids[p].list| && kids[p].list[j] in kids && x in Pre(kids[p].list[j])
      ensures x in PreFrom(p, i)
      decreases j - i
    {
      Child(p, i);
      if i < j { InPreFrom(p, i + 1, j, x); }
    }

    /** The walk comes to no node twice. */
    lemma {:induction false} PreDistinct(c: T)
      requires Ok() && c in kids
      ensures Distinct(Pre(c))
      decreases limit - depth[c], 1, 0
    {
      PreFromDistinct(c, 0);
      if c in PreFrom(c, 0) {
        var j := PreFromIsUnder(c, 0, c);
        Child(c, j);
        NotAbove(kids[c].list[j], c);
      }
    }

    lemma {:induction false} PreFromDistinct(p: T, i: nat)
      requires Ok() && p in kids && i <= |kids[p].list|
      ensures Distinct(PreFrom(p, i))
      decreases limit - depth[p], 0, |kids[p].list| - i
    {
      if i < |kids[p].list| {
        Child(p, i);
        var k := kids[p].list[i];
        PreDistinct(k);
        PreFromDistinct(p, i + 1);
        forall a | 0 <= a < |Pre(k)| ensures Pre(k)[a] !in PreFrom(p, i + 1) {
          if Pre(k)[a] in PreFrom(p, i + 1) {
            PreIsUnder(k, Pre(k)[a]);
            var j := PreFromIsUnder(p, i + 1, Pre(k)[a]);
            Child(p, j);
            UnderUnique(k, kids[p].list[j], Pre(k)[a]);
          }
        }
        DistinctConcat(Pre(k), PreFrom(p, i + 1));
      }
    }
  }

  lemma EmptyOk<T>()
    ensures Order<T>.Order([], map[]).Ok()
  {
  }

  ghost predicate Distinct<T>(s: seq<T>) {
    forall i, j :: 0 <= i < j < |s| ==> s[i] != s[j]
  }

  lemma DistinctConcat<T>(a: seq<T>, b: seq<T>)
    requires Distinct(a) && Distinct(b) && forall i :: 0 <= i < |a| ==> a[i] !in b
    ensures Distinct(a + b)
  {
    forall i, j | 0 <= i < j < |a + b| ensures (a + b)[i] != (a + b)[j] {
      if i < |a| <= j { assert (a + b)[j] == b[j - |a|]; }
    }
  }
}
