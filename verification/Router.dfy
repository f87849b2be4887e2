/** The router's trie: registration, and the explicit-stack search against a recursive one and
    against the set of all ways through the trie. */
module Router {
  import opened Optional
  import opened Paths

  // ------------------------------------------------------------------ the trie

  /** How a node hangs below its parent. */
  datatype Edge = Lit(text: string) | Param | Wild

  /** A node is known by the edges from the root to it: each has one owner. */
  type Node = seq<Edge>

  type Trie = set<Node>

  const MAX_PARAMS := 8

  /** The segments of a request path, and for each the rest of the path from there on. */
  datatype Goal = Goal(segs: seq<string>, rests: seq<string>) {
    ghost predicate Ok() { |segs| == |rests| }
  }

  datatype Found = Found(node: Node, caps: seq<string>)

  function Keep(caps: seq<string>, v: string): seq<string> {
    if |caps| < MAX_PARAMS then caps + [v] else caps
  }

  function OrElse(a: Option<Found>, b: Option<Found>): Option<Found> {
    if a.Some? then a else b
  }

  // ------------------------------------------- the search, literal, param, wildcard

  ghost function Search(t: Trie, g: Goal, e: Node, i: nat, caps: seq<string>): Option<Found>
    requires g.Ok() && i <= |g.segs|
    decreases |g.segs| - i, 2
  {
    if i == |g.segs| then Some(Found(e, caps)) else OrElse(ByLiteral(t, g, e, i, caps), ByParam(t, g, e, i, caps))
  }

  ghost function ByLiteral(t: Trie, g: Goal, e: Node, i: nat, caps: seq<string>): Option<Found>
    requires g.Ok() && i < |g.segs|
    decreases |g.segs| - i, 0
  {
    var next := e + [Lit(g.segs[i])];
    if next in t then Search(t, g, next, i + 1, caps) else None
  }

  /** The parameter child, and after it the wildcard child. */
  ghost function ByParam(t: Trie, g: Goal, e: Node, i: nat, caps: seq<string>): Option<Found>
    requires g.Ok() && i < |g.segs|
    decreases |g.segs| - i, 1
  {
    var next := e + [Param];
    OrElse(if next in t then Search(t, g, next, i + 1, Keep(caps, g.segs[i])) else None, ByWildcard(t, g, e, i, caps))
  }

  ghost function ByWildcard(t: Trie, g: Goal, e: Node, i: nat, caps: seq<string>): Option<Found>
    requires g.Ok() && i < |g.segs|
  {
    if e + [Wild] in t then Some(Found(e + [Wild], Keep(caps, g.rests[i]))) else None
  }

  /** What each choice of children leaves of the search at a node. */
  lemma SearchCases(t: Trie, g: Goal, e: Node, i: nat, caps: seq<string>)
    requires g.Ok() && i < |g.segs|
    ensures e + [Lit(g.segs[i])] in t ==>
              Search(t, g, e, i, caps) ==
              OrElse(Search(t, g, e + [Lit(g.segs[i])], i + 1, caps), ByParam(t, g, e, i, caps))
    ensures e + [Lit(g.segs[i])] !in t ==> Search(t, g, e, i, caps) == ByParam(t, g, e, i, caps)
    ensures ByParam(t, g, e, i, caps)
         == if e + [Param] in t then
              OrElse(Search(t, g, e + [Param], i + 1, Keep(caps, g.segs[i])), ByWildcard(t, g, e, i, caps))
            else ByWildcard(t, g, e, i, caps)
    ensures ByWildcard(t, g, e, i, caps)
         == if e + [Wild] in t then Search(t, g, e + [Wild], |g.segs|, Keep(caps, g.rests[i])) else None
    ensures ByWildcard(t, g, e, i, caps).Some? <==> e + [Wild] in t
    ensures Work(|g.segs| - i) == 2 * Work(|g.segs| - i - 1) + 2 && Work(0) == 0
  {
  }

  // --------------------------------------------------- the explicit-stack search

  datatype Alt = TryParam | TryWildcard

  datatype Frame = Frame(node: Node, seg: nat, params: nat, alt: Alt)

  ghost predicate Stacked(g: Goal, stack: seq<Frame>, n: nat) {
    && (forall j :: 0 <= j < |stack| ==> stack[j].seg < |g.segs| && stack[j].params <= n)
    && (forall j, k :: 0 <= j < k < |stack| ==> stack[j].params <= stack[k].params)
  }

  /** What the branches still on the stack give, the top one first. */
  ghost function Untried(t: Trie, g: Goal, stack: seq<Frame>, capt: seq<string>): Option<Found>
    requires g.Ok() && Stacked(g, stack, |capt|)
  {
    if stack == [] then None
    else
      var f := stack[|stack| - 1];
      OrElse(if f.alt.TryParam? then ByParam(t, g, f.node, f.seg, capt[..f.params])
             else ByWildcard(t, g, f.node, f.seg, capt[..f.params]),
             Untried(t, g, stack[..|stack| - 1], capt))
  }

  lemma UntriedPush(t: Trie, g: Goal, stack: seq<Frame>, capt: seq<string>, f: Frame)
    requires g.Ok() && Stacked(g, stack, f.params) && f.seg < |g.segs| && f.params <= |capt|
    ensures Stacked(g, stack + [f], f.params) && Stacked(g, stack, |capt|) && Stacked(g, stack + [f], |capt|)
    ensures Untried(t, g, stack + [f], capt)
         == OrElse(if f.alt.TryParam? then ByParam(t, g, f.node, f.seg, capt[..f.params])
                   else ByWildcard(t, g, f.node, f.seg, capt[..f.params]),
                   Untried(t, g, stack, capt))
  {
    assert (stack + [f])[..|stack|] == stack;
  }

  /** Values captured later do not disturb what a frame remembers. */
  lemma {:induction false} UntriedKept(t: Trie, g: Goal, stack: seq<Frame>, capt: seq<string>,
                                       capt': seq<string>, n: nat)
    requires g.Ok() && Stacked(g, stack, n) && n <= |capt| && n <= |capt'| && capt[..n] == capt'[..n]
    ensures Stacked(g, stack, |capt|) && Stacked(g, stack, |capt'|)
    ensures Untried(t, g, stack, capt) == Untried(t, g, stack, capt')
  {
    if stack != [] {
      var f := stack[|stack| - 1];
      assert capt[..f.params] == capt[..n][..f.params] && capt'[..f.params] == capt'[..n][..f.params];
      UntriedKept(t, g, stack[..|stack| - 1], capt, capt', n);
    }
  }

  /** How much work a node with `k` segments to go, and a frame, may still cause. */
  function Work(k: nat): nat {
    if k == 0 then 0 else 2 * Work(k - 1) + 2
  }

  function FrameWork(f: Frame, segs: nat): nat {
    if f.alt.TryWildcard? || f.seg >= segs then 1 else 2 + Work(segs - f.seg - 1)
  }

  function StackWork(stack: seq<Frame>, segs: nat): nat {
    if stack == [] then 0 else FrameWork(stack[|stack| - 1], segs) + StackWork(stack[..|stack| - 1], segs)
  }

  lemma StackWorkPush(stack: seq<Frame>, f: Frame, segs: nat)
    ensures StackWork(stack + [f], segs) == StackWork(stack, segs) + FrameWork(f, segs)
  {
    assert (stack + [f])[..|stack|] == stack;
  }

  /** The state of one search. */
  class Walk {
    const trie: Trie
    const goal: Goal
    const captured: array<string>
    var capturedN: nat
    var node: Node
    var i: nat
    var stack: seq<Frame>

    constructor (trie: Trie, goal: Goal)
      requires goal.Ok()
      ensures Valid() && this.trie == trie && this.goal == goal && fresh(captured)
      ensures node == [] && i == 0 && capturedN == 0 && stack == []
    {
      this.trie, this.goal := trie, goal;
      captured := new string[MAX_PARAMS](_ => "");
      capturedN, node, i, stack := 0, [], 0, [];
    }

    ghost predicate Valid()
      reads this, captured
    {
      && goal.Ok() && captured.Length == MAX_PARAMS && capturedN <= MAX_PARAMS && i <= |goal.segs|
      && Stacked(goal, stack, capturedN)
    }

    ghost function Caps(): seq<string>
      requires Valid()
      reads this, captured
    {
      captured[..capturedN]
    }

    /** What is left of the search: here, and then the branches on the stack. */
    ghost function Here(): Option<Found>
      requires Valid()
      reads this, captured
    {
      Search(trie, goal, node, i, Caps())
    }

    ghost function Later(): Option<Found>
      requires Valid()
      reads this, captured
    {
      Untried(trie, goal, stack, captured[..])
    }

    ghost function Outcome(): Option<Found>
      requires Valid()
      reads this, captured
    {
      OrElse(Here(), Later())
    }

    /** The work that is left. */
    ghost function Left(): nat
      requires Valid()
      reads this, captured
    {
      StackWork(stack, |goal.segs|) + Work(|goal.segs| - i)
    }

    /** Records a value, if there is a slot left for it. */
    method Capture(v: string)
      requires Valid()
      modifies captured, `capturedN
      ensures Valid() && Caps() == Keep(old(Caps()), v) && Later() == old(Later())
    {
      ghost var before := captured[..];
      if capturedN < MAX_PARAMS {
        captured[capturedN] := v;
        UntriedKept(trie, goal, stack, before, captured[..], capturedN);
        capturedN := capturedN + 1;
      }
    }

    method Push(alt: Alt)
      requires Valid() && i < |goal.segs|
      modifies `stack
      ensures Valid() && stack == old(stack) + [Frame(node, i, capturedN, alt)]
      ensures Later() == OrElse(if alt.TryParam? then ByParam(trie, goal, node, i, Caps())
                                else ByWildcard(trie, goal, node, i, Caps()), old(Later()))
      ensures StackWork(stack, |goal.segs|) ==
                StackWork(old(stack), |goal.segs|) + FrameWork(Frame(node, i, capturedN, alt), |goal.segs|)
    {
      var f := Frame(node, i, capturedN, alt);
      UntriedPush(trie, goal, stack, captured[..], f);
      StackWorkPush(stack, f, |goal.segs|);
      assert captured[..][..capturedN] == captured[..capturedN];
      stack := stack + [f];
    }

    /** One level down. False when the node has no child for the segment. */
    method Step() returns (down: bool)
      requires Valid() && i < |goal.segs|
      modifies this, captured
      ensures Valid() && Outcome() == old(Outcome())
      ensures !down ==> i == old(i) && Here() == None && stack == old(stack)
      ensures down ==> i > old(i)
      ensures Left() <= old(Left())
    {
      hide Search, ByLiteral, ByParam, ByWildcard, Untried, Work, StackWork, Keep;
      SearchCases(trie, goal, node, i, Caps());
      var seg, n := goal.segs[i], |goal.segs|;
      if node + [Lit(seg)] in trie {
        if node + [Param] in trie {
          Push(TryParam);
        } else if node + [Wild] in trie {
          Push(TryWildcard);
        }
        node, i := node + [Lit(seg)], i + 1;
        return true;
      }
      if node + [Param] in trie {
        if node + [Wild] in trie { Push(TryWildcard); }
        Capture(seg);
        node, i := node + [Param], i + 1;
        return true;
      }
      if node + [Wild] in trie {
        Capture(goal.rests[i]);
        node, i := node + [Wild], n;
        return true;
      }
      return false;
    }

    method TryDescend() returns (matched: bool)
      requires Valid()
      modifies this, captured
      ensures Valid()
      ensures old(Outcome()) == if matched then Some(Found(node, Caps())) else Later()
      ensures StackWork(stack, |goal.segs|) <= old(Left())
    {
      hide Search, Untried, Work, StackWork;
      while i < |goal.segs|
        invariant Valid() && Outcome() == old(Outcome())
        invariant Left() <= old(Left())
        decreases |goal.segs| - i
      {
        var down := Step();
        if !down { return false; }
      }
      Arrived(trie, goal, node, Caps());
      return true;
    }

    /** The top frame is taken off and its next branch entered. */
    method Backtrack() returns (entered: bool)
      requires Valid() && stack != []
      modifies this, captured
      ensures Valid() && old(Later()) == if entered then Outcome() else Later()
      ensures (if entered then Left() else StackWork(stack, |goal.segs|)) < old(StackWork(stack, |goal.segs|))
    {
      hide Search, ByLiteral, ByParam, ByWildcard, Untried, Work, StackWork, Keep;
      var f := Pop();
      SearchCases(trie, goal, node, i, Caps());
      if f.alt == TryParam && node + [Param] in trie {
        if node + [Wild] in trie { Push(TryWildcard); }
        Capture(goal.segs[i]);
        node, i := node + [Param], i + 1;
        return true;
      }
      if node + [Wild] in trie {
        Capture(goal.rests[i]);
        node, i := node + [Wild], |goal.segs|;
        return true;
      }
      return false;
    }

    method Pop() returns (f: Frame)
      requires Valid() && stack != []
      modifies `stack, `node, `i, `capturedN
      ensures Valid() && f == old(stack[|stack| - 1]) && stack == old(stack[..|stack| - 1])
      ensures f.node == node && f.seg == i < |goal.segs| && f.params == capturedN
      ensures old(Later()) == OrElse(if f.alt.TryParam? then ByParam(trie, goal, node, i, Caps())
                                     else ByWildcard(trie, goal, node, i, Caps()), Later())
      ensures old(StackWork(stack, |goal.segs|)) == StackWork(stack, |goal.segs|) + FrameWork(f, |goal.segs|)
    {
      f := stack[|stack| - 1];
      assert captured[..][..f.params] == captured[..f.params];
      stack := stack[..|stack| - 1];
      node, i, capturedN := f.node, f.seg, f.params;
    }

    /** The whole search, from the root. */
    method Run() returns (matched: bool)
      requires Valid() && node == [] && i == 0 && capturedN == 0 && stack == []
      modifies this, captured
      ensures Valid()
      ensures Search(trie, goal, [], 0, []) == if matched then Some(Found(node, Caps())) else None
    {
      hide Search, Untried, Work, StackWork;
      Nothing(trie, goal, captured[..]);
      assert Caps() == [];
      matched := TryDescend();
      while !matched && stack != []
        invariant Valid()
        invariant Search(trie, goal, [], 0, []) == if matched then Some(Found(node, Caps())) else Later()
        decreases StackWork(stack, |goal.segs|), !matched
      {
        var entered := Backtrack();
        if entered { matched := TryDescend(); }
      }
      if !matched { Nothing(trie, goal, captured[..]); }
    }
  }

  lemma Arrived(t: Trie, g: Goal, e: Node, caps: seq<string>)
    requires g.Ok()
    ensures Search(t, g, e, |g.segs|, caps) == Some(Found(e, caps))
  {
  }

  lemma Nothing(t: Trie, g: Goal, capt: seq<string>)
    requires g.Ok()
    ensures Stacked(g, [], |capt|) && Untried(t, g, [], capt) == None
  {
  }

  // --------------------------------------------- every way a path can fit the trie

  /** `e` takes the segments from the i-th on: each edge one segment, a wildcard all the rest. */
  ghost predicate Fits(e: Node, segs: seq<string>, i: nat)
    requires i <= |segs|
    decreases |e|
  {
    if e == [] then i == |segs|
    else i < |segs| && match e[0]
      case Lit(text) => text == segs[i] && Fits(e[1..], segs, i + 1)
      case Param => Fits(e[1..], segs, i + 1)
      case Wild => e == [Wild]
  }

  function Rank(x: Edge): nat {
    match x case Lit(_) => 0 case Param => 1 case Wild => 2
  }

  /** Where two ways part, `a` takes the more specific edge. */
  ghost predicate Before(a: Node, b: Node)
    decreases |a|
  {
    a != [] && b != [] && if a[0] == b[0] then Before(a[1..], b[1..]) else Rank(a[0]) < Rank(b[0])
  }

  /** The values a way captures, up to the slot limit. */
  ghost function Values(e: Node, g: Goal, i: nat, caps: seq<string>): seq<string>
    requires g.Ok() && i <= |g.segs| && Fits(e, g.segs, i)
    decreases |e|
  {
    if e == [] then caps
    else match e[0]
      case Lit(_) => Values(e[1..], g, i + 1, caps)
      case Param => Values(e[1..], g, i + 1, Keep(caps, g.segs[i]))
      case Wild => Keep(caps, g.rests[i])
  }

  /** Every node's parent is in the trie as well. */
  ghost predicate Closed(t: Trie) {
    forall e :: e in t && e != [] ==> e[..|e| - 1] in t
  }

  lemma {:induction false} PrefixIn(t: Trie, e: Node, k: nat)
    requires Closed(t) && e in t && k <= |e|
    ensures e[..k] in t
    decreases |e|
  {
    if k < |e| {
      PrefixIn(t, e[..|e| - 1], k);
      assert e[..|e| - 1][..k] == e[..k];
    } else {
      assert e[..k] == e;
    }
  }

  /** The search below `p` gives the first way of all that fit. */
  ghost predicate FirstWay(t: Trie, g: Goal, p: Node, i: nat, e: Node)
    requires g.Ok() && i <= |g.segs|
  {
    && p + e in t && Fits(e, g.segs, i)
    && forall d :: p + d in t && Fits(d, g.segs, i) && d != e ==> Before(e, d)
  }

  /** A way that fits starts with an edge to a child, and goes on from there. */
  lemma WayHead(t: Trie, segs: seq<string>, p: Node, i: nat, d: Node)
    requires Closed(t) && i < |segs| && p + d in t && Fits(d, segs, i)
    ensures d != [] && p + [d[0]] in t && (p + [d[0]]) + d[1..] == p + d && d == [d[0]] + d[1..]
    ensures match d[0]
            case Lit(text) => text == segs[i] && Fits(d[1..], segs, i + 1)
            case Param => Fits(d[1..], segs, i + 1)
            case Wild => d == [Wild]
  {
    hide Closed;
    assert d != [];
    var x := d[0];
    assert d == [x] + d[1..];
    assert (p + [x]) + d[1..] == p + d;
    PrefixIn(t, p + d, |p| + 1);
    assert (p + d)[..|p| + 1] == p + [x];
  }

  lemma BeforeHead(x: Edge, e: Node, d: Node)
    requires d != [] && (if d[0] == x then Before(e, d[1..]) else Rank(x) < Rank(d[0]))
    ensures Before([x] + e, d)
  {
    assert ([x] + e)[1..] == e;
  }

  /** If the search below a child finds its first way, the parent's search finds the same one
      behind the edge to that child, unless a more specific edge has a way. */
  lemma FirstBehind(t: Trie, g: Goal, p: Node, i: nat, caps: seq<string>, x: Edge, caps': seq<string>, e: Node)
    requires g.Ok() && i < |g.segs| && Closed(t) && FirstWay(t, g, p + [x], i + 1, e)
    requires (x == Lit(g.segs[i]) && caps' == caps) || (x == Param && caps' == Keep(caps, g.segs[i]))
    requires forall d :: p + d in t && Fits(d, g.segs, i) && d != [] && d[0] != x ==> Rank(x) < Rank(d[0])
    ensures FirstWay(t, g, p, i, [x] + e) && p + ([x] + e) == (p + [x]) + e
    ensures Values([x] + e, g, i, caps) == Values(e, g, i + 1, caps')
  {
    assert ([x] + e)[1..] == e && p + ([x] + e) == (p + [x]) + e;
    forall d | p + d in t && Fits(d, g.segs, i) && d != [x] + e ensures Before([x] + e, d) {
      WayHead(t, g.segs, p, i, d);
      if d[0] == x {
        assert (p + [x]) + d[1..] == p + d;
        assert d[1..] != e;
      }
      BeforeHead(x, e, d);
    }
  }

  lemma FirstWild(t: Trie, g: Goal, p: Node, i: nat, caps: seq<string>)
    requires g.Ok() && i < |g.segs| && Closed(t) && p + [Wild] in t
    requires forall d :: p + d in t && Fits(d, g.segs, i) && d != [] ==> d[0] == Wild
    ensures FirstWay(t, g, p, i, [Wild]) && Values([Wild], g, i, caps) == Keep(caps, g.rests[i])
  {
    forall d | p + d in t && Fits(d, g.segs, i) ensures d == [Wild] {
      WayHead(t, g.segs, p, i, d);
    }
  }

  /** No way goes through the edge `x`. */
  ghost predicate NoWay(t: Trie, g: Goal, p: Node, i: nat, x: Edge)
    requires g.Ok() && i <= |g.segs|
  {
    forall d :: p + d in t && Fits(d, g.segs, i) && d != [] ==> d[0] != x
  }

  lemma NoWayBehind(t: Trie, g: Goal, p: Node, i: nat, x: Edge)
    requires g.Ok() && i < |g.segs| && Closed(t) && (x == Lit(g.segs[i]) || x == Param)
    requires p + [x] in t ==> forall d :: (p + [x]) + d in t ==> !Fits(d, g.segs, i + 1)
    ensures NoWay(t, g, p, i, x)
  {
    forall d | p + d in t && Fits(d, g.segs, i) && d != [] ensures d[0] != x {
      WayHead(t, g.segs, p, i, d);
    }
  }

  lemma EmptyWay(t: Trie, g: Goal, p: Node)
    requires g.Ok() && p in t
    ensures FirstWay(t, g, p, |g.segs|, [])
  {
    assert p + [] == p;
  }

  /** The recursive search finds the first of all ways through the trie that fit the path, with
      the values that way captures; it finds none only if none fits. */
  lemma {:induction false} SearchFirst(t: Trie, g: Goal, p: Node, i: nat, caps: seq<string>) returns (e: Node)
    requires g.Ok() && i <= |g.segs| && Closed(t) && p in t
    ensures Search(t, g, p, i, caps).None? ==> forall d :: p + d in t ==> !Fits(d, g.segs, i)
    ensures Search(t, g, p, i, caps).Some? ==>
              FirstWay(t, g, p, i, e) && Search(t, g, p, i, caps) == Some(Found(p + e, Values(e, g, i, caps)))
    decreases |g.segs| - i
  {
    e := [];
    if i == |g.segs| {
      EmptyWay(t, g, p);
      assert p + [] == p;
      return;
    }
    hide Search, ByParam, ByWildcard, ByLiteral, Before, Values, Fits;
    SearchCases(t, g, p, i, caps);
    var lit := Lit(g.segs[i]);
    if p + [lit] in t {
      var e1 := SearchFirst(t, g, p + [lit], i + 1, caps);
      if Search(t, g, p + [lit], i + 1, caps).Some? {
        LitFirst(t, g, p, i);
        FirstBehind(t, g, p, i, caps, lit, caps, e1);
        return [lit] + e1;
      }
    }
    NoWayBehind(t, g, p, i, lit);
    var caps1 := Keep(caps, g.segs[i]);
    if p + [Param] in t {
      var e1 := SearchFirst(t, g, p + [Param], i + 1, caps1);
      if Search(t, g, p + [Param], i + 1, caps1).Some? {
        ParamNext(t, g, p, i);
        FirstBehind(t, g, p, i, caps, Param, caps1, e1);
        return [Param] + e1;
      }
    }
    NoWayBehind(t, g, p, i, Param);
    WildLast(t, g, p, i);
    if p + [Wild] in t {
      FirstWild(t, g, p, i, caps);
      Arrived(t, g, p + [Wild], Keep(caps, g.rests[i]));
      return [Wild];
    }
    NoWays(t, g, p, i);
  }

  lemma LitFirst(t: Trie, g: Goal, p: Node, i: nat)
    requires g.Ok() && i < |g.segs| && Closed(t)
    ensures forall d :: p + d in t && Fits(d, g.segs, i) && d != [] && d[0] != Lit(g.segs[i]) ==>
              Rank(Lit(g.segs[i])) < Rank(d[0])
  {
    forall d | p + d in t && Fits(d, g.segs, i) && d != [] && d[0] != Lit(g.segs[i])
      ensures Rank(Lit(g.segs[i])) < Rank(d[0])
    {
      WayHead(t, g.segs, p, i, d);
    }
  }

  lemma ParamNext(t: Trie, g: Goal, p: Node, i: nat)
    requires g.Ok() && i < |g.segs| && Closed(t) && NoWay(t, g, p, i, Lit(g.segs[i]))
    ensures forall d :: p + d in t && Fits(d, g.segs, i) && d != [] && d[0] != Param ==> Rank(Param) < Rank(d[0])
  {
    forall d | p + d in t && Fits(d, g.segs, i) && d != [] && d[0] != Param ensures Rank(Param) < Rank(d[0]) {
      WayHead(t, g.segs, p, i, d);
    }
  }

  lemma WildLast(t: Trie, g: Goal, p: Node, i: nat)
    requires g.Ok() && i < |g.segs| && Closed(t) && NoWay(t, g, p, i, Lit(g.segs[i])) && NoWay(t, g, p, i, Param)
    ensures forall d :: p + d in t && Fits(d, g.segs, i) && d != [] ==> d[0] == Wild
  {
    forall d | p + d in t && Fits(d, g.segs, i) && d != [] ensures d[0] == Wild {
      WayHead(t, g.segs, p, i, d);
    }
  }

  lemma NoWays(t: Trie, g: Goal, p: Node, i: nat)
    requires g.Ok() && i < |g.segs| && Closed(t) && p + [Wild] !in t
    requires forall d :: p + d in t && Fits(d, g.segs, i) && d != [] ==> d[0] == Wild
    ensures forall d :: p + d in t ==> !Fits(d, g.segs, i)
  {
    forall d | p + d in t ensures !Fits(d, g.segs, i) {
      if Fits(d, g.segs, i) { WayHead(t, g.segs, p, i, d); }
    }
  }

  lemma {:induction false} NotBoth(a: Node, b: Node)
    ensures !(Before(a, b) && Before(b, a))
    decreases |a|
  {
    if a != [] && b != [] && a[0] == b[0] { NotBoth(a[1..], b[1..]); }
  }

  /** Which node a path leads to depends on its segments alone, not on how it is spelled. */
  lemma SameNode(t: Trie, g: Goal, h: Goal)
    requires g.Ok() && h.Ok() && g.segs == h.segs && Closed(t) && [] in t
    ensures Search(t, g, [], 0, []).Some? <==> Search(t, h, [], 0, []).Some?
    ensures Search(t, g, [], 0, []).Some? ==> Search(t, g, [], 0, []).value.node == Search(t, h, [], 0, []).value.node
  {
    hide Search, Before, Fits, Values;
    var e := SearchFirst(t, g, [], 0, []);
    var d := SearchFirst(t, h, [], 0, []);
    NotBoth(e, d);
  }

  // -------------------------------------------------------------------- registration

  const METHODS := 10

  datatype Route = Route(id: nat, names: seq<string>)

  /** A registration: method slot, the segments of its path, and the route. */
  datatype Reg = Reg(slot: nat, segs: seq<string>, route: Route)

  predicate Special(seg: string) {
    seg != "" && (seg[0] == ':' || seg[0] == '*')
  }

  predicate Dynamic(segs: seq<string>) {
    exists j :: 0 <= j < |segs| && Special(segs[j])
  }

  function EdgeOf(seg: string): Edge
    requires seg != ""
  {
    if seg[0] == ':' then Param else if seg[0] == '*' then Wild else Lit(seg)
  }

  ghost predicate Named(segs: seq<string>) {
    forall j :: 0 <= j < |segs| ==> segs[j] != ""
  }

  /** The way a registered path takes; nothing follows a wildcard. */
  ghost function Edges(segs: seq<string>): Node
    requires Named(segs)
  {
    if segs == [] then [] else [EdgeOf(segs[0])] + (if EdgeOf(segs[0]) == Wild then [] else Edges(segs[1..]))
  }

  ghost function Names(segs: seq<string>): seq<string>
    requires Named(segs)
  {
    if segs == [] then []
    else match EdgeOf(segs[0])
      case Lit(_) => Names(segs[1..])
      case Param => [segs[0][1..]] + Names(segs[1..])
      case Wild => [segs[0][1..]]
  }

  ghost function Prefixes(e: Node): Trie {
    set k | 0 <= k <= |e| :: e[..k]
  }

  ghost predicate Legal(log: seq<Reg>) {
    forall k :: 0 <= k < |log| ==> Named(log[k].segs) && log[k].slot < METHODS
  }

  ghost function TrieOf(log: seq<Reg>): Trie
    requires Legal(log)
  {
    if log == [] then {[]}
    else
      var r := log[|log| - 1];
      TrieOf(log[..|log| - 1]) + if Dynamic(r.segs) then Prefixes(Edges(r.segs)) else {}
  }

  ghost function RoutesOf(log: seq<Reg>): map<(Node, nat), Route>
    requires Legal(log)
  {
    if log == [] then map[]
    else
      var r, before := log[|log| - 1], RoutesOf(log[..|log| - 1]);
      if Dynamic(r.segs) then before[(Edges(r.segs), r.slot) := Route(r.route.id, r.route.names + Names(r.segs))]
      else before
  }

  ghost function ExactOf(log: seq<Reg>): map<string, Route>
    requires Legal(log)
  {
    if log == [] then map[]
    else
      var r, before := log[|log| - 1], ExactOf(log[..|log| - 1]);
      if Dynamic(r.segs) then before else before[Key(r.slot, r.segs) := r.route]
  }

  /** The trie holds the nodes on the way to some registered dynamic path, and no others. */
  lemma {:induction false} TrieMembers(log: seq<Reg>, e: Node)
    requires Legal(log)
    ensures e in TrieOf(log) <==>
              e == [] || exists k :: 0 <= k < |log| && Dynamic(log[k].segs) && e <= Edges(log[k].segs)
  {
    if log != [] {
      var front, r := log[..|log| - 1], log[|log| - 1];
      TrieMembers(front, e);
      PrefixesAre(Edges(r.segs), e);
      if k :| 0 <= k < |log| && Dynamic(log[k].segs) && e <= Edges(log[k].segs) && k < |log| - 1 {
        assert front[k] == log[k];
      }
      if j :| 0 <= j < |front| && Dynamic(front[j].segs) && e <= Edges(front[j].segs) {
        assert log[j] == front[j];
      }
    }
  }

  lemma PrefixesAre(e: Node, d: Node)
    ensures d in Prefixes(e) <==> d <= e
  {
    if d <= e { assert d == e[..|d|]; }
  }

  lemma {:induction false} TrieClosed(log: seq<Reg>)
    requires Legal(log)
    ensures [] in TrieOf(log) && Closed(TrieOf(log))
  {
    if log != [] {
      TrieClosed(log[..|log| - 1]);
      var p := Edges(log[|log| - 1].segs);
      forall e | e in TrieOf(log) && e != [] ensures e[..|e| - 1] in TrieOf(log) {
        PrefixesAre(p, e);
        PrefixesAre(p, e[..|e| - 1]);
      }
    }
  }

  class Router {
    var exact: map<string, Route>
    var trie: Trie
    var routes: map<(Node, nat), Route>
    ghost var log: seq<Reg>

    ghost predicate Valid()
      reads this
    {
      Legal(log) && trie == TrieOf(log) && routes == RoutesOf(log) && exact == ExactOf(log)
    }

    constructor ()
      ensures Valid() && log == []
    {
      exact, trie, routes, log := map[], {[]}, map[], [];
    }

    /** Registration: a plain path goes to the exact table, any other into the trie. */
    method Add(slot: nat, path: string, route: Route)
      requires Valid() && slot < METHODS
      modifies this
      ensures Valid() && log == old(log) + [Reg(slot, Segs(path), route)]
    {
      hide Pieces, TrieOf, RoutesOf, ExactOf, Edges, Names, Prefixes, Key;
      var segs, ats := SplitPath(path);
      SplitIsRuns(path);
      ghost var reg := Reg(slot, segs, route);
      LogGrows(log, reg);
      if !Dynamic(segs) {
        exact := exact[Key(slot, segs) := route];
      } else {
        var node, names := Descend(segs, route.names);
        routes := routes[(node, slot) := Route(route.id, names)];
      }
      log := log + [reg];
    }

    /** Lookup: the exact table first, then the trie. */
    method Lookup(slot: nat, path: string) returns (m: Match)
      requires Valid() && slot < METHODS
      ensures m == Answer(log, slot, path)
      ensures m.route.Some? && Key(slot, Segs(path)) !in exact ==>
                exists x :: 0 <= x < |log| && Serves(log[x], slot, path, m)
    {
      m := Look(slot, path);
      if m.route.Some? && Key(slot, Segs(path)) !in exact {
        ghost var x := AnswerServes(log, slot, path);
      }
    }

    method Look(slot: nat, path: string) returns (m: Match)
      requires Valid() && slot < METHODS
      ensures m == Answer(log, slot, path)
    {
      hide Pieces, TrieOf, RoutesOf, ExactOf, Search, Key, Segs;
      var keybuf := new char[256];
      var klen := NormaliseKeyInto(slot, path, keybuf);
      var segs, ats := SplitPath(path);
      var key := if klen != 0 then keybuf[..klen] else Key(slot, segs);
      if key in exact { return Match(Some(exact[key]), false, []); }
      SplitIsRuns(path);
      var rests := seq(|segs|, j requires 0 <= j < |segs| => if ats[j] <= |path| then path[ats[j]..] else "");
      var goal := Goal(segs, rests);
      assert goal == GoalOf(path);
      var walk := new Walk(trie, goal);
      var matched := walk.Run();
      if !matched { return Match(None, false, []); }
      var node, caps := walk.node, walk.captured[..walk.capturedN];
      if (node, slot) !in routes {
        return Match(None, exists s :: 0 <= s < METHODS && (node, s) in routes, []);
      }
      var params := BindLoop(routes[(node, slot)].names, caps);
      return Match(Some(routes[(node, slot)]), false, params);
    }

    /** The loop of add(): makes the nodes that are missing along the way. */
    method Descend(segs: seq<string>, before: seq<string>) returns (node: Node, names: seq<string>)
      requires Named(segs) && [] in trie
      modifies `trie
      ensures node == Edges(segs) && names == before + Names(segs) && trie == old(trie) + Prefixes(Edges(segs))
    {
      hide Edges, Names, Prefixes;
      node, names := [], before;
      StartEdges(segs, trie);
      var j := 0;
      while j < |segs|
        invariant j <= |segs| && node + Edges(segs[j..]) == Edges(segs)
        invariant names + Names(segs[j..]) == before + Names(segs)
        invariant trie == old(trie) + Prefixes(node)
      {
        NextEdge(segs, j);
        ghost var parent := node;
        if segs[j][0] == ':' {
          names := names + [segs[j][1..]];
          node := node + [Param];
        } else if segs[j][0] == '*' {
          names := names + [segs[j][1..]];
          node := node + [Wild];
        } else {
          node := node + [Lit(segs[j])];
        }
        PrefixesGrow(parent, EdgeOf(segs[j]));
        if node !in trie { trie := trie + {node}; }
        if segs[j][0] == '*' { return; }
        j := j + 1;
      }
      NoEdges(segs);
    }
  }

  // -------------------------------------------------------------------- lookup

  datatype Match = Match(route: Option<Route>, methodMismatch: bool, params: seq<(string, string)>)

  method BindLoop(names: seq<string>, values: seq<string>) returns (out: seq<(string, string)>)
    ensures out == Bind(names, values) && |out| == Least(|names|, |values|)
    ensures forall k :: 0 <= k < |out| ==> out[k] == (names[k], values[k])
  {
    BoundPairs(names, values);
    out := [];
    var k := 0;
    assert names[0..] == names && values[0..] == values;
    while k < |values| && k < |names|
      invariant k <= |values| && k <= |names| && out + Bind(names[k..], values[k..]) == Bind(names, values)
    {
      assert names[k..][1..] == names[k + 1..] && values[k..][1..] == values[k + 1..];
      out := out + [(names[k], values[k])];
      k := k + 1;
    }
  }

  /** Names come from the route, values from the search. */
  function Bind(names: seq<string>, values: seq<string>): seq<(string, string)> {
    if names == [] || values == [] then [] else [(names[0], values[0])] + Bind(names[1..], values[1..])
  }

  function Least(a: nat, b: nat): nat {
    if a < b then a else b
  }

  lemma {:induction false} BoundPairs(names: seq<string>, values: seq<string>)
    ensures |Bind(names, values)| == Least(|names|, |values|)
    ensures forall k :: 0 <= k < |Bind(names, values)| ==> Bind(names, values)[k] == (names[k], values[k])
  {
    if names != [] && values != [] { BoundPairs(names[1..], values[1..]); }
  }

  /** How many values a way captures: one for each edge that is not a literal. */
  ghost function Dynamics(e: Node): nat {
    if e == [] then 0 else (if e[0].Lit? then 0 else 1) + Dynamics(e[1..])
  }

  lemma NoDynamics(e: Node)
    requires e == []
    ensures Dynamics(e) == 0
  {
  }

  lemma DynamicsUpTo(e: Node, j: nat)
    requires e != [] && 0 < j <= |e|
    ensures Dynamics(e[..j]) == (if e[0].Lit? then 0 else 1) + Dynamics(e[1..][..j - 1])
  {
    assert e[..j][1..] == e[1..][..j - 1];
  }

  lemma {:induction false} ValuesCount(e: Node, g: Goal, i: nat, caps: seq<string>)
    requires g.Ok() && i <= |g.segs| && Fits(e, g.segs, i) && |caps| <= MAX_PARAMS
    ensures i + |e| <= |g.segs| && caps <= Values(e, g, i, caps)
    ensures |Values(e, g, i, caps)| == Least(MAX_PARAMS, |caps| + Dynamics(e))
    decreases |e|
  {
    if e != [] {
      if e[0] == Wild {
        assert e[1..] == [];
      } else {
        ValuesCount(e[1..], g, i + 1, if e[0].Lit? then caps else Keep(caps, g.segs[i]));
      }
    }
  }

  /** A value stands in the result where its edge stands among those that capture. */
  lemma {:induction false} ValueByPlace(e: Node, g: Goal, i: nat, caps: seq<string>, j: nat)
    requires g.Ok() && i <= |g.segs| && Fits(e, g.segs, i) && |caps| <= MAX_PARAMS
    requires j < |e| && !e[j].Lit? && |caps| + Dynamics(e[..j]) < MAX_PARAMS
    ensures i + j < |g.segs| && |caps| + Dynamics(e[..j]) < |Values(e, g, i, caps)|
    ensures Values(e, g, i, caps)[|caps| + Dynamics(e[..j])] == if e[j] == Param then g.segs[i + j] else g.rests[i + j]
    decreases |e|
  {
    hide Dynamics;
    if j == 0 {
      assert Dynamics(e[..0]) == 0 by { NoDynamics(e[..0]); }
      if e[0] == Param { ValuesCount(e[1..], g, i + 1, Keep(caps, g.segs[i])); }
    } else {
      DynamicsUpTo(e, j);
      ValueByPlace(e[1..], g, i + 1, if e[0].Lit? then caps else Keep(caps, g.segs[i]), j - 1);
    }
  }

  ghost function GoalOf(path: string): (g: Goal)
    ensures g.Ok() && g.segs == Segs(path)
  {
    var ps := Pieces(path, 0);
    Goal(Segs(path), seq(|ps|, j requires 0 <= j < |ps| => if ps[j].at <= |path| then path[ps[j].at..] else ""))
  }

  /** What the registrations in `log` say about a request. */
  ghost function Answer(log: seq<Reg>, slot: nat, path: string): Match
    requires Legal(log) && slot < METHODS
  {
    var key, routes := Key(slot, Segs(path)), RoutesOf(log);
    if key in ExactOf(log) then Match(Some(ExactOf(log)[key]), false, [])
    else match Search(TrieOf(log), GoalOf(path), [], 0, [])
      case None => Match(None, false, [])
      case Some(f) =>
        if (f.node, slot) in routes then
          Match(Some(routes[(f.node, slot)]), false, Bind(routes[(f.node, slot)].names, f.caps))
        else Match(None, exists s :: 0 <= s < METHODS && (f.node, s) in routes, [])
  }

  lemma LogGrows(log: seq<Reg>, r: Reg)
    requires Legal(log) && Named(r.segs) && r.slot < METHODS
    ensures Legal(log + [r])
    ensures TrieOf(log + [r]) == TrieOf(log) + (if Dynamic(r.segs) then Prefixes(Edges(r.segs)) else {})
    ensures RoutesOf(log + [r]) ==
            if Dynamic(r.segs) then
              RoutesOf(log)[(Edges(r.segs), r.slot) := Route(r.route.id, r.route.names + Names(r.segs))]
            else RoutesOf(log)
    ensures ExactOf(log + [r]) == if Dynamic(r.segs) then ExactOf(log) else ExactOf(log)[Key(r.slot, r.segs) := r.route]
    ensures [] in TrieOf(log)
  {
    assert (log + [r])[..|log|] == log;
    TrieClosed(log);
  }

  lemma StartEdges(segs: seq<string>, t: Trie)
    requires Named(segs) && [] in t
    ensures segs[0..] == segs && [] + Edges(segs) == Edges(segs) && t + Prefixes([]) == t
  {
    forall n ensures n in Prefixes([]) ==> n == [] { PrefixesAre([], n); }
  }

  lemma NextEdge(segs: seq<string>, j: nat)
    requires Named(segs) && j < |segs|
    ensures Edges(segs[j..]) == [EdgeOf(segs[j])] + (if EdgeOf(segs[j]) == Wild then [] else Edges(segs[j + 1..]))
    ensures Names(segs[j..]) == match EdgeOf(segs[j])
                                case Lit(_) => Names(segs[j + 1..])
                                case Param => [segs[j][1..]] + Names(segs[j + 1..])
                                case Wild => [segs[j][1..]]
  {
    assert segs[j..][1..] == segs[j + 1..];
  }

  lemma NoEdges(segs: seq<string>)
    ensures Edges(segs[|segs|..]) == [] && Names(segs[|segs|..]) == []
  {
  }

  lemma PrefixesGrow(e: Node, x: Edge)
    ensures Prefixes(e + [x]) == Prefixes(e) + {e + [x]}
  {
    var d := e + [x];
    forall n ensures n in Prefixes(d) <==> n in Prefixes(e) || n == d {
      PrefixesAre(d, n);
      PrefixesAre(e, n);
      if n <= d && n != d { assert |n| <= |e| && d[..|n|] == e[..|n|]; }
    }
  }

  // ----------------------------------------------------------- what lookup promises

  /** `e` is a way some registration opened, and takes this path. */
  ghost predicate Way(log: seq<Reg>, path: string, e: Node)
    requires Legal(log)
  {
    e in TrieOf(log) && Fits(e, Segs(path), 0)
  }

  /** Off the exact table, a request gets the route at the first of all ways that take its
      path, with the values that way captures; it gets one if and only if that way ends in a
      route for its method, and a mismatch if it ends in routes for other methods only. */
  lemma AnswerIsFirst(log: seq<Reg>, slot: nat, path: string) returns (e: Node)
    requires Legal(log) && slot < METHODS && Key(slot, Segs(path)) !in ExactOf(log)
    ensures (exists d :: Way(log, path, d)) ==>
              Way(log, path, e) && forall d :: Way(log, path, d) && d != e ==> Before(e, d)
    ensures !(exists d :: Way(log, path, d)) ==> Answer(log, slot, path) == Match(None, false, [])
    ensures Answer(log, slot, path).route.Some? <==> Way(log, path, e) && (e, slot) in RoutesOf(log)
    ensures Answer(log, slot, path).methodMismatch <==>
              && Way(log, path, e) && (e, slot) !in RoutesOf(log)
              && exists s :: 0 <= s < METHODS && (e, s) in RoutesOf(log)
    ensures Way(log, path, e) && (e, slot) in RoutesOf(log) ==>
              var r := RoutesOf(log)[(e, slot)];
              Answer(log, slot, path) == Match(Some(r), false, Bind(r.names, Values(e, GoalOf(path), 0, [])))
    ensures Way(log, path, e) && (e, slot) in RoutesOf(log) ==>
              var names, ps := RoutesOf(log)[(e, slot)].names, Answer(log, slot, path).params;
              && |ps| == Least(|names|, Least(MAX_PARAMS, Dynamics(e)))
              && forall j :: 0 <= j < |e| && !e[j].Lit? && Dynamics(e[..j]) < |ps| ==>
                   && ps[Dynamics(e[..j])].0 == names[Dynamics(e[..j])]
                   && Placed(e, j, path, ps[Dynamics(e[..j])].1)
  {
    hide Dynamics, Placed, Bind;
    hide Search, Fits, Before, Values, TrieOf, RoutesOf, ExactOf, Key, Segs, GoalOf;
    var t, g := TrieOf(log), GoalOf(path);
    TrieClosed(log);
    e := SearchFirst(t, g, [], 0, []);
    assert forall d: Node :: [] + d == d;
    if Search(t, g, [], 0, []).None? {
      assert forall d :: [] + d in t ==> !Fits(d, g.segs, 0);
      forall d ensures !Way(log, path, d) { assert [] + d == d; }
    } else {
      assert [] + e == e && Way(log, path, e);
      forall d | Way(log, path, d) && d != e ensures Before(e, d) { assert [] + d == d; }
      if (e, slot) in RoutesOf(log) { ParamsByPlace(RoutesOf(log)[(e, slot)].names, e, path); }
    }
  }

  /** The value for the j-th edge of a way: the segment that stands there, or the path from there on. */
  ghost predicate Placed(e: Node, j: nat, path: string, v: string) {
    j < |e| && j < |Segs(path)| && if e[j] == Param then v == Segs(path)[j] else RestFrom(path, j, v)
  }

  lemma ParamsByPlace(names: seq<string>, e: Node, path: string)
    requires Fits(e, Segs(path), 0)
    ensures var ps := Bind(names, Values(e, GoalOf(path), 0, []));
            && |ps| == Least(|names|, Least(MAX_PARAMS, Dynamics(e)))
            && forall j :: 0 <= j < |e| && !e[j].Lit? && Dynamics(e[..j]) < |ps| ==>
                 && ps[Dynamics(e[..j])].0 == names[Dynamics(e[..j])]
                 && Placed(e, j, path, ps[Dynamics(e[..j])].1)
  {
    hide Fits, Values, Segs, GoalOf, Bind, Dynamics, RestFrom;
    var g := GoalOf(path);
    var ps := Bind(names, Values(e, g, 0, []));
    ValuesCount(e, g, 0, []);
    BoundPairs(names, Values(e, g, 0, []));
    forall j | 0 <= j < |e| && !e[j].Lit? && Dynamics(e[..j]) < |ps|
      ensures ps[Dynamics(e[..j])].0 == names[Dynamics(e[..j])] && Placed(e, j, path, ps[Dynamics(e[..j])].1)
    {
      ValueByPlace(e, g, 0, [], j);
      RestOfGoal(path, j);
    }
  }

  // --------------------------------------------------- a pattern and the paths it takes

  /** No star stands before the j-th segment of the pattern. */
  ghost predicate Reached(pattern: seq<string>, j: nat) {
    forall i :: 0 <= i < j && i < |pattern| ==> pattern[i] != "" && pattern[i][0] != '*'
  }

  /** Segment by segment: literals the same, a name any, a star one or more to the end. */
  ghost predicate Takes(pattern: seq<string>, segs: seq<string>) {
    && (forall j :: 0 <= j < |pattern| && Reached(pattern, j) ==>
          j < |segs| && (Special(pattern[j]) || pattern[j] == segs[j]))
    && (Reached(pattern, |pattern|) ==> |segs| == |pattern|)
  }

  /** The pattern's holes: its named segments, up to and with a star. */
  ghost function Holes(pattern: seq<string>): nat
    requires Named(pattern)
  {
    if pattern == [] then 0
    else if pattern[0][0] == '*' then 1
    else (if pattern[0][0] == ':' then 1 else 0) + Holes(pattern[1..])
  }

  lemma ReachedBehind(pattern: seq<string>, j: nat)
    requires Named(pattern) && 0 < j <= |pattern|
    ensures Reached(pattern, j) <==> pattern[0][0] != '*' && Reached(pattern[1..], j - 1)
  {
    if pattern[0][0] != '*' && Reached(pattern[1..], j - 1) {
      forall i | 0 <= i < j ensures pattern[i][0] != '*' { if i > 0 { assert pattern[i] == pattern[1..][i - 1]; } }
    }
    if Reached(pattern, j) {
      forall i | 0 <= i < j - 1 ensures pattern[1..][i][0] != '*' { assert pattern[1..][i] == pattern[i + 1]; }
    }
  }

  lemma TakesHead(pattern: seq<string>, segs: seq<string>)
    requires Named(pattern) && pattern != []
    ensures Takes(pattern, segs) <==>
              && segs != [] && (Special(pattern[0]) || pattern[0] == segs[0])
              && (pattern[0][0] == '*' || Takes(pattern[1..], segs[1..]))
  {
    hide Special;
    assert Reached(pattern, 0);
    ReachedBehind(pattern, |pattern|);
    assert pattern[0][0] == '*' ==> forall j :: 0 < j ==> !Reached(pattern, j);
    hide Reached;
    var p, s := pattern[1..], if segs == [] then [] else segs[1..];
    if segs != [] && pattern[0][0] != '*' {
      if Takes(pattern, segs) {
        forall j | 0 <= j < |p| && Reached(p, j) ensures j < |s| && (Special(p[j]) || p[j] == s[j]) {
          ReachedBehind(pattern, j + 1);
        }
      }
      if Takes(p, s) && (Special(pattern[0]) || pattern[0] == segs[0]) {
        forall j | 0 <= j < |pattern| && Reached(pattern, j)
          ensures j < |segs| && (Special(pattern[j]) || pattern[j] == segs[j])
        {
          if j > 0 {
            ReachedBehind(pattern, j);
            assert pattern[j] == p[j - 1];
          }
        }
      }
    }
  }

  /** The way of a pattern fits exactly the paths the pattern takes. */
  lemma {:induction false} FitsIsTakes(pattern: seq<string>, segs: seq<string>, i: nat)
    requires Named(pattern) && i <= |segs|
    ensures Fits(Edges(pattern), segs, i) <==> Takes(pattern, segs[i..])
    decreases |pattern|
  {
    hide Takes;
    if pattern == [] {
      TakesNothing(segs[i..]);
    } else {
      TakesHead(pattern, segs[i..]);
      if i < |segs| {
        FitsIsTakes(pattern[1..], segs, i + 1);
        assert segs[i..][1..] == segs[i + 1..];
      }
    }
  }

  lemma TakesNothing(segs: seq<string>)
    ensures Takes([], segs) <==> segs == []
  {
    assert Reached([], 0);
  }

  /** The names of a pattern stand where its holes stand. */
  lemma {:induction false} NamesByPlace(pattern: seq<string>, j: nat)
    requires Named(pattern) && j < |pattern| && Special(pattern[j]) && Reached(pattern, j)
    ensures j < |Edges(pattern)| && Edges(pattern)[j] == EdgeOf(pattern[j]) && !Edges(pattern)[j].Lit?
    ensures Dynamics(Edges(pattern)[..j]) == Holes(pattern[..j]) < |Names(pattern)|
    ensures Names(pattern)[Holes(pattern[..j])] == pattern[j][1..]
    decreases |pattern|
  {
    if j > 0 {
      ReachedBehind(pattern, j);
      NamesByPlace(pattern[1..], j - 1);
      DynamicsUpTo(Edges(pattern), j);
      assert Edges(pattern)[1..] == Edges(pattern[1..]);
      assert pattern[..j][1..] == pattern[1..][..j - 1];
      assert Holes(pattern[..j]) == (if pattern[0][0] == ':' then 1 else 0) + Holes(pattern[1..][..j - 1]);
    }
  }

  lemma {:induction false} NamesCount(pattern: seq<string>)
    requires Named(pattern)
    ensures |Names(pattern)| == Dynamics(Edges(pattern)) == Holes(pattern)
  {
    if pattern != [] {
      NamesCount(pattern[1..]);
      assert Edges(pattern)[1..] == if EdgeOf(pattern[0]) == Wild then [] else Edges(pattern[1..]);
    }
  }

  /** The parameter for the hole at the j-th segment: its name, and the segment of the path that
      stands there, or for a star the rest of the path from there. */
  ghost predicate Filled(pattern: seq<string>, j: nat, path: string, p: (string, string)) {
    && j < |pattern| && j < |Segs(path)| && pattern[j] != "" && p.0 == pattern[j][1..]
    && if pattern[j][0] == ':' then p.1 == Segs(path)[j] else RestFrom(path, j, p.1)
  }

  /** The answer is that of a registration whose pattern takes the path, and its parameters are the
      pattern's holes in order, up to the slot limit, each filled from the path. */
  ghost predicate Serves(r: Reg, slot: nat, path: string, m: Match) {
    && r.slot == slot && Named(r.segs) && Takes(r.segs, Segs(path)) && m.route.Some? && m.route.value.id == r.route.id
    && (r.route.names == [] ==>
          && |m.params| == Least(MAX_PARAMS, Holes(r.segs))
          && forall j :: 0 <= j < |r.segs| && Special(r.segs[j]) && Reached(r.segs, j)
                         && Holes(r.segs[..j]) < MAX_PARAMS ==>
               Holes(r.segs[..j]) < |m.params| && Filled(r.segs, j, path, m.params[Holes(r.segs[..j])]))
  }

  /** Who answers a request that is not in the exact table. */
  lemma AnswerServes(log: seq<Reg>, slot: nat, path: string) returns (x: nat)
    requires Legal(log) && slot < METHODS && Key(slot, Segs(path)) !in ExactOf(log)
    requires Answer(log, slot, path).route.Some?
    ensures x < |log| && Serves(log[x], slot, path, Answer(log, slot, path))
  {
    hide Search, Fits, Before, Values, TrieOf, RoutesOf, ExactOf, Key, Segs, GoalOf, Takes, Serves, Answer, Edges;
    hide Names;
    var e := AnswerIsFirst(log, slot, path);
    x := LastRegistrationWins(log, e, slot);
    assert Segs(path)[0..] == Segs(path);
    FitsIsTakes(log[x].segs, Segs(path), 0);
    IsServed(log[x], slot, path, Answer(log, slot, path), e);
  }

  lemma IsServed(r: Reg, slot: nat, path: string, m: Match, e: Node)
    requires Named(r.segs) && r.slot == slot && Takes(r.segs, Segs(path))
    requires e == Edges(r.segs) && Fits(e, Segs(path), 0)
    requires var names := r.route.names + Names(r.segs);
             m == Match(Some(Route(r.route.id, names)), false, Bind(names, Values(e, GoalOf(path), 0, [])))
    ensures Serves(r, slot, path, m)
  {
    hide Fits, Values, Segs, GoalOf, Takes, Edges, Names, Bind, Filled, Reached, Holes, Special, Dynamics, Placed;
    NamesCount(r.segs);
    if r.route.names == [] {
      assert r.route.names + Names(r.segs) == Names(r.segs);
      ParamsByPlace(Names(r.segs), e, path);
      forall j | 0 <= j < |r.segs| && Special(r.segs[j]) && Reached(r.segs, j) && Holes(r.segs[..j]) < MAX_PARAMS
        ensures Holes(r.segs[..j]) < |m.params| && Filled(r.segs, j, path, m.params[Holes(r.segs[..j])])
      {
        NamesByPlace(r.segs, j);
        assert !e[j].Lit? && Dynamics(e[..j]) < |m.params|;
        IsFilled(r.segs, j, path, m.params[Holes(r.segs[..j])]);
      }
    }
  }

  lemma IsFilled(pattern: seq<string>, j: nat, path: string, p: (string, string))
    requires Named(pattern) && j < |pattern| && j < |Edges(pattern)| && Edges(pattern)[j] == EdgeOf(pattern[j])
    requires Special(pattern[j]) && p.0 == pattern[j][1..] && Placed(Edges(pattern), j, path, p.1)
    ensures Filled(pattern, j, path, p)
  {
  }

  lemma RestOfGoal(path: string, j: nat)
    requires j < |Segs(path)|
    ensures RestFrom(path, j, GoalOf(path).rests[j])
  {
    hide Pieces, RestFrom;
    PieceStarts(path, j);
  }

  /** A path without parameters answers for its own method only: registered for another, it changes
      nothing, not even to a mismatch. */
  lemma StaticIsForItsMethod(log: seq<Reg>, other: nat, plain: string, route: Route, slot: nat, path: string)
    requires Legal(log) && other < METHODS && slot < METHODS && !Dynamic(Segs(plain)) && Named(Segs(plain))
    requires other != slot || Segs(plain) != Segs(path)
    ensures Legal(log + [Reg(other, Segs(plain), route)])
    ensures Answer(log + [Reg(other, Segs(plain), route)], slot, path) == Answer(log, slot, path)
  {
    hide Search, TrieOf, RoutesOf, ExactOf, Key, Segs, GoalOf, Edges, Names, Prefixes;
    KeyIsInjective(other, plain, slot, path);
    LogGrows(log, Reg(other, Segs(plain), route));
    assert TrieOf(log) + {} == TrieOf(log);
  }

  /** So a request for a path that is registered for another method is told that nothing is there. */
  lemma StaticMismatchIsLost()
    ensures var log := [Reg(0, Segs("/a"), Route(1, []))];
            && Legal(log) && Answer(log, 0, "/a").route == Some(Route(1, []))
            && Answer(log, 1, "/a") == Match(None, false, [])
  {
    hide Search, TrieOf, RoutesOf, ExactOf, Key, Segs, GoalOf, Edges, Names, Prefixes, Answer, Fits;
    OneSegment();
    StaticIsForItsMethod([], 0, "/a", Route(1, []), 1, "/a");
    EmptyRouter(1, "/a");
    LogGrows([], Reg(0, Segs("/a"), Route(1, [])));
    assert [] + [Reg(0, Segs("/a"), Route(1, []))] == [Reg(0, Segs("/a"), Route(1, []))];
    ExactAnswers([Reg(0, Segs("/a"), Route(1, []))], 0, "/a");
  }

  lemma OneSegment()
    ensures Segs("/a") == ["a"] && !Dynamic(["a"]) && Named(["a"])
  {
    SplitJoin("", ["a"]);
    assert Join(["a"][1..]) == "" && "" + Join(["a"]) == "/a";
  }

  lemma ExactAnswers(log: seq<Reg>, slot: nat, path: string)
    requires Legal(log) && slot < METHODS && Key(slot, Segs(path)) in ExactOf(log)
    ensures Answer(log, slot, path) == Match(Some(ExactOf(log)[Key(slot, Segs(path))]), false, [])
  {
    hide Search, TrieOf, RoutesOf, ExactOf, Key, Segs, GoalOf;
  }

  lemma EmptyRouter(slot: nat, path: string)
    requires slot < METHODS && |Segs(path)| > 0
    ensures Answer([], slot, path) == Match(None, false, [])
  {
    hide Segs, GoalOf, Key, Answer;
    NoTables();
    var e := AnswerIsFirst([], slot, path);
    assert forall d :: !Way([], path, d);
  }

  /** The route at a node is that of the last registration that ends there. */
  lemma {:induction false} LastRegistrationWins(log: seq<Reg>, e: Node, slot: nat) returns (k: nat)
    requires Legal(log)
    ensures (e, slot) !in RoutesOf(log) ==> forall j :: 0 <= j < |log| ==> !EndsAt(log[j], e, slot)
    ensures (e, slot) in RoutesOf(log) ==>
              && k < |log| && EndsAt(log[k], e, slot) && (forall j :: k < j < |log| ==> !EndsAt(log[j], e, slot))
              && RoutesOf(log)[(e, slot)] == Route(log[k].route.id, log[k].route.names + Names(log[k].segs))
  {
    hide RoutesOf, Edges, Names, Dynamic, TrieOf, ExactOf, Named, Prefixes, Key;
    k := 0;
    if log == [] {
      NoTables();
    } else {
      var front, r := log[..|log| - 1], log[|log| - 1];
      LogGrows(front, r);
      assert front + [r] == log;
      k := LastRegistrationWins(front, e, slot);
      assert forall j :: 0 <= j < |front| ==> front[j] == log[j];
      if EndsAt(r, e, slot) { k := |front|; }
    }
  }

  ghost predicate EndsAt(r: Reg, e: Node, slot: nat) {
    Named(r.segs) && Dynamic(r.segs) && Edges(r.segs) == e && r.slot == slot
  }

  /** How a path is spelled does not matter: slashes may be doubled or trail. */
  lemma SpellingDoesNotMatter(log: seq<Reg>, slot: nat, path: string, other: string)
    requires Legal(log) && slot < METHODS && Segs(path) == Segs(other)
    ensures Answer(log, slot, path).route == Answer(log, slot, other).route
    ensures Answer(log, slot, path).methodMismatch == Answer(log, slot, other).methodMismatch
  {
    hide Search, TrieOf, RoutesOf, ExactOf, Key, Segs, GoalOf;
    TrieClosed(log);
    SameNode(TrieOf(log), GoalOf(path), GoalOf(other));
  }

  /** The search does not go back from a node without a route. With "/a/:x" and "/a/b/:y"
      registered, "/a/b" ends at the inner node of the second and finds nothing, although the
      first takes it. */
  lemma InnerNodeHidesRoute()
    ensures var log := [Reg(0, ["a", ":x"], Route(1, [])), Reg(0, ["a", "b", ":y"], Route(2, []))];
            && Legal(log) && Segs("/a/b") == ["a", "b"]
            && Way(log, "/a/b", [Lit("a"), Param]) && ([Lit("a"), Param], 0) in RoutesOf(log)
            && Answer(log, 0, "/a/b").route == None
  {
    hide RoutesOf, ExactOf, TrieOf, Edges, Search, Before, Values, Segs, Pieces, Join, Fits, Answer, Legal;
    hide GoalOf, Key, Bind, Dynamics, Placed;
    var log := [Reg(0, ["a", ":x"], Route(1, [])), Reg(0, ["a", "b", ":y"], Route(2, []))];
    var ab, ax := [Lit("a"), Lit("b")], [Lit("a"), Param];
    TwoTables();
    TwoSegments();
    TwoFits();
    assert Way(log, "/a/b", ab) && Way(log, "/a/b", ax);
    var e := AnswerIsFirst(log, 0, "/a/b");
    if e != ab { NothingBefore(e, ["a", "b"]); }
  }

  /** The pattern "/users/:id" gives a request for "/users/7" its id. */
  lemma UserById()
    ensures var log := [Reg(0, ["users", ":id"], Route(1, []))];
            && Legal(log) && Segs("/users/7") == ["users", "7"]
            && Answer(log, 0, "/users/7") == Match(Some(Route(1, ["id"])), false, [("id", "7")])
  {
    hide RoutesOf, ExactOf, TrieOf, Edges, Names, Search, Before, Values, Segs, Pieces, Join, Fits, Answer, Legal;
    hide GoalOf, Key, Bind, Keep, Dynamics, Placed;
    var way := [Lit("users"), Param];
    UserTables();
    UserPath();
    UserFits(GoalOf("/users/7"));
    assert Way([Reg(0, ["users", ":id"], Route(1, []))], "/users/7", way);
    var e := AnswerIsFirst([Reg(0, ["users", ":id"], Route(1, []))], 0, "/users/7");
  }

  lemma UserPath()
    ensures Segs("/users/7") == ["users", "7"]
  {
    hide Pieces;
    SplitJoin("", ["users", "7"]);
    assert Join(["7"][1..]) == "" && Join(["users", "7"][1..]) == "/7" && "" + Join(["users", "7"]) == "/users/7";
  }

  lemma UserFits(g: Goal)
    requires g.Ok() && g.segs == ["users", "7"]
    ensures Fits([Lit("users"), Param], g.segs, 0) && !Fits([], g.segs, 0) && !Fits([Lit("users")], g.segs, 0)
    ensures Bind(["id"], Values([Lit("users"), Param], g, 0, [])) == [("id", "7")]
  {
    var way, param, lit: Node := [Lit("users"), Param], [Param], [Lit("users")];
    assert way[1..] == param && param[1..] == [] && lit[1..] == [];
    assert Fits(param, g.segs, 1);
    assert Values(param, g, 1, []) == ["7"];
  }

  lemma UserTables()
    ensures var log := [Reg(0, ["users", ":id"], Route(1, []))];
            && Legal(log) && ExactOf(log) == map[] && TrieOf(log) == {[], [Lit("users")], [Lit("users"), Param]}
            && RoutesOf(log) == map[([Lit("users"), Param], 0) := Route(1, ["id"])]
  {
    hide RoutesOf, ExactOf, TrieOf, Edges, Names, Prefixes, Key, Special, Dynamic, Named;
    var r := Reg(0, ["users", ":id"], Route(1, []));
    UserPattern();
    UserPrefixes();
    LogGrows([], r);
    NoTables();
    assert [] + [r] == [r] && r.route.names + Names(r.segs) == ["id"];
    var none: map<(Node, nat), Route> := map[];
    assert none[([Lit("users"), Param], 0) := Route(1, ["id"])] == map[([Lit("users"), Param], 0) := Route(1, ["id"])];
  }

  lemma UserPattern()
    ensures var pattern := ["users", ":id"];
            && Named(pattern) && Dynamic(pattern)
            && Edges(pattern) == [Lit("users"), Param] && Names(pattern) == ["id"]
  {
    var pattern := ["users", ":id"];
    assert Special(pattern[1]);
    assert pattern[1..] == [":id"] && [":id"][1..] == [];
    assert Edges([":id"]) == [Param] && Names([":id"]) == ["id"];
  }

  lemma UserPrefixes()
    ensures Prefixes([Lit("users"), Param]) == {[], [Lit("users")], [Lit("users"), Param]}
  {
    hide Prefixes;
    assert [] + [Lit("users")] == [Lit("users")] && [Lit("users")] + [Param] == [Lit("users"), Param];
    PrefixesGrow([], Lit("users"));
    PrefixesGrow([Lit("users")], Param);
    forall d ensures d in Prefixes([]) <==> d == [] { PrefixesAre([], d); }
  }

  lemma TwoFits()
    ensures Fits([Lit("a"), Lit("b")], ["a", "b"], 0) && Fits([Lit("a"), Param], ["a", "b"], 0)
  {
    var ab, ax := [Lit("a"), Lit("b")], [Lit("a"), Param];
    assert ax[1..] == [Param] && [Param][1..] == [] && ab[1..] == [Lit("b")] && [Lit("b")][1..] == [];
  }

  lemma TwoSegments()
    ensures Segs("/a/b") == ["a", "b"]
  {
    SplitJoin("", ["a", "b"]);
    assert Join(["b"][1..]) == "" && Join(["a", "b"][1..]) == "/b" && "" + Join(["a", "b"]) == "/a/b";
  }

  lemma TwoTables()
    ensures var log := [Reg(0, ["a", ":x"], Route(1, [])), Reg(0, ["a", "b", ":y"], Route(2, []))];
            && Legal(log) && ExactOf(log) == map[]
            && [Lit("a"), Param] in TrieOf(log) && [Lit("a"), Lit("b")] in TrieOf(log)
            && RoutesOf(log).Keys == {([Lit("a"), Param], 0), ([Lit("a"), Lit("b"), Param], 0)}
  {
    var r0, r1 := Reg(0, ["a", ":x"], Route(1, [])), Reg(0, ["a", "b", ":y"], Route(2, []));
    hide RoutesOf, ExactOf, TrieOf, Edges, Names, Prefixes, Key;
    assert Special(r0.segs[1]) && Special(r1.segs[2]);
    NoTables();
    TwoEdges(":x");
    ThreeEdges();
    LogGrows([], r0);
    LogGrows([r0], r1);
    assert [] + [r0] == [r0] && [r0] + [r1] == [r0, r1];
    PrefixesAre([Lit("a"), Param], [Lit("a"), Param]);
    PrefixesAre([Lit("a"), Lit("b"), Param], [Lit("a"), Lit("b")]);
  }

  lemma NoTables()
    ensures RoutesOf([]) == map[] && ExactOf([]) == map[] && TrieOf([]) == {[]}
  {
  }

  lemma TwoEdges(x: string)
    requires x != "" && x[0] == ':'
    ensures Edges(["a", x]) == [Lit("a"), Param]
  {
    assert ["a", x][1..] == [x] && [x][1..] == [];
    assert Edges([x]) == [Param];
    assert EdgeOf("a") == Lit("a");
  }

  lemma ThreeEdges()
    ensures Edges(["a", "b", ":y"]) == [Lit("a"), Lit("b"), Param]
  {
    assert ["a", "b", ":y"][1..] == ["b", ":y"] && ["b", ":y"][1..] == [":y"] && [":y"][1..] == [];
    assert Edges([":y"]) == [Param];
    assert Edges(["b", ":y"]) == [Lit("b"), Param];
  }

  lemma NothingBefore(e: Node, segs: seq<string>)
    requires |segs| == 2 && Fits(e, segs, 0)
    ensures !Before(e, [Lit(segs[0]), Lit(segs[1])])
  {
    var ab := [Lit(segs[0]), Lit(segs[1])];
    var b := [Lit(segs[1])];
    assert ab[1..] == b && b[1..] == [];
    if e[0] == ab[0] {
      assert !Before(e[1..], b) by { if e[1..] != [] && e[1..][0] == b[0] { assert !Before(e[1..][1..], []); } }
    }
  }
}
