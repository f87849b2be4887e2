/** Request paths as segments: splitting, the normal form, and the key built in a fixed buffer. */
module Paths {

  /** A segment and where in the path it starts. */
  datatype Piece = Piece(at: nat, text: string)

  predicate Proper(s: string) {
    s != "" && '/' !in s
  }

  ghost function SkipSlashes(path: string, i: nat): (r: nat)
    requires i <= |path|
    ensures i <= r <= |path| && (forall k :: i <= k < r ==> path[k] == '/') && (r < |path| ==> path[r] != '/')
    decreases |path| - i
  {
    if i < |path| && path[i] == '/' then SkipSlashes(path, i + 1) else i
  }

  ghost function NextSlash(path: string, i: nat): (r: nat)
    requires i <= |path|
    ensures i <= r <= |path| && (forall k :: i <= k < r ==> path[k] != '/') && (r < |path| ==> path[r] == '/')
    ensures i < |path| && path[i] != '/' ==> i < r
    decreases |path| - i
  {
    if i < |path| && path[i] != '/' then NextSlash(path, i + 1) else i
  }

  ghost function Pieces(path: string, i: nat): seq<Piece>
    requires i <= |path|
    decreases |path| - i
  {
    var a := SkipSlashes(path, i);
    if a == |path| then []
    else
      var b := NextSlash(path, a);
      [Piece(a, path[a..b])] + Pieces(path, b)
  }

  ghost function Texts(ps: seq<Piece>): seq<string> {
    seq(|ps|, j requires 0 <= j < |ps| => ps[j].text)
  }

  ghost function Segs(path: string): seq<string> {
    Texts(Pieces(path, 0))
  }

  /** A piece is a whole run of characters between slashes. */
  ghost predicate WholeRun(path: string, p: Piece) {
    && Proper(p.text) && p.at + |p.text| <= |path| && path[p.at..p.at + |p.text|] == p.text
    && (p.at > 0 ==> path[p.at - 1] == '/') && (p.at + |p.text| < |path| ==> path[p.at + |p.text|] == '/')
  }

  lemma {:induction false} PiecesAreRuns(path: string, i: nat)
    requires i <= |path| && (0 < i < |path| ==> path[i] == '/' || path[i - 1] == '/')
    ensures forall j :: 0 <= j < |Pieces(path, i)| ==> WholeRun(path, Pieces(path, i)[j]) && Pieces(path, i)[j].at >= i
    ensures forall j, k :: 0 <= j < k < |Pieces(path, i)| ==> Pieces(path, i)[j].at < Pieces(path, i)[k].at
    decreases |path| - i
  {
    var a := SkipSlashes(path, i);
    if a < |path| {
      var b := NextSlash(path, a);
      var first, rest := Piece(a, path[a..b]), Pieces(path, b);
      assert Pieces(path, i) == [first] + rest;
      hide Pieces, SkipSlashes, NextSlash;
      assert WholeRun(path, first) by { assert a > 0 ==> path[a - 1] == '/'; }
      PiecesAreRuns(path, b);
    }
  }

  ghost predicate Inside(c: nat, p: Piece) {
    p.at <= c < p.at + |p.text|
  }

  lemma {:induction false} PiecesCover(path: string, i: nat, c: nat) returns (j: nat)
    requires i <= c < |path| && path[c] != '/'
    ensures j < |Pieces(path, i)| && Inside(c, Pieces(path, i)[j])
    decreases |path| - i
  {
    var a := SkipSlashes(path, i);
    var b := NextSlash(path, a);
    if c < b {
      j := 0;
    } else {
      j := PiecesCover(path, b, c);
      j := j + 1;
    }
  }

  /** The pieces of a path are exactly its runs of non-slash characters, in order. */
  lemma SplitIsRuns(path: string)
    ensures forall j :: 0 <= j < |Pieces(path, 0)| ==> WholeRun(path, Pieces(path, 0)[j])
    ensures forall j, k :: 0 <= j < k < |Pieces(path, 0)| ==> Pieces(path, 0)[j].at < Pieces(path, 0)[k].at
    ensures forall c :: 0 <= c < |path| && path[c] != '/' ==>
              exists j :: 0 <= j < |Pieces(path, 0)| && Inside(c, Pieces(path, 0)[j])
    ensures forall j :: 0 <= j < |Segs(path)| ==> Proper(Segs(path)[j])
  {
    PiecesAreRuns(path, 0);
    forall c | 0 <= c < |path| && path[c] != '/'
      ensures exists j :: 0 <= j < |Pieces(path, 0)| && Inside(c, Pieces(path, 0)[j])
    {
      var j := PiecesCover(path, 0, c);
    }
  }

  lemma {:induction false} ScansShift(path: string, a: nat, i: nat)
    requires a + i <= |path|
    ensures SkipSlashes(path, a + i) == a + SkipSlashes(path[a..], i)
    ensures NextSlash(path, a + i) == a + NextSlash(path[a..], i)
    decreases |path| - i
  {
    if a + i < |path| {
      assert path[a..][i] == path[a + i];
      ScansShift(path, a, i + 1);
    }
  }

  lemma {:induction false} PiecesShift(path: string, a: nat, i: nat)
    requires a + i <= |path|
    ensures Texts(Pieces(path[a..], i)) == Texts(Pieces(path, a + i))
    decreases |path| - i
  {
    hide SkipSlashes, NextSlash, Pieces, Texts;
    var rest, s := path[a..], SkipSlashes(path[a..], i);
    ScansShift(path, a, i);
    if s < |rest| {
      var b := NextSlash(rest, s);
      ScansShift(path, a, s);
      PieceNext(rest, i);
      PieceNext(path, a + i);
      PiecesShift(path, a, b);
      assert rest[s..b] == path[a + s..a + b];
    } else {
      PieceNone(rest, i);
      PieceNone(path, a + i);
    }
  }

  lemma {:induction false} PiecesFrom(path: string, i: nat, j: nat)
    requires i <= |path| && j < |Pieces(path, i)|
    ensures Pieces(path, i)[j].at <= |path| && Pieces(path, Pieces(path, i)[j].at) == Pieces(path, i)[j..]
    decreases j
  {
    var a := SkipSlashes(path, i);
    if j == 0 {
      assert SkipSlashes(path, a) == a;
    } else {
      var b := NextSlash(path, a);
      PiecesFrom(path, b, j - 1);
      assert Pieces(path, i)[j..] == Pieces(path, b)[j - 1..];
    }
  }

  /** `rest` is the path from where its j-th segment starts: a suffix that starts with a segment
      and has the segments from the j-th on. */
  ghost predicate RestFrom(path: string, j: nat, rest: string) {
    && 0 < |rest| <= |path| && path[|path| - |rest|..] == rest && rest[0] != '/'
    && j < |Segs(path)| && Segs(rest) == Segs(path)[j..]
  }

  lemma PieceStarts(path: string, j: nat)
    requires j < |Segs(path)|
    ensures var at := Pieces(path, 0)[j].at; at < |path| && RestFrom(path, j, path[at..])
  {
    hide Pieces, SkipSlashes, NextSlash;
    var at := Pieces(path, 0)[j].at;
    RunStarts(path, j);
    PiecesFrom(path, 0, j);
    PiecesShift(path, at, 0);
    TextsFrom(Pieces(path, 0), j);
  }

  lemma RunStarts(path: string, j: nat)
    requires j < |Pieces(path, 0)|
    ensures var at := Pieces(path, 0)[j].at; at < |path| && path[at] != '/'
  {
    hide Pieces;
    PiecesAreRuns(path, 0);
    var p := Pieces(path, 0)[j];
    assert WholeRun(path, p) && path[p.at] == p.text[0];
  }

  lemma TextsFrom(ps: seq<Piece>, j: nat)
    requires j < |ps|
    ensures Texts(ps[j..]) == Texts(ps)[j..]
  {
  }

  method Skip(path: string, from: nat) returns (i: nat)
    requires from <= |path|
    ensures i == SkipSlashes(path, from)
  {
    i := from;
    while i < |path| && path[i] == '/'
      invariant i <= |path| && SkipSlashes(path, i) == SkipSlashes(path, from)
    {
      i := i + 1;
    }
  }

  method FindSlash(path: string, from: nat) returns (i: nat)
    requires from <= |path|
    ensures i == NextSlash(path, from)
  {
    i := from;
    while i < |path| && path[i] != '/'
      invariant i <= |path| && NextSlash(path, i) == NextSlash(path, from)
    {
      i := i + 1;
    }
  }

  /** split_path(): the segments, and where each one starts. */
  method SplitPath(path: string) returns (segs: seq<string>, ats: seq<nat>)
    ensures |segs| == |ats| == |Pieces(path, 0)|
    ensures forall j :: 0 <= j < |segs| ==> Piece(ats[j], segs[j]) == Pieces(path, 0)[j]
    ensures segs == Segs(path)
  {
    hide SkipSlashes, NextSlash, Pieces;
    segs, ats := [], [];
    ghost var done: seq<Piece> := [];
    var i := 0;
    assert [] + Pieces(path, 0) == Pieces(path, 0);
    while i < |path|
      invariant i <= |path| && done + Pieces(path, i) == Pieces(path, 0)
      invariant |segs| == |ats| == |done| && forall j :: 0 <= j < |done| ==> Piece(ats[j], segs[j]) == done[j]
      decreases |path| - i
    {
      ghost var i0 := i;
      i := Skip(path, i);
      if i >= |path| {
        EndPieces(path, done, i0);
        return;
      }
      var j := FindSlash(path, i);
      MorePieces(path, done, i0);
      segs, ats := segs + [path[i..j]], ats + [i];
      done := done + [Piece(i, path[i..j])];
      i := j;
    }
    EndPieces(path, done, i);
  }

  lemma MorePieces(path: string, done: seq<Piece>, i: nat)
    requires i <= |path| && SkipSlashes(path, i) < |path|
    ensures var a := SkipSlashes(path, i);
            var b := NextSlash(path, a);
            a < b <= |path| && done + Pieces(path, i) == done + [Piece(a, path[a..b])] + Pieces(path, b)
  {
  }

  lemma EndPieces(path: string, done: seq<Piece>, i: nat)
    requires i <= |path| && done + Pieces(path, i) == Pieces(path, 0) && (i == |path| || SkipSlashes(path, i) == |path|)
    ensures done == Pieces(path, 0)
  {
    assert SkipSlashes(path, i) == |path|;
    assert Pieces(path, i) == [];
  }

  // ------------------------------------------------------------------ normal form

  function Join(segs: seq<string>): string {
    if segs == [] then "" else "/" + segs[0] + Join(segs[1..])
  }

  function Normalise(segs: seq<string>): string {
    if segs == [] then "/" else Join(segs)
  }

  lemma {:induction false} JoinConcat(a: seq<string>, b: seq<string>)
    ensures Join(a + b) == Join(a) + Join(b)
  {
    if a == [] {
      assert a + b == b;
    } else {
      JoinConcat(a[1..], b);
      assert (a + b)[1..] == a[1..] + b;
    }
  }

  lemma FirstOfJoin(path: string, pre: string, s: string, rest: string)
    requires Proper(s) && path == pre + "/" + s + rest && (rest != "" ==> rest[0] == '/')
    ensures SkipSlashes(path, |pre|) == |pre| + 1 && NextSlash(path, |pre| + 1) == |pre| + 1 + |s|
    ensures path[|pre| + 1..|pre| + 1 + |s|] == s && |pre| + 1 + |s| <= |path|
  {
    var a := |pre| + 1;
    assert path[|pre|] == '/' && path[a] == s[0];
    assert path[a..a + |s|] == s;
    RunEnds(path, a, s, NextSlash(path, a));
  }

  /** A joined path splits back into its segments, wherever it stands. */
  lemma {:induction false} SplitJoin(pre: string, segs: seq<string>)
    requires forall j :: 0 <= j < |segs| ==> Proper(segs[j])
    ensures Texts(Pieces(pre + Join(segs), |pre|)) == segs
    decreases |segs|
  {
    hide SkipSlashes, NextSlash, Pieces, Texts;
    var path := pre + Join(segs);
    if segs == [] {
      PieceNone(path, |pre|);
    } else {
      var s, rest := segs[0], Join(segs[1..]);
      var pre' := pre + "/" + s;
      assert path == pre' + rest;
      FirstOfJoin(path, pre, s, rest);
      PieceNext(path, |pre|);
      SplitJoin(pre', segs[1..]);
    }
  }

  lemma RunEnds(path: string, a: nat, s: string, b: nat)
    requires Proper(s) && a + |s| <= |path| && path[a..a + |s|] == s && (a + |s| < |path| ==> path[a + |s|] == '/')
    requires b == NextSlash(path, a)
    ensures b == a + |s|
  {
    forall k | a <= k < a + |s| ensures path[k] != '/' { assert path[k] == s[k - a]; }
  }

  /** The normal form names the segments and nothing else. */
  lemma NormalForm(path: string)
    ensures Segs(Normalise(Segs(path))) == Segs(path)
  {
    SplitIsRuns(path);
    var segs := Segs(path);
    if segs == [] {
      assert SkipSlashes("/", 0) == 1;
    } else {
      SplitJoin("", segs);
      assert "" + Join(segs) == Join(segs);
    }
  }

  lemma SameNormalForm(path: string, other: string)
    ensures Normalise(Segs(path)) == Normalise(Segs(other)) <==> Segs(path) == Segs(other)
  {
    NormalForm(path);
    NormalForm(other);
  }

  function Digit(slot: nat): char
    requires slot < 10
  {
    '0' + slot as char
  }

  function Key(slot: nat, segs: seq<string>): string
    requires slot < 10
  {
    [Digit(slot)] + Normalise(segs)
  }

  /** Two requests share a key if and only if they share method slot and segments. */
  lemma KeyIsInjective(slot: nat, path: string, slot': nat, path': string)
    requires slot < 10 && slot' < 10
    ensures Key(slot, Segs(path)) == Key(slot', Segs(path')) <==> slot == slot' && Segs(path) == Segs(path')
  {
    hide Normalise, Segs;
    SameNormalForm(path, path');
    assert Key(slot, Segs(path))[1..] == Normalise(Segs(path));
    assert Key(slot', Segs(path'))[1..] == Normalise(Segs(path'));
  }

  /** normalise_key_into(): the key in one pass, or 0 when it does not fit the buffer. */
  method NormaliseKeyInto(slot: nat, path: string, out: array<char>) returns (n: nat)
    requires slot < 10
    modifies out
    ensures n == 0 <==> |Key(slot, Segs(path))| > out.Length
    ensures n != 0 ==> n <= out.Length && out[..n] == Key(slot, Segs(path))
  {
    hide SkipSlashes, NextSlash, Pieces, Join;
    KeyLength(slot, Segs(path));
    if out.Length < 2 { return 0; }
    out[0] := Digit(slot);
    n := 1;
    ghost var done: seq<string> := [];
    var i := 0;
    NoneDone(path);
    while i < |path|
      invariant i <= |path| && done + Texts(Pieces(path, i)) == Segs(path)
      invariant 1 <= n <= out.Length && out[..n] == [Digit(slot)] + Join(done)
      decreases |path| - i
    {
      ghost var i0 := i;
      i := Skip(path, i);
      if i >= |path| {
        PieceNone(path, i0);
        break;
      }
      var j := FindSlash(path, i);
      PieceNext(path, i0);
      ghost var s := path[i..j];
      JoinOne(done, s, Texts(Pieces(path, j)));
      var seg := j - i;
      if n + 1 + seg > out.Length {
        TooLong(slot, done + [s], Texts(Pieces(path, j)));
        return 0;
      }
      Write(out, n, path, i, j);
      assert out[..n + 1 + seg] == ([Digit(slot)] + Join(done)) + "/" + s;
      n := n + 1 + seg;
      done := done + [s];
      i := j;
    }
    if i == |path| { PieceNone(path, i); }
    assert done == Segs(path);
    if n == 1 {
      AllEmpty(done);
      out[n] := '/';
      n := n + 1;
    } else {
      NotEmpty(done);
    }
  }

  /** A slash and one segment go to the end of what is in the buffer. */
  method Write(out: array<char>, n: nat, path: string, i: nat, j: nat)
    requires i <= j <= |path| && n + 1 + (j - i) <= out.Length
    modifies out
    ensures out[..n + 1 + (j - i)] == old(out[..n]) + "/" + path[i..j]
  {
    out[n] := '/';
    forall k | 0 <= k < j - i { out[n + 1 + k] := path[i + k]; }
  }

  lemma NoneDone(path: string)
    ensures [] + Texts(Pieces(path, 0)) == Segs(path) && Join([]) == ""
  {
  }

  lemma PieceNone(path: string, i: nat)
    requires i <= |path| && (i == |path| || SkipSlashes(path, i) == |path|)
    ensures Texts(Pieces(path, i)) == []
  {
    assert SkipSlashes(path, i) == |path|;
  }

  lemma PieceNext(path: string, i: nat)
    requires i <= |path| && SkipSlashes(path, i) < |path|
    ensures var a := SkipSlashes(path, i);
            var b := NextSlash(path, a);
            a < b <= |path| && Texts(Pieces(path, i)) == [path[a..b]] + Texts(Pieces(path, b))
  {
  }

  lemma JoinOne(done: seq<string>, s: string, rest: seq<string>)
    ensures Join(done + [s]) == Join(done) + "/" + s && done + ([s] + rest) == (done + [s]) + rest
  {
    JoinConcat(done, [s]);
    assert [s][1..] == [];
    assert Join([s]) == "/" + s + "";
    assert Join(done) + ("/" + s) == Join(done) + "/" + s;
  }

  lemma TooLong(slot: nat, done: seq<string>, rest: seq<string>)
    requires slot < 10 && done != []
    ensures |Key(slot, done + rest)| >= 1 + |Join(done)|
  {
    JoinConcat(done, rest);
  }

  lemma KeyLength(slot: nat, segs: seq<string>)
    requires slot < 10
    ensures |Key(slot, segs)| >= 2
  {
  }

  lemma AllEmpty(done: seq<string>)
    requires |Join(done)| == 0
    ensures done == []
  {
  }

  lemma NotEmpty(done: seq<string>)
    requires |Join(done)| > 0
    ensures done != []
  {
  }
}
