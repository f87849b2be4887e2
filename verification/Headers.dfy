/** The header index: enumerated fields recognised a word at a time, a bitmap, inline and
    overflow storage, against a plain scan for a name without regard to letter case. */
module Headers {
  import opened Bits

  type Name = seq<Byte>

  // --------------------------------------------------- names without letter case

  /** The small letter of a capital; any other byte is itself. */
  function ToLower(b: Byte): Byte {
    if 0x41 <= b <= 0x5A then b + 0x20 else b
  }

  predicate CaseAt(x: Name, y: Name, i: nat)
    requires i < |x| && i < |y|
  {
    ToLower(x[i]) == ToLower(y[i])
  }

  /** The same name, letter case aside. */
  ghost predicate CaseEqual(x: Name, y: Name) {
    |x| == |y| && forall i :: 0 <= i < |x| ==> CaseAt(x, y, i)
  }

  /** A character of a field name: a `tchar` of section 5.6.2 of RFC 9110. */
  predicate TokenChar(b: Byte) {
    || 0x30 <= b <= 0x39 || 0x41 <= b <= 0x5A || 0x5E <= b <= 0x7A
    || b in {0x21, 0x23, 0x24, 0x25, 0x26, 0x27, 0x2A, 0x2B, 0x2D, 0x2E, 0x7C, 0x7E}
  }

  ghost predicate TokenName(x: Name) {
    forall i :: 0 <= i < |x| ==> TokenChar(x[i])
  }

  // ------------------------------------------------------ the comparison in the code

  /** The ASCII case bit set. */
  function Lower(b: Byte): (r: Byte) {
    OrBytes(b, 0x20);
    Or(b, 0x20)
  }

  ghost predicate SameAt(x: Name, y: Name, i: nat)
    requires i < |x| && i < |y|
  {
    Lower(x[i]) == Lower(y[i])
  }

  ghost predicate IEqual(x: Name, y: Name) {
    |x| == |y| && forall i :: 0 <= i < |x| ==> SameAt(x, y, i)
  }

  lemma LowerIs(b: Byte)
    ensures Lower(b) == if b / 32 % 2 == 0 then b + 32 else b
  {
    hide Or, Pow2;
    ThirtyTwo();
    OrConcat(5, b % 32, b / 32, 0, 1);
    OrZeroRight(b % 32);
    OrParts(b / 32, 1);
    OrZeroRight(b / 32 / 2);
  }

  lemma ThirtyTwo()
    ensures Pow2(5) == 32
  {
  }

  /** Two bytes that differ in the case bit although they are no letter in its two cases. */
  predicate Confused(a: Byte, b: Byte) {
    var c := if a < b then a else b;
    (a == b + 32 || b == a + 32) && c / 32 % 2 == 0 && !(0x41 <= c <= 0x5A)
  }

  lemma LowerIff(a: Byte, b: Byte)
    ensures Lower(a) == Lower(b) <==> ToLower(a) == ToLower(b) || Confused(a, b)
  {
    hide Lower;
    LowerIs(a);
    LowerIs(b);
  }

  lemma SameAtIff(x: Name, y: Name, i: nat)
    requires i < |x| && i < |y|
    ensures SameAt(x, y, i) <==> CaseAt(x, y, i) || Confused(x[i], y[i])
  {
    LowerIff(x[i], y[i]);
  }

  /** Among the characters of a field name only the caret and the tilde are confused. */
  lemma ConfusedTokens(a: Byte, b: Byte)
    requires TokenChar(a) && TokenChar(b)
    ensures Confused(a, b) <==> (a == 0x5E && b == 0x7E) || (a == 0x7E && b == 0x5E)
  {
  }

  /** The comparison accepts every name it should, and goes wrong exactly where it meets a
      confused pair and no other difference. */
  lemma IEqualIff(x: Name, y: Name)
    ensures CaseEqual(x, y) ==> IEqual(x, y)
    ensures IEqual(x, y) && !CaseEqual(x, y) <==>
              && |x| == |y| && (forall i :: 0 <= i < |x| ==> CaseAt(x, y, i) || Confused(x[i], y[i]))
              && exists i :: 0 <= i < |x| && Confused(x[i], y[i])
  {
    hide Lower, Confused;
    forall i | 0 <= i < |x| == |y| ensures SameAt(x, y, i) <==> CaseAt(x, y, i) || Confused(x[i], y[i]) {
      LowerIff(x[i], y[i]);
    }
    forall i | 0 <= i < |x| == |y| && Confused(x[i], y[i]) ensures !CaseAt(x, y, i) { ConfusedDiffer(x[i], y[i]); }
  }

  lemma ConfusedDiffer(a: Byte, b: Byte)
    requires Confused(a, b)
    ensures ToLower(a) != ToLower(b)
  {
  }

  method IEquals(a: Name, b: Name) returns (r: bool)
    ensures r <==> IEqual(a, b)
  {
    hide Lower;
    if |a| != |b| { return false; }
    for i := 0 to |a|
      invariant forall j :: 0 <= j < i ==> SameAt(a, b, j)
    {
      if Lower(a[i]) != Lower(b[i]) {
        assert !SameAt(a, b, i);
        return false;
      }
    }
    return true;
  }

  // ------------------------------------------------------------ names as words

  ghost function Lowered(s: Name): Name {
    seq(|s|, i requires 0 <= i < |s| => Lower(s[i]))
  }

  /** `n` bytes of nothing but the case bit. */
  ghost function Stripes(n: nat): nat {
    if n == 0 then 0 else 0x20 + 256 * Stripes(n - 1)
  }

  const LOWER_WORD := 0x2020_2020_2020_2020

  lemma LowerWord()
    ensures Stripes(8) == LOWER_WORD
  {
    assert Stripes(4) == 0x2020_2020;
    assert Stripes(5) == 0x20 + 256 * Stripes(4) && Stripes(6) == 0x20 + 256 * Stripes(5);
    assert Stripes(7) == 0x20 + 256 * Stripes(6) && Stripes(8) == 0x20 + 256 * Stripes(7);
  }

  function LowerLE(s: Name): nat {
    if s == [] then 0 else (Lower(s[0]) as int) + 256 * LowerLE(s[1..])
  }

  /** pack(): up to eight bytes, each lowercased on its own, as a little-endian word. */
  function Pack(s: Name): nat {
    LowerLE(if |s| < 8 then s else s[..8])
  }

  /** ld(): the bytes loaded as one word, lowercased by one OR, and the rest masked off. */
  function Load(s: Name): nat
    requires 1 <= |s| <= 8
  {
    var v := Or(FromLE(s), LOWER_WORD);
    if |s| < 8 then And(v, Pow2(8 * |s|) - 1) else v
  }

  lemma {:induction false} LowerLEIs(s: Name)
    ensures LowerLE(s) == FromLE(Lowered(s))
  {
    if s != [] {
      LowerLEIs(s[1..]);
      assert Lowered(s)[1..] == Lowered(s[1..]);
    }
  }

  lemma {:induction false} Pow2Is256(n: nat)
    ensures Pow2(8 * n) == Pow256(n)
  {
    if n > 0 {
      Pow2Is256(n - 1);
      EightDoublings(8 * (n - 1));
    }
  }

  lemma EightDoublings(k: nat)
    ensures Pow2(k + 8) == 256 * Pow2(k)
  {
    assert Pow2(k + 2) == 4 * Pow2(k);
    assert Pow2(k + 4) == 4 * Pow2(k + 2);
    assert Pow2(k + 6) == 4 * Pow2(k + 4);
    assert Pow2(k + 8) == 4 * Pow2(k + 6);
  }

  lemma ModByte(x: nat, y: nat, p: nat)
    requires x < 256 && p > 0
    ensures (x + 256 * y) % (256 * p) == x + 256 * (y % p)
  {
    var q, r := y / p, y % p;
    assert y == q * p + r;
    assert x + 256 * y == q * (256 * p) + (x + 256 * r);
    DivModUnique(x + 256 * y, 256 * p, q, x + 256 * r);
  }

  /** One OR over the word is one OR over each byte. */
  lemma {:induction false} OrStripes(s: Name, n: nat)
    requires |s| <= n
    ensures Or(FromLE(s), Stripes(n)) % Pow256(|s|) == LowerLE(s)
  {
    if s == [] {
      assert Pow256(0) == 1;
    } else {
      OrStripes(s[1..], n - 1);
      StripeStep(s[0], FromLE(s[1..]), Stripes(n - 1), Pow256(|s| - 1), LowerLE(s[1..]));
    }
  }

  lemma StripeStep(b: Byte, x: nat, y: nat, p: nat, l: nat)
    requires p > 0 && Or(x, y) % p == l
    ensures Or((b as int) + 256 * x, 0x20 + 256 * y) % (256 * p) == (Lower(b) as int) + 256 * l
  {
    hide Or, Lower;
    OrByte(b, x, y);
    ModByte(Lower(b), Or(x, y), p);
  }

  lemma OrByte(b: Byte, x: nat, y: nat)
    ensures Or((b as int) + 256 * x, 0x20 + 256 * y) == (Lower(b) as int) + 256 * Or(x, y)
  {
    hide Or;
    assert Pow2(8) == 256;
    OrConcat(8, b, x, 0x20, y);
  }

  /** Lowercasing a whole word at once is lowercasing its bytes. */
  lemma LoadIsPack(s: Name)
    requires 1 <= |s| <= 8
    ensures Load(s) == Pack(s)
  {
    hide Or, And, FromLE, LowerLE, Pow2, Pow256, Stripes;
    LowerWord();
    OrStripes(s, 8);
    Pow2Is256(|s|);
    AndMaskIsMod(Or(FromLE(s), LOWER_WORD), 8 * |s|);
    assert s[..|s|] == s;
    if |s| == 8 { WholeWord(s); }
  }

  lemma WholeWord(s: Name)
    requires |s| == 8
    ensures Or(FromLE(s), Stripes(8)) < Pow256(8)
  {
    hide Or;
    ToLEFromLE(s);
    Pow2Is256(8);
    StripesFit(8);
    OrConcat(64, FromLE(s), 0, Stripes(8), 0);
  }

  lemma {:induction false} StripesFit(n: nat)
    ensures Stripes(n) < Pow256(n)
  {
    if n > 0 { StripesFit(n - 1); }
  }

  /** Equal words mean names that are equal with the case bit set. */
  lemma PackEqual(x: Name, y: Name)
    requires |x| == |y| <= 8
    ensures Pack(x) == Pack(y) <==> IEqual(x, y)
  {
    hide Lower, LowerLE, FromLE, ToLE;
    assert x[..|x|] == x && y[..|y|] == y;
    LowerLEIs(x);
    LowerLEIs(y);
    ToLEFromLE(Lowered(x));
    ToLEFromLE(Lowered(y));
    if Pack(x) == Pack(y) {
      forall i | 0 <= i < |x| ensures SameAt(x, y, i) { assert Lowered(x)[i] == Lowered(y)[i]; }
    }
    if IEqual(x, y) {
      forall i | 0 <= i < |x| ensures Lowered(x)[i] == Lowered(y)[i] { assert SameAt(x, y, i); }
      assert Lowered(x) == Lowered(y);
    }
  }

  // ------------------------------------------------------------- known fields

  datatype Field =
    | Host | ContentLength | ContentType | TransferEncoding | Connection | Accept | AcceptEncoding | AcceptLanguage
    | UserAgent | Expect | Upgrade | Date | Server | Location | Cookie | SetCookie | Authorization | Referer
    | Range | IfNoneMatch | IfModifiedSince | ETag | CacheControl | Origin | Other

  /** A name given as text. */
  function Text(s: string): (r: Name)
    ensures |r| == |s|
  {
    seq(|s|, i requires 0 <= i < |s| => s[i] as int % 256)
  }

  /** The first and the last eight bytes agree. */
  predicate Match8(name: Name, lit: Name)
    requires |name| == |lit| >= 8
  {
    Load(name[..8]) == Pack(lit) && Load(name[|name| - 8..]) == Pack(lit[|lit| - 8..])
  }

  predicate Match(name: Name, lit: Name)
    requires |name| == |lit| >= 1
  {
    if |name| <= 8 then Load(name) == Pack(lit) else Match8(name, lit)
  }

  function NameOf(f: Field): string {
    match f
    case Host => "host" case ContentLength => "content-length" case ContentType => "content-type"
    case TransferEncoding => "transfer-encoding" case Connection => "connection" case Accept => "accept"
    case AcceptEncoding => "accept-encoding" case AcceptLanguage => "accept-language"
    case UserAgent => "user-agent" case Expect => "expect" case Upgrade => "upgrade" case Date => "date"
    case Server => "server" case Location => "location" case Cookie => "cookie"
    case SetCookie => "set-cookie" case Authorization => "authorization" case Referer => "referer"
    case Range => "range" case IfNoneMatch => "if-none-match" case IfModifiedSince => "if-modified-since"
    case ETag => "etag" case CacheControl => "cache-control" case Origin => "origin" case Other => ""
  }

  function TextOf(f: Field): Name {
    Text(NameOf(f))
  }

  /** The known fields whose names have `n` bytes, in the order they are tried. */
  function Candidates(n: nat): seq<Field> {
    if n == 4 then [Host, Date, ETag]
    else if n == 5 then [Range]
    else if n == 6 then [Accept, Expect, Server, Cookie, Origin]
    else if n == 7 then [Upgrade, Referer]
    else if n == 8 then [Location]
    else if n == 10 then [Connection, UserAgent, SetCookie]
    else if n == 12 then [ContentType]
    else if n == 13 then [Authorization, IfNoneMatch, CacheControl]
    else if n == 14 then [ContentLength]
    else if n == 15 then [AcceptEncoding, AcceptLanguage]
    else if n == 17 then [TransferEncoding, IfModifiedSince]
    else []
  }

  predicate OfLength(fs: seq<Field>, n: nat) {
    forall k :: 0 <= k < |fs| ==> fs[k] != Other && |TextOf(fs[k])| == n
  }

  lemma CandidatesFit(n: nat)
    ensures OfLength(Candidates(n), n) && (Candidates(n) != [] ==> 4 <= n <= 17)
  {
    hide TextOf, Candidates, OfLength;
    if n < 10 { ShortFit(n); } else { LongFit(n); }
  }

  lemma ShortFit(n: nat)
    requires n < 10
    ensures OfLength(Candidates(n), n) && (Candidates(n) != [] ==> 4 <= n)
  {
    hide Text;
  }

  lemma LongFit(n: nat)
    requires n >= 10
    ensures OfLength(Candidates(n), n) && (Candidates(n) != [] ==> n <= 17)
  {
    hide Text;
  }

  function Pick(name: Name, fs: seq<Field>): Field
    requires OfLength(fs, |name|) && |name| >= 1
  {
    if fs == [] then Other else if Match(name, TextOf(fs[0])) then fs[0] else Pick(name, fs[1..])
  }

  /** field_from_name(): a few word compares, chosen by length. */
  function FieldOf(name: Name): Field {
    CandidatesFit(|name|);
    if |name| == 0 then Other else Pick(name, Candidates(|name|))
  }

  /** The same name with the case bit set; of 17-byte names, byte 8 aside. */
  ghost predicate Near(x: Name, y: Name) {
    |x| == |y| && forall i :: 0 <= i < |x| && (|x| != 17 || i != 8) ==> SameAt(x, y, i)
  }

  lemma SliceEqual(x: Name, y: Name, a: nat, b: nat)
    requires |x| == |y| && a <= b <= |x|
    ensures IEqual(x[a..b], y[a..b]) <==> forall i :: a <= i < b ==> SameAt(x, y, i)
  {
    var u, v := x[a..b], y[a..b];
    assert forall i :: a <= i < b ==> SameAt(x, y, i) == SameAt(u, v, i - a);
    if IEqual(u, v) {
      forall i | a <= i < b ensures SameAt(x, y, i) { assert SameAt(u, v, i - a); }
    }
    if forall i :: a <= i < b ==> SameAt(x, y, i) {
      forall i | 0 <= i < |u| ensures SameAt(u, v, i) { assert SameAt(x, y, i + a); }
    }
  }

  /** For the lengths in use, the word compares decide nearness. */
  lemma MatchIsNear(name: Name, lit: Name)
    requires 1 <= |name| == |lit| <= 17
    ensures Match(name, lit) <==> Near(name, lit)
  {
    hide Load, Pack, SameAt;
    var n := |name|;
    if n <= 8 {
      LoadIsPack(name);
      PackEqual(name, lit);
    } else {
      LoadIsPack(name[..8]);
      LoadIsPack(name[n - 8..]);
      PackFirst(lit);
      PackEqual(name[..8], lit[..8]);
      PackEqual(name[n - 8..], lit[n - 8..]);
      SliceEqual(name, lit, 0, 8);
      SliceEqual(name, lit, n - 8, n);
      assert name[..8] == name[0..8] && lit[..8] == lit[0..8] && name[n - 8..] == name[n - 8..n];
      assert lit[n - 8..] == lit[n - 8..n];
    }
  }

  lemma PackFirst(lit: Name)
    requires |lit| >= 8
    ensures Pack(lit) == Pack(lit[..8])
  {
    assert lit[..8][..8] == lit[..8];
  }

  lemma NearSymmetric(x: Name, y: Name)
    requires Near(x, y)
    ensures Near(y, x)
  {
    forall i | 0 <= i < |y| && (|y| != 17 || i != 8) ensures SameAt(y, x, i) { assert SameAt(x, y, i); }
  }

  lemma NearTransitive(x: Name, y: Name, z: Name)
    requires Near(x, y) && Near(y, z)
    ensures Near(x, z)
  {
    forall i | 0 <= i < |x| && (|x| != 17 || i != 8)
      ensures SameAt(x, z, i)
    {
      assert SameAt(x, y, i) && SameAt(y, z, i);
    }
  }

  lemma MatchAlike(x: Name, y: Name, lit: Name)
    requires Near(x, y) && 1 <= |lit| == |x| <= 17
    ensures Match(x, lit) <==> Match(y, lit)
  {
    hide Match, SameAt;
    MatchIsNear(x, lit);
    MatchIsNear(y, lit);
    if Near(x, lit) { NearSymmetric(x, y); NearTransitive(y, x, lit); }
    if Near(y, lit) { NearTransitive(x, y, lit); }
  }

  lemma {:induction false} PickAlike(x: Name, y: Name, fs: seq<Field>)
    requires Near(x, y) && OfLength(fs, |x|) && 1 <= |x| <= 17
    ensures Pick(x, fs) == Pick(y, fs)
  {
    hide Match, TextOf, SameAt;
    if fs != [] {
      MatchAlike(x, y, TextOf(fs[0]));
      PickAlike(x, y, fs[1..]);
    }
  }

  lemma {:induction false} PickMatches(x: Name, fs: seq<Field>)
    requires OfLength(fs, |x|) && |x| >= 1
    ensures var f := Pick(x, fs); f != Other ==> |TextOf(f)| == |x| && Match(x, TextOf(f))
  {
    hide Match, TextOf;
    if fs != [] { PickMatches(x, fs[1..]); }
  }

  lemma FieldMatches(x: Name)
    requires FieldOf(x) != Other
    ensures 1 <= |TextOf(FieldOf(x))| == |x| <= 17 && Match(x, TextOf(FieldOf(x)))
  {
    hide Match, TextOf, Candidates;
    CandidatesFit(|x|);
    PickMatches(x, Candidates(|x|));
  }

  /** Names that are near one another are the same field. */
  lemma FieldOfNear(x: Name, y: Name)
    requires Near(x, y)
    ensures FieldOf(x) == FieldOf(y)
  {
    hide Match, TextOf, Candidates, Near;
    assert |x| == |y| by { NearLength(x, y); }
    CandidatesFit(|x|);
    if 1 <= |x| <= 17 { PickAlike(x, y, Candidates(|x|)); }
  }

  lemma NearLength(x: Name, y: Name)
    requires Near(x, y)
    ensures |x| == |y|
  {
  }

  /** And the only names of a known field are those near its own. */
  lemma SameFieldIsNear(x: Name, y: Name)
    requires FieldOf(y) != Other
    ensures FieldOf(x) == FieldOf(y) <==> Near(x, y)
  {
    hide FieldOf, Match, TextOf, SameAt;
    FieldMatches(y);
    MatchIsNear(y, TextOf(FieldOf(y)));
    if FieldOf(x) == FieldOf(y) {
      FieldMatches(x);
      MatchIsNear(x, TextOf(FieldOf(x)));
      NearSymmetric(y, TextOf(FieldOf(y)));
      NearTransitive(x, TextOf(FieldOf(y)), y);
    }
    if Near(x, y) { FieldOfNear(x, y); }
  }

  /** What tells a field's name from the others of its length. */
  function Mark(f: Field): (nat, char) {
    match f
    case Host => (0, 'h') case Date => (0, 'd') case ETag => (0, 'e') case Range => (0, 'r') case Accept => (0, 'a')
    case Expect => (0, 'e') case Server => (0, 's') case Cookie => (0, 'c') case Origin => (0, 'o')
    case Upgrade => (0, 'u') case Referer => (0, 'r') case Location => (0, 'l') case Connection => (0, 'c')
    case UserAgent => (0, 'u') case SetCookie => (0, 's') case ContentType => (0, 'c') case Authorization => (0, 'a')
    case IfNoneMatch => (0, 'i') case CacheControl => (0, 'c') case ContentLength => (0, 'c')
    case AcceptEncoding => (7, 'e') case AcceptLanguage => (7, 'l') case TransferEncoding => (0, 't')
    case IfModifiedSince => (0, 'i') case Other => (0, ' ')
  }

  lemma Marked(f: Field)
    requires f != Other
    ensures var (i, c) := Mark(f); i < 8 && i < |TextOf(f)| && TextOf(f)[i] == c as int && 'a' <= c <= 'z'
  {
  }

  lemma LettersDiffer(x: Name, y: Name, i: nat)
    requires i < |x| == |y| <= 17 && i < 8 && 0x61 <= x[i] <= 0x7A && 0x61 <= y[i] <= 0x7A && x[i] != y[i]
    ensures !Match(x, y)
  {
    hide Match, Lower;
    SameAtIff(x, y, i);
    MatchIsNear(x, y);
  }

  lemma MarksDiffer(f: Field, g: Field)
    requires f != Other && g != Other && |TextOf(f)| == |TextOf(g)| <= 17
    requires Mark(f).0 == Mark(g).0 && Mark(f).1 != Mark(g).1
    ensures |TextOf(f)| >= 1 && !Match(TextOf(f), TextOf(g))
  {
    hide TextOf, Mark, Match;
    Marked(f);
    Marked(g);
    LettersDiffer(TextOf(f), TextOf(g), Mark(f).0);
  }

  /** Which of the candidates a field is. */
  function Turn(f: Field): nat {
    match f
    case Date => 1 case ETag => 2 case Expect => 1 case Server => 2 case Cookie => 3 case Origin => 4 case Referer => 1
    case UserAgent => 1 case SetCookie => 2 case IfNoneMatch => 1 case CacheControl => 2 case AcceptLanguage => 1
    case IfModifiedSince => 1 case _ => 0
  }

  lemma TurnIs(f: Field)
    requires f != Other
    ensures var fs := Candidates(|TextOf(f)|);
            && 1 <= |TextOf(f)| <= 17 && Turn(f) < |fs| && fs[Turn(f)] == f
            && forall k :: 0 <= k < Turn(f) ==> Mark(fs[k]).0 == Mark(f).0 && Mark(fs[k]).1 != Mark(f).1
  {
    hide TextOf, Candidates, Turn, Mark;
    if |TextOf(f)| < 10 { ShortTurn(f); } else { LongTurn(f); }
  }

  lemma ShortTurn(f: Field)
    requires f != Other && |TextOf(f)| < 10
    ensures var fs := Candidates(|TextOf(f)|);
            && 1 <= |TextOf(f)| && Turn(f) < |fs| && fs[Turn(f)] == f
            && forall k :: 0 <= k < Turn(f) ==> Mark(fs[k]).0 == Mark(f).0 && Mark(fs[k]).1 != Mark(f).1
  {
    hide Text;
  }

  lemma LongTurn(f: Field)
    requires f != Other && |TextOf(f)| >= 10
    ensures var fs := Candidates(|TextOf(f)|);
            && |TextOf(f)| <= 17 && Turn(f) < |fs| && fs[Turn(f)] == f
            && forall k :: 0 <= k < Turn(f) ==> Mark(fs[k]).0 == Mark(f).0 && Mark(fs[k]).1 != Mark(f).1
  {
    hide Text;
  }

  lemma {:induction false} PickTurn(f: Field, fs: seq<Field>, k: nat)
    requires f != Other && OfLength(fs, |TextOf(f)|) && k < |fs| && fs[k] == f && 1 <= |TextOf(f)| <= 17
    requires forall j :: 0 <= j < k ==> Mark(fs[j]).0 == Mark(f).0 && Mark(fs[j]).1 != Mark(f).1
    ensures Pick(TextOf(f), fs) == f
    decreases k
  {
    hide Match, TextOf, Mark;
    if k == 0 {
      MatchIsNear(TextOf(f), TextOf(f));
    } else {
      MarksDiffer(f, fs[0]);
      PickTurn(f, fs[1..], k - 1);
    }
  }

  /** Every known field is recognised by its own name. */
  lemma OwnName(f: Field)
    requires f != Other
    ensures FieldOf(TextOf(f)) == f && 1 <= |TextOf(f)| <= 17
  {
    hide Match, TextOf, Candidates, Mark;
    TurnIs(f);
    CandidatesFit(|TextOf(f)|);
    PickTurn(f, Candidates(|TextOf(f)|), Turn(f));
  }

  /** The names themselves. */
  lemma EarlyNames()
    ensures FieldOf(Text("host")) == Host && FieldOf(Text("date")) == Date && FieldOf(Text("etag")) == ETag
    ensures FieldOf(Text("range")) == Range && FieldOf(Text("accept")) == Accept && FieldOf(Text("expect")) == Expect
  {
    hide FieldOf, Text;
    OwnName(Host);
    OwnName(Date);
    OwnName(ETag);
    OwnName(Range);
    OwnName(Accept);
    OwnName(Expect);
  }

  lemma ShortNames()
    ensures FieldOf(Text("server")) == Server && FieldOf(Text("cookie")) == Cookie
    ensures FieldOf(Text("origin")) == Origin && FieldOf(Text("upgrade")) == Upgrade
    ensures FieldOf(Text("referer")) == Referer && FieldOf(Text("location")) == Location
  {
    hide FieldOf, Text;
    OwnName(Server);
    OwnName(Cookie);
    OwnName(Origin);
    OwnName(Upgrade);
    OwnName(Referer);
    OwnName(Location);
  }

  lemma MediumNames()
    ensures FieldOf(Text("connection")) == Connection && FieldOf(Text("user-agent")) == UserAgent
    ensures FieldOf(Text("set-cookie")) == SetCookie && FieldOf(Text("content-type")) == ContentType
    ensures FieldOf(Text("authorization")) == Authorization && FieldOf(Text("if-none-match")) == IfNoneMatch
  {
    hide FieldOf, Text;
    OwnName(Connection);
    OwnName(UserAgent);
    OwnName(SetCookie);
    OwnName(ContentType);
    OwnName(Authorization);
    OwnName(IfNoneMatch);
  }

  lemma LongNames()
    ensures FieldOf(Text("cache-control")) == CacheControl && FieldOf(Text("content-length")) == ContentLength
    ensures FieldOf(Text("accept-encoding")) == AcceptEncoding && FieldOf(Text("accept-language")) == AcceptLanguage
    ensures FieldOf(Text("transfer-encoding")) == TransferEncoding
    ensures FieldOf(Text("if-modified-since")) == IfModifiedSince
  {
    hide FieldOf, Text;
    OwnName(CacheControl);
    OwnName(ContentLength);
    OwnName(AcceptEncoding);
    OwnName(AcceptLanguage);
    OwnName(TransferEncoding);
    OwnName(IfModifiedSince);
  }

  predicate Letter(c: char) {
    c == '-' || 'a' <= c <= 'z'
  }

  predicate Lettered(s: string) {
    forall i :: 0 <= i < |s| ==> Letter(s[i])
  }

  lemma ShortNamesLettered()
    ensures Lettered("host") && Lettered("accept") && Lettered("expect") && Lettered("upgrade") && Lettered("date")
    ensures Lettered("server") && Lettered("location") && Lettered("cookie") && Lettered("referer") && Lettered("range")
    ensures Lettered("etag") && Lettered("origin") && Lettered("connection") && Lettered("user-agent") && Lettered("")
  {
  }

  lemma LongNamesLettered()
    ensures Lettered("set-cookie") && Lettered("content-type") && Lettered("authorization") && Lettered("if-none-match")
    ensures Lettered("cache-control") && Lettered("content-length") && Lettered("accept-encoding")
    ensures Lettered("accept-language") && Lettered("transfer-encoding") && Lettered("if-modified-since")
  {
  }

  lemma NamesLettered(f: Field)
    ensures Lettered(NameOf(f))
  {
    hide Lettered;
    ShortNamesLettered();
    LongNamesLettered();
  }

  lemma Letters(f: Field, i: nat)
    requires i < |TextOf(f)|
    ensures TextOf(f)[i] == 0x2D || 0x61 <= TextOf(f)[i] <= 0x7A
  {
    hide NameOf;
    NamesLettered(f);
    assert Letter(NameOf(f)[i]);
  }

  /** A field name is that of a known field if and only if it is the field's own, letter case
      aside, and byte 8 aside if it has 17 bytes. */
  lemma FieldIff(x: Name, f: Field)
    requires TokenName(x) && f != Other
    ensures FieldOf(x) == f <==>
              |x| == |TextOf(f)| && forall i :: 0 <= i < |x| && (|x| != 17 || i != 8) ==> CaseAt(x, TextOf(f), i)
  {
    hide FieldOf, TextOf, SameAt, CaseAt, Confused, TokenChar;
    OwnName(f);
    SameFieldIsNear(x, TextOf(f));
    if |x| == |TextOf(f)| {
      forall i | 0 <= i < |x| ensures SameAt(x, TextOf(f), i) <==> CaseAt(x, TextOf(f), i) {
        SameAtIff(x, TextOf(f), i);
        Letters(f, i);
        LetterNotConfused(x[i], TextOf(f)[i]);
      }
    }
  }

  lemma LetterNotConfused(a: Byte, b: Byte)
    requires TokenChar(a) && (b == 0x2D || 0x61 <= b <= 0x7A)
    ensures !Confused(a, b)
  {
  }

  // ------------------------------------------------------------------ the table

  datatype Entry = Entry(name: Name, value: Name, field: Field, trailer: bool)

  const INLINE := 32

  function Code(f: Field): nat {
    match f
    case Host => 0 case ContentLength => 1 case ContentType => 2 case TransferEncoding => 3 case Connection => 4
    case Accept => 5 case AcceptEncoding => 6 case AcceptLanguage => 7 case UserAgent => 8 case Expect => 9
    case Upgrade => 10 case Date => 11 case Server => 12 case Location => 13 case Cookie => 14 case SetCookie => 15
    case Authorization => 16 case Referer => 17 case Range => 18 case IfNoneMatch => 19 case IfModifiedSince => 20
    case ETag => 21 case CacheControl => 22 case Origin => 23 case Other => 24
  }

  lemma CodesDiffer(f: Field, g: Field)
    ensures Code(f) == Code(g) <==> f == g
  {
  }

  predicate Has(bitmap: nat, f: Field) {
    f != Other && And(bitmap, Pow2(Code(f))) != 0
  }

  ghost predicate Present(es: seq<Entry>, f: Field, trailer: bool) {
    exists i :: 0 <= i < |es| && es[i].field == f && es[i].trailer == trailer
  }

  /** A bitmap knows which known fields are there. */
  ghost predicate Mapped(bitmap: nat, es: seq<Entry>, trailer: bool) {
    forall f :: f != Other ==> (Has(bitmap, f) <==> Present(es, f, trailer))
  }

  lemma PresentMore(es: seq<Entry>, e: Entry, f: Field, trailer: bool)
    ensures Present(es + [e], f, trailer) <==> Present(es, f, trailer) || (e.field == f && e.trailer == trailer)
  {
    var more := es + [e];
    if Present(es, f, trailer) {
      var i :| 0 <= i < |es| && es[i].field == f && es[i].trailer == trailer;
      assert more[i] == es[i];
    }
    if e.field == f && e.trailer == trailer { assert more[|es|] == e; }
  }

  lemma MappedMore(bitmap: nat, es: seq<Entry>, e: Entry, trailer: bool)
    requires Mapped(bitmap, es, trailer)
    ensures Mapped(if e.trailer == trailer && e.field != Other then Or(bitmap, Pow2(Code(e.field))) else bitmap,
                   es + [e], trailer)
  {
    hide And, Or, Pow2, Code, Present;
    var next := if e.trailer == trailer && e.field != Other then Or(bitmap, Pow2(Code(e.field))) else bitmap;
    forall f | f != Other ensures Has(next, f) <==> Present(es + [e], f, trailer) {
      PresentMore(es, e, f, trailer);
      SetBit(bitmap, Code(e.field), Code(f));
      CodesDiffer(e.field, f);
    }
  }

  ghost function Trailers(es: seq<Entry>): nat {
    if es == [] then 0 else (if es[|es| - 1].trailer then 1 else 0) + Trailers(es[..|es| - 1])
  }

  lemma {:induction false} TrailersFit(es: seq<Entry>)
    ensures Trailers(es) <= |es| && (Trailers(es) == 0 ==> forall i :: 0 <= i < |es| ==> !es[i].trailer)
  {
    if es != [] { TrailersFit(es[..|es| - 1]); }
  }

  lemma TrailersMore(es: seq<Entry>, e: Entry)
    ensures Trailers(es + [e]) == Trailers(es) + if e.trailer then 1 else 0
  {
    assert (es + [e])[..|es|] == es;
  }

  /** What a lookup by name asks of an entry's name. */
  ghost predicate Wanted(x: Name, name: Name) {
    if FieldOf(name) != Other then Near(x, name) else IEqual(x, name)
  }

  /** Where a lookup does not see a difference: letter case, a confused pair, and byte 8 of a
      known field's 17. */
  predicate Overlooked(x: Name, name: Name, i: nat)
    requires i < |x| && i < |name|
  {
    CaseAt(x, name, i) || Confused(x[i], name[i]) || (|name| == 17 && i == 8 && FieldOf(name) != Other)
  }

  /** A lookup accepts every name it should, and a wrong one exactly if that differs from the
      one asked for only where the lookup does not see it. */
  lemma WantedIff(x: Name, name: Name)
    ensures CaseEqual(x, name) ==> Wanted(x, name)
    ensures Wanted(x, name) && !CaseEqual(x, name) <==>
              && |x| == |name| && (forall i :: 0 <= i < |x| ==> Overlooked(x, name, i))
              && exists i :: 0 <= i < |x| && !CaseAt(x, name, i)
  {
    hide FieldOf, SameAt, CaseAt, Confused;
    if |x| == |name| {
      forall i | 0 <= i < |x| ensures CaseAt(x, name, i) ==> SameAt(x, name, i)
        ensures Overlooked(x, name, i) <==> SameAt(x, name, i) || (|name| == 17 && i == 8 && FieldOf(name) != Other)
      {
        SameAtIff(x, name, i);
      }
      assert Wanted(x, name) <==> forall i :: 0 <= i < |x| ==> Overlooked(x, name, i);
    }
  }

  /** A name whose lookup cannot go wrong: no caret, no tilde, and not a known field's 17 bytes. */
  ghost predicate Plain(name: Name) {
    && (forall i :: 0 <= i < |name| ==> name[i] != 0x5E && name[i] != 0x7E)
    && !(|name| == 17 && FieldOf(name) != Other)
  }

  /** Among field names, a plain name is answered for by itself alone. */
  lemma PlainIsExact(x: Name, name: Name)
    requires TokenName(x) && TokenName(name) && Plain(name)
    ensures Wanted(x, name) <==> CaseEqual(x, name)
  {
    WantedIff(x, name);
    hide FieldOf, Wanted, CaseAt, Confused;
    if Wanted(x, name) && !CaseEqual(x, name) {
      var i :| 0 <= i < |x| && !CaseAt(x, name, i);
      assert Overlooked(x, name, i);
      ConfusedTokens(x[i], name[i]);
      assert false;
    }
  }

  /** And any other name is answered for by another. */
  lemma NotPlainIsNot(name: Name) returns (x: Name)
    requires TokenName(name) && !Plain(name)
    ensures TokenName(x) && Wanted(x, name) && !CaseEqual(x, name)
  {
    hide FieldOf;
    if k: nat :| k < |name| && (name[k] == 0x5E || name[k] == 0x7E) {
      x := name[k := if name[k] == 0x5E then 0x7E else 0x5E];
      assert !CaseAt(x, name, k);
    } else {
      x := name[8 := if name[8] == 0x30 then 0x31 else 0x30];
      assert !CaseAt(x, name, 8);
    }
    assert forall i :: 0 <= i < |x| ==> Overlooked(x, name, i);
    WantedIff(x, name);
  }

  /** Of 17-byte names byte 8 is never looked at: another name finds the header. */
  lemma ByteEightIsIgnored()
    ensures var asked, sent := Text("transferXencoding"), Text("transfer-encoding");
            Wanted(sent, asked) && !CaseEqual(sent, asked)
  {
    var asked, sent := Text("transferXencoding"), Text("transfer-encoding");
    assert Candidates(17)[0] == TransferEncoding;
    assert sent[8] == 0x2D && asked[8] == 0x58;
    assert !CaseAt(sent, asked, 8);
    assert forall i :: 0 <= i < 17 && i != 8 ==> sent[i] == asked[i];
    hide Lower, Match, Text, TextOf;
    assert Near(sent, asked);
    assert Near(sent, sent);
    MatchIsNear(sent, sent);
    CandidatesFit(17);
    assert FieldOf(sent) == TransferEncoding by { assert TextOf(TransferEncoding) == sent by { TransferText(); } }
    FieldOfNear(sent, asked);
  }

  lemma TransferText()
    ensures TextOf(TransferEncoding) == Text("transfer-encoding")
  {
  }

  /** The first entry of a linear scan, of one section, that answers to the name. */
  ghost function Scan(es: seq<Entry>, name: Name, trailer: bool, i: nat): Name
    requires i <= |es|
    decreases |es| - i
  {
    if i == |es| then []
    else if es[i].trailer == trailer && Wanted(es[i].name, name) then es[i].value
    else Scan(es, name, trailer, i + 1)
  }

  /** The first entry of one section with this very name, letter case aside. */
  ghost function FirstNamed(es: seq<Entry>, name: Name, trailer: bool, i: nat): Name
    requires i <= |es|
    decreases |es| - i
  {
    if i == |es| then []
    else if es[i].trailer == trailer && CaseEqual(es[i].name, name) then es[i].value
    else FirstNamed(es, name, trailer, i + 1)
  }

  /** The lookup finds the first entry of that very name wherever no entry is mistaken for it. */
  lemma {:induction false} ScanIsFirstNamed(es: seq<Entry>, name: Name, trailer: bool, i: nat)
    requires i <= |es|
    requires forall k :: i <= k < |es| && es[k].trailer == trailer ==>
              (Wanted(es[k].name, name) <==> CaseEqual(es[k].name, name))
    ensures Scan(es, name, trailer, i) == FirstNamed(es, name, trailer, i)
    decreases |es| - i
  {
    hide Wanted, CaseEqual;
    if i < |es| { ScanIsFirstNamed(es, name, trailer, i + 1); }
  }

  /** What the parser puts in a table: field names, each with its field. */
  ghost predicate Wellformed(es: seq<Entry>) {
    forall k :: 0 <= k < |es| ==> TokenName(es[k].name) && es[k].field == FieldOf(es[k].name)
  }

  /** The lookup of a name is right on every table if and only if the name is plain. */
  lemma LookupIsRightIff(name: Name, trailer: bool)
    requires TokenName(name)
    ensures Plain(name) <==>
              forall es: seq<Entry> :: Wellformed(es) ==> Scan(es, name, trailer, 0) == FirstNamed(es, name, trailer, 0)
  {
    hide FieldOf, Wanted, CaseEqual, TokenName, Plain;
    if Plain(name) {
      forall es: seq<Entry> | Wellformed(es) ensures Scan(es, name, trailer, 0) == FirstNamed(es, name, trailer, 0) {
        forall k | 0 <= k < |es| ensures Wanted(es[k].name, name) <==> CaseEqual(es[k].name, name) {
          PlainIsExact(es[k].name, name);
        }
        ScanIsFirstNamed(es, name, trailer, 0);
      }
    } else {
      var x := NotPlainIsNot(name);
      var es := [Entry(x, [1], FieldOf(x), trailer)];
      assert Wellformed(es) && Scan(es, name, trailer, 0) == [1] && FirstNamed(es, name, trailer, 0) == [];
    }
  }

  /** A lookup of "x~" is answered with the value of "x^". */
  lemma CaretAnswersForTilde(value: Name)
    requires value != []
    ensures var es := [Entry(Text("x^"), value, Other, false)];
            && Wellformed(es) && TokenName(Text("x~"))
            && Scan(es, Text("x~"), false, 0) == value && FirstNamed(es, Text("x~"), false, 0) == []
  {
    var sent, asked := Text("x^"), Text("x~");
    assert sent == [0x78, 0x5E] && asked == [0x78, 0x7E];
    assert !CaseAt(sent, asked, 1);
    assert forall i :: 0 <= i < 2 ==> Overlooked(sent, asked, i);
    assert FieldOf(sent) == Other;
    hide FieldOf, Text, Overlooked, CaseAt, Wanted;
    WantedIff(sent, asked);
  }

  class Headers {
    const inline: array<Entry>
    var overflow: seq<Entry>
    var size: nat
    var trailers: nat
    var bitmap: nat
    var trailerBitmap: nat
    ghost var entries: seq<Entry>

    ghost predicate Stored()
      reads `overflow, `size, `entries, inline
    {
      && inline.Length == INLINE && size == |entries| && |overflow| == (if size > INLINE then size - INLINE else 0)
      && forall i :: 0 <= i < size ==> entries[i] == if i < INLINE then inline[i] else overflow[i - INLINE]
    }

    ghost predicate Valid()
      reads this, inline
    {
      && Stored() && trailers == Trailers(entries)
      && Mapped(bitmap, entries, false) && Mapped(trailerBitmap, entries, true)
      && forall i :: 0 <= i < |entries| ==> entries[i].field == FieldOf(entries[i].name)
    }

    constructor ()
      ensures Valid() && entries == [] && fresh(inline)
    {
      inline := new Entry[INLINE](_ => Entry([], [], Other, false));
      overflow, size, trailers, bitmap, trailerBitmap, entries := [], 0, 0, 0, 0, [];
      new;
      hide FieldOf, And;
      NoBits();
    }

    method At(i: nat) returns (e: Entry)
      requires Stored() && i < size
      ensures e == entries[i]
    {
      if i < INLINE { e := inline[i]; } else { e := overflow[i - INLINE]; }
    }

    method Clear()
      requires Valid()
      modifies `overflow, `size, `trailers, `bitmap, `trailerBitmap, `entries
      ensures Valid() && entries == []
    {
      hide FieldOf, And;
      size, trailers, bitmap, trailerBitmap, overflow, entries := 0, 0, 0, 0, [], [];
      NoBits();
    }

    method Store(e: Entry)
      requires Stored()
      modifies inline, `overflow, `size, `entries
      ensures Stored() && entries == old(entries) + [e]
    {
      if size < INLINE { inline[size] := e; } else { overflow := overflow + [e]; }
      size := size + 1;
      entries := entries + [e];
    }

    /** Headers and trailers share the array but have budgets of their own. */
    method Add(e: Entry, max: nat) returns (ok: bool)
      requires Valid() && e.field == FieldOf(e.name)
      modifies this, inline
      ensures Valid() && (ok <==> (if e.trailer then old(trailers) else |old(entries)| - old(trailers)) < max)
      ensures entries == if ok then old(entries) + [e] else old(entries)
    {
      hide FieldOf, Mapped, And, Or;
      TrailersFit(entries);
      var used := if e.trailer then trailers else size - trailers;
      if used >= max { return false; }
      TrailersMore(entries, e);
      MarkField(e);
      Store(e);
      if e.trailer { trailers := trailers + 1; }
      return true;
    }

    /** The field's bit is set in the map of its section. */
    method MarkField(e: Entry)
      requires Mapped(bitmap, entries, false) && Mapped(trailerBitmap, entries, true)
      modifies `bitmap, `trailerBitmap
      ensures Mapped(bitmap, entries + [e], false) && Mapped(trailerBitmap, entries + [e], true)
    {
      hide Mapped, Or, Pow2, Code;
      MappedMore(bitmap, entries, e, false);
      MappedMore(trailerBitmap, entries, e, true);
      if e.field != Other {
        if e.trailer {
          trailerBitmap := Or(trailerBitmap, Pow2(Code(e.field)));
        } else {
          bitmap := Or(bitmap, Pow2(Code(e.field)));
        }
      }
    }

    /** get() and trailer() by field: the bitmap answers for what is absent. */
    method GetField(f: Field, trailer: bool) returns (value: Name)
      requires Valid() && f != Other
      ensures (value == [] && !Present(entries, f, trailer))
              || exists i :: 0 <= i < |entries| && entries[i].field == f && entries[i].trailer == trailer
                             && value == entries[i].value
                             && forall j :: 0 <= j < i ==> !(entries[j].field == f && entries[j].trailer == trailer)
    {
      hide FieldOf, And, Trailers;
      if !Has(if trailer then trailerBitmap else bitmap, f) { return []; }
      for i := 0 to size
        invariant forall j :: 0 <= j < i ==> !(entries[j].field == f && entries[j].trailer == trailer)
      {
        var h := At(i);
        if h.trailer == trailer && h.field == f { return h.value; }
      }
      return [];
    }

    /** get() and trailer() by name equal the first match of a linear scan of their section. */
    method Get(name: Name, trailer: bool) returns (value: Name)
      requires Valid()
      ensures value == Scan(entries, name, trailer, 0)
      ensures Wellformed(entries) && TokenName(name) && Plain(name) ==> value == FirstNamed(entries, name, trailer, 0)
    {
      hide FieldOf, Mapped, Near, IEqual, FirstNamed, TokenName, Plain;
      if TokenName(name) { LookupIsRightIff(name, trailer); }
      if trailer && trailers == 0 {
        TrailersFit(entries);
        NoTrailers(entries, name);
        return [];
      }
      var f := FieldOf(name);
      if f != Other {
        value := GetField(f, trailer);
        ByField(entries, name, trailer, value);
        return;
      }
      for i := 0 to size
        invariant Scan(entries, name, trailer, i) == Scan(entries, name, trailer, 0)
      {
        var h := At(i);
        OtherOnly(h.name, name);
        if h.trailer == trailer && h.field == Other {
          var same := IEquals(h.name, name);
          if same { return h.value; }
        }
      }
      return [];
    }
  }

  lemma NoBits()
    ensures Mapped(0, [], false) && Mapped(0, [], true)
  {
    forall f: Field ensures !Has(0, f) { AndZero(Pow2(Code(f))); }
  }

  lemma OtherOnly(x: Name, name: Name)
    requires FieldOf(name) == Other
    ensures IEqual(x, name) ==> FieldOf(x) == Other
  {
    if IEqual(x, name) { FieldOfNear(x, name); }
  }

  lemma {:induction false} NoTrailers(es: seq<Entry>, name: Name)
    requires forall i :: 0 <= i < |es| ==> !es[i].trailer
    ensures Scan(es, name, true, 0) == []
  {
    NoTrailersFrom(es, name, 0);
  }

  lemma {:induction false} NoTrailersFrom(es: seq<Entry>, name: Name, i: nat)
    requires i <= |es| && forall k :: 0 <= k < |es| ==> !es[k].trailer
    ensures Scan(es, name, true, i) == []
    decreases |es| - i
  {
    if i < |es| { NoTrailersFrom(es, name, i + 1); }
  }

  lemma ByField(es: seq<Entry>, name: Name, trailer: bool, value: Name)
    requires FieldOf(name) != Other && forall i :: 0 <= i < |es| ==> es[i].field == FieldOf(es[i].name)
    requires (value == [] && !Present(es, FieldOf(name), trailer))
             || exists i :: 0 <= i < |es| && es[i].field == FieldOf(name) && es[i].trailer == trailer
                            && value == es[i].value
                            && forall j :: 0 <= j < i ==> !(es[j].field == FieldOf(name) && es[j].trailer == trailer)
    ensures value == Scan(es, name, trailer, 0)
  {
    var f := FieldOf(name);
    hide FieldOf, Near;
    forall i | 0 <= i < |es|
      ensures Wanted(es[i].name, name) <==> es[i].field == f
    {
      SameFieldIsNear(es[i].name, name);
    }
    if Present(es, f, trailer) {
      var i :| 0 <= i < |es| && es[i].field == f && es[i].trailer == trailer && value == es[i].value
               && forall j :: 0 <= j < i ==> !(es[j].field == f && es[j].trailer == trailer);
      ScanTo(es, name, trailer, 0, i);
    } else {
      ScanTo(es, name, trailer, 0, |es|);
    }
  }

  lemma {:induction false} ScanTo(es: seq<Entry>, name: Name, trailer: bool, i: nat, k: nat)
    requires i <= k <= |es| && forall j :: i <= j < k ==> !(es[j].trailer == trailer && Wanted(es[j].name, name))
    ensures Scan(es, name, trailer, i) == Scan(es, name, trailer, k)
    decreases k - i
  {
    hide Wanted;
    if i < k { ScanTo(es, name, trailer, i + 1, k); }
  }
}
