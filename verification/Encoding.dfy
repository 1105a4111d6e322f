/** The decision hash (pkg/evaluator/hash.go): the text fed to sha256, and why it is a canonical
    encoding of state, affinity and stamp.

    sha256 with its hexadecimal rendering is the parameter `sha`; that it has no collisions is the
    hypothesis `CollisionFree`. */
module Encoding {
  import opened Prelude
  import opened Api
  import Rfc3339

  const HASH_PREFIX := "sha256:"

  // ---------- Sorting ----------

  /** Byte order on strings. */
  predicate LexLe(a: string, b: string) {
    a == "" || (b != "" && (a[0] < b[0] || (a[0] == b[0] && LexLe(a[1..], b[1..]))))
  }

  lemma {:induction false} LexTotal(a: string, b: string)
    ensures LexLe(a, b) || LexLe(b, a)
  {
    if a == "" || b == "" {
    } else {
      LexTotal(a[1..], b[1..]);
    }
  }

  lemma {:induction false} LexAntisymmetric(a: string, b: string)
    requires LexLe(a, b) && LexLe(b, a)
    ensures a == b
  {
    if a == "" {
    } else {
      LexAntisymmetric(a[1..], b[1..]);
      assert a == [a[0]] + a[1..] && b == [b[0]] + b[1..];
    }
  }

  lemma {:induction false} LexTransitive(a: string, b: string, c: string)
    requires LexLe(a, b) && LexLe(b, c)
    ensures LexLe(a, c)
  {
    if a == "" || !(a[0] == b[0] == c[0]) {
    } else {
      LexTransitive(a[1..], b[1..], c[1..]);
    }
  }

  /** Position `i` is the first difference, and there `a` is smaller. */
  predicate SmallerAt(a: string, b: string, i: int) {
    0 <= i < |a| && i < |b| && a[..i] == b[..i] && a[i] < b[i]
  }

  lemma SmallerShifts(a: string, b: string, i: int)
    requires a != "" && b != "" && a[0] == b[0] && 0 <= i
    ensures SmallerAt(a, b, i + 1) <==> SmallerAt(a[1..], b[1..], i)
  {
    if i < |a| - 1 && i < |b| - 1 {
      assert a[..i + 1] == [a[0]] + a[1..][..i] && b[..i + 1] == [b[0]] + b[1..][..i];
      assert a[..i + 1][1..] == a[1..][..i] && b[..i + 1][1..] == b[1..][..i];
    }
  }

  lemma SameStart(a: string, b: string, i: int)
    requires SmallerAt(a, b, i)
    ensures i > 0 ==> a[0] == b[0]
  {
    if i > 0 { assert a[..i][0] == b[..i][0]; }
  }

  /** The order is the one of dictionaries: the first difference decides, and a prefix comes first. */
  lemma {:induction false} LexIs(a: string, b: string)
    ensures LexLe(a, b) <==> a <= b || exists i :: SmallerAt(a, b, i)
  {
    if a == "" || b == "" {
    } else if a[0] != b[0] {
      assert SmallerAt(a, b, 0) <==> a[0] < b[0];
      forall i | SmallerAt(a, b, i) ensures i == 0 { SameStart(a, b, i); }
    } else {
      LexIs(a[1..], b[1..]);
      assert a == [a[0]] + a[1..] && b == [b[0]] + b[1..];
      assert a <= b <==> a[1..] <= b[1..];
      hide SmallerAt;
      if i :| SmallerAt(a[1..], b[1..], i) { SmallerIsNatural(a[1..], b[1..], i); SmallerShifts(a, b, i); }
      if i :| SmallerAt(a, b, i) { SmallerIsNatural(a, b, i); NotAtStart(a, b, i); SmallerShifts(a, b, i - 1); }
    }
  }

  lemma SmallerIsNatural(a: string, b: string, i: int)
    requires SmallerAt(a, b, i)
    ensures i >= 0
  {
  }

  lemma NotAtStart(a: string, b: string, i: int)
    requires SmallerAt(a, b, i) && a != "" && b != "" && a[0] == b[0]
    ensures i > 0
  {
  }

  ghost predicate Sorted(s: seq<string>) {
    forall i, j :: 0 <= i <= j < |s| ==> LexLe(s[i], s[j])
  }

  function Insert(x: string, s: seq<string>): seq<string> {
    if s == [] || LexLe(x, s[0]) then [x] + s else [s[0]] + Insert(x, s[1..])
  }

  /** sort.Strings, whose result `SortedUnique` shows to be determined by its contract. */
  function SortStrings(s: seq<string>): seq<string> {
    if s == [] then [] else Insert(s[0], SortStrings(s[1..]))
  }

  lemma {:induction false} InsertSorts(x: string, s: seq<string>)
    requires Sorted(s)
    ensures Sorted(Insert(x, s)) && multiset(Insert(x, s)) == multiset(s) + multiset{x}
  {
    LexTotal(x, x);
    if s == [] {
    } else if LexLe(x, s[0]) {
      forall j | 0 <= j < |s| ensures LexLe(x, s[j]) { LexTransitive(x, s[0], s[j]); }
    } else {
      LexTotal(x, s[0]);
      InsertSorts(x, s[1..]);
      var t := Insert(x, s[1..]);
      assert s == [s[0]] + s[1..];
      forall j | 0 <= j < |t| ensures LexLe(s[0], t[j]) {
        assert t[j] in multiset(t);
        assert t[j] == x || t[j] in s[1..];
      }
    }
  }

  lemma {:induction false} SortSorts(s: seq<string>)
    ensures Sorted(SortStrings(s)) && multiset(SortStrings(s)) == multiset(s)
  {
    if s == [] {
    } else {
      SortSorts(s[1..]);
      InsertSorts(s[0], SortStrings(s[1..]));
      assert s == [s[0]] + s[1..];
    }
  }

  lemma FirstIsLeast(a: seq<string>, x: string)
    requires Sorted(a) && x in multiset(a)
    ensures LexLe(a[0], x)
  {
    var i :| 0 <= i < |a| && a[i] == x;
  }

  lemma WithoutFirst(a: seq<string>)
    requires a != []
    ensures a == [a[0]] + a[1..] && multiset(a[1..]) == multiset(a) - multiset{a[0]} && a[0] in multiset(a)
    ensures Sorted(a) ==> Sorted(a[1..])
  {
    assert a == [a[0]] + a[1..];
  }

  /** A multiset has one sorted listing. */
  lemma {:induction false} SortedUnique(a: seq<string>, b: seq<string>)
    requires Sorted(a) && Sorted(b) && multiset(a) == multiset(b)
    ensures a == b
  {
    if a == [] {
      assert |multiset(b)| == 0;
    } else {
      assert |multiset(b)| > 0;
      WithoutFirst(a); WithoutFirst(b);
      FirstIsLeast(a, b[0]); FirstIsLeast(b, a[0]);
      hide Sorted, LexLe;
      LexAntisymmetric(a[0], b[0]);
      SortedUnique(a[1..], b[1..]);
    }
  }

  // ---------- Joining ----------

  function Join(s: seq<string>): string {
    if s == [] then "" else if |s| == 1 then s[0] else s[0] + "," + Join(s[1..])
  }

  /** A name that cannot be confused with a separator. */
  predicate GoodName(s: string) {
    s != "" && ',' !in s && '\n' !in s
  }

  ghost predicate GoodNames(s: seq<string>) {
    forall x :: x in s ==> GoodName(x)
  }

  /** Text before the first separator, and the text after it, are determined. */
  lemma SplitAt(c: char, x: string, u: string, y: string, v: string)
    requires x + [c] + u == y + [c] + v && c !in x && c !in y
    ensures x == y && u == v
  {
    var s := x + [c] + u;
    assert s[|x|] == c && s[|y|] == c;
    assert forall i :: 0 <= i < |x| ==> s[i] == x[i] && x[i] in x;
    assert forall i :: 0 <= i < |y| ==> s[i] == y[i] && y[i] in y;
    assert |x| == |y|;
    assert x == s[..|x|] && y == s[..|y|];
    assert u == s[|x| + 1..] && v == s[|y| + 1..];
  }

  /** Only a joined list of at least two names contains a comma, and only [] joins to nothing. */
  lemma JoinShape(a: seq<string>)
    requires GoodNames(a)
    ensures ',' in Join(a) <==> |a| > 1
    ensures Join(a) == "" <==> a == []
  {
    if a != [] { assert a[0] in a; }
    if |a| > 1 { assert Join(a)[|a[0]|] == ','; }
  }

  lemma {:induction false} JoinInjective(a: seq<string>, b: seq<string>)
    requires GoodNames(a) && GoodNames(b) && Join(a) == Join(b)
    ensures a == b
  {
    JoinShape(a); JoinShape(b);
    if |a| <= 1 {
    } else {
      assert a[0] in a && b[0] in b;
      SplitAt(',', a[0], Join(a[1..]), b[0], Join(b[1..]));
      JoinInjective(a[1..], b[1..]);
      assert a == [a[0]] + a[1..] && b == [b[0]] + b[1..];
    }
  }

  lemma {:induction false} JoinHasNoNewline(a: seq<string>)
    requires GoodNames(a)
    ensures '\n' !in Join(a)
  {
    if a == [] {
    } else if |a| == 1 {
      assert a[0] in a;
    } else {
      assert a[0] in a;
      JoinHasNoNewline(a[1..]);
    }
  }

  // ---------- The preimage ----------

  /** "" for the zero time, otherwise the RFC 3339 stamp. */
  function FormatSince(t: int): (s: string)
    ensures '\n' !in s
  {
    Rfc3339.FormatIsOneLine(t);
    if t == 0 then "" else Rfc3339.Format(t)
  }

  function Line(s: string): string {
    s + "\n"
  }

  function AffinityText(a: NodeGroupAffinity): string {
    Line("required=" + Join(SortStrings(a.required))) + Line("preferred=" + Join(SortStrings(a.preferred)))
  }

  /** A missing affinity is written like an empty one. */
  function OrEmpty(a: Option<NodeGroupAffinity>): NodeGroupAffinity {
    if a.Some? then a.value else NodeGroupAffinity([], [])
  }

  function Preimage(state: State, a: Option<NodeGroupAffinity>, since: int): string {
    Line("state=" + StateName(state)) + AffinityText(OrEmpty(a)) + Line("since=" + FormatSince(since))
  }

  function DecisionHash(sha: string -> string, state: State, a: Option<NodeGroupAffinity>, since: int): string {
    HASH_PREFIX + sha(Preimage(state, a, since))
  }

  ghost predicate CollisionFree(sha: string -> string) {
    forall x, y :: sha(x) == sha(y) ==> x == y
  }

  /** The part of a decision that the hash stands for. */
  ghost predicate SameEffect(s: State, a: NodeGroupAffinity, t: int, s': State, a': NodeGroupAffinity, t': int) {
    && s == s'
    && multiset(a.required) == multiset(a'.required)
    && multiset(a.preferred) == multiset(a'.preferred)
    && (t == 0 <==> t' == 0)
    && Rfc3339.FloorSecond(t) == Rfc3339.FloorSecond(t')
  }

  ghost predicate GoodAffinity(a: NodeGroupAffinity) {
    GoodNames(a.required) && GoodNames(a.preferred)
  }

  lemma SortKeepsGood(s: seq<string>)
    requires GoodNames(s)
    ensures GoodNames(SortStrings(s))
  {
    SortSorts(s);
    forall x | x in SortStrings(s) ensures GoodName(x) { assert x in multiset(SortStrings(s)); }
  }

  lemma SameJoin(a: seq<string>, b: seq<string>)
    requires GoodNames(a) && GoodNames(b)
    ensures Join(SortStrings(a)) == Join(SortStrings(b)) <==> multiset(a) == multiset(b)
  {
    SortSorts(a); SortSorts(b);
    SortKeepsGood(a); SortKeepsGood(b);
    if Join(SortStrings(a)) == Join(SortStrings(b)) { JoinInjective(SortStrings(a), SortStrings(b)); }
    if multiset(a) == multiset(b) { SortedUnique(SortStrings(a), SortStrings(b)); }
  }

  lemma SameSince(t: int, t': int)
    requires Rfc3339.Writable(t) && Rfc3339.Writable(t')
    ensures FormatSince(t) == FormatSince(t')
       <==> (t == 0 <==> t' == 0) && Rfc3339.FloorSecond(t) == Rfc3339.FloorSecond(t')
  {
    Rfc3339.SameStamp(t, t');
    Rfc3339.ParseAfterFormat(t); Rfc3339.ParseAfterFormat(t');
  }

  lemma StateLines(s: State, s': State)
    ensures "state=" + StateName(s) == "state=" + StateName(s') <==> s == s'
    ensures '\n' !in "state=" + StateName(s)
  {
    assert |"state=" + StateName(s)| == 6 + |StateName(s)|;
    assert |"state=" + StateName(s')| == 6 + |StateName(s')|;
  }

  /** Text after a common prefix is determined. */
  lemma AfterPrefix(p: string, x: string, y: string)
    ensures p + x == p + y <==> x == y
  {
    assert x == (p + x)[|p|..] && y == (p + y)[|p|..];
  }

  /** Four lines without inner newlines are determined by their concatenation. */
  lemma FourLines(a: string, b: string, c: string, d: string, a': string, b': string, c': string, d': string)
    requires '\n' !in a && '\n' !in b && '\n' !in c && '\n' !in d
    requires '\n' !in a' && '\n' !in b' && '\n' !in c' && '\n' !in d'
    requires Line(a) + (Line(b) + Line(c)) + Line(d) == Line(a') + (Line(b') + Line(c')) + Line(d')
    ensures a == a' && b == b' && c == c' && d == d'
  {
    var l, l' := Line(a) + (Line(b) + Line(c)) + Line(d), Line(a') + (Line(b') + Line(c')) + Line(d');
    assert l == a + ['\n'] + (Line(b) + Line(c) + Line(d)) && l' == a' + ['\n'] + (Line(b') + Line(c') + Line(d'));
    SplitAt('\n', a, Line(b) + Line(c) + Line(d), a', Line(b') + Line(c') + Line(d'));
    assert Line(b) + Line(c) + Line(d) == b + ['\n'] + (Line(c) + Line(d));
    assert Line(b') + Line(c') + Line(d') == b' + ['\n'] + (Line(c') + Line(d'));
    SplitAt('\n', b, Line(c) + Line(d), b', Line(c') + Line(d'));
    assert Line(c) + Line(d) == c + ['\n'] + Line(d) && Line(c') + Line(d') == c' + ['\n'] + Line(d');
    SplitAt('\n', c, Line(d), c', Line(d'));
    assert Line(d) == d + ['\n'] + "" && Line(d') == d' + ['\n'] + "";
    SplitAt('\n', d, "", d', "");
  }

  /** The preimage as a function of the texts that vary in it. */
  function Text(state: State, required: string, preferred: string, since: string): string {
    Line("state=" + StateName(state)) + (Line("required=" + required) + Line("preferred=" + preferred))
    + Line("since=" + since)
  }

  lemma TextInjective(s: State, r: string, p: string, f: string, s': State, r': string, p': string, f': string)
    requires '\n' !in r && '\n' !in p && '\n' !in f && '\n' !in r' && '\n' !in p' && '\n' !in f'
    requires Text(s, r, p, f) == Text(s', r', p', f')
    ensures s == s' && r == r' && p == p' && f == f'
  {
    StateLines(s, s'); StateLines(s', s);
    AfterPrefix("required=", r, r'); AfterPrefix("preferred=", p, p'); AfterPrefix("since=", f, f');
    FourLines("state=" + StateName(s), "required=" + r, "preferred=" + p, "since=" + f,
              "state=" + StateName(s'), "required=" + r', "preferred=" + p', "since=" + f');
  }

  lemma JoinedSort(s: seq<string>)
    requires GoodNames(s)
    ensures '\n' !in Join(SortStrings(s))
  {
    SortKeepsGood(s);
    JoinHasNoNewline(SortStrings(s));
  }

  /** Two preimages are equal exactly when the state, the multiset of required groups, the multiset
      of preferred groups and the whole-second stamp agree. */
  lemma PreimageCanonical(s: State, a: NodeGroupAffinity, t: int, s': State, a': NodeGroupAffinity, t': int)
    requires GoodAffinity(a) && GoodAffinity(a') && Rfc3339.Writable(t) && Rfc3339.Writable(t')
    ensures Preimage(s, Some(a), t) == Preimage(s', Some(a'), t') <==> SameEffect(s, a, t, s', a', t')
  {
    hide LexLe, SortStrings, FormatSince, Rfc3339.Writable;
    SameJoin(a.required, a'.required); SameJoin(a.preferred, a'.preferred); SameSince(t, t');
    JoinedSort(a.required); JoinedSort(a'.required); JoinedSort(a.preferred); JoinedSort(a'.preferred);
    if Preimage(s, Some(a), t) == Preimage(s', Some(a'), t') {
      TextInjective(
        s, Join(SortStrings(a.required)), Join(SortStrings(a.preferred)), FormatSince(t),
        s', Join(SortStrings(a'.required)), Join(SortStrings(a'.preferred)), FormatSince(t'));
    }
  }

  /** Equal hashes stand for equal effects, and only for those. */
  lemma HashCanonical(
      sha: string -> string, s: State, a: NodeGroupAffinity, t: int, s': State, a': NodeGroupAffinity, t': int)
    requires CollisionFree(sha)
    requires GoodAffinity(a) && GoodAffinity(a') && Rfc3339.Writable(t) && Rfc3339.Writable(t')
    ensures DecisionHash(sha, s, Some(a), t) == DecisionHash(sha, s', Some(a'), t') <==> SameEffect(s, a, t, s', a', t')
  {
    AfterPrefix(HASH_PREFIX, sha(Preimage(s, Some(a), t)), sha(Preimage(s', Some(a'), t')));
    PreimageCanonical(s, a, t, s', a', t');
  }

  // ---------- The code that feeds the digest ----------

  /** The running digest: `written` is the text it has consumed. */
  class Digest {
    var written: string

    constructor ()
      ensures written == ""
    {
      written := "";
    }

    method Write(s: string)
      modifies this
      ensures written == old(written) + s
    {
      written := written + s;
    }

    method WriteLine(line: string)
      modifies this
      ensures written == old(written) + Line(line)
    {
      Write(line);
      Write("\n");
      assert written == old(written) + (line + "\n");
    }

    method WriteAffinity(affinity: Option<NodeGroupAffinity>)
      modifies this
      ensures written == old(written) + AffinityText(OrEmpty(affinity))
    {
      var required, preferred := [], [];
      if affinity.Some? {
        required := required + affinity.value.required;
        preferred := preferred + affinity.value.preferred;
        assert required == affinity.value.required && preferred == affinity.value.preferred;
      }
      required := SortStrings(required);
      preferred := SortStrings(preferred);
      WriteLine("required=" + Join(required));
      WriteLine("preferred=" + Join(preferred));
    }

    method Sum(sha: string -> string) returns (digest: string)
      ensures digest == sha(written)
    {
      digest := sha(written);
    }
  }

  method HashDecision(sha: string -> string, state: State, affinity: Option<NodeGroupAffinity>, since: int)
    returns (hash: string)
    ensures hash == DecisionHash(sha, state, affinity, since)
  {
    var h := new Digest();
    h.WriteLine("state=" + StateName(state));
    assert h.written == Line("state=" + StateName(state));
    h.WriteAffinity(affinity);
    var stamp := FormatSince(since);
    h.WriteLine("since=" + stamp);
    var digest := h.Sum(sha);
    hash := HASH_PREFIX + digest;
  }
}
