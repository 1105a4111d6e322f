/** Which policies the decision hash (pkg/evaluator/hash.go) can tell apart.  A comma inside a
    node-group name can make two policies share a hash although their affinities differ. */
module HashCollisions {
  import opened Prelude
  import opened Api
  import opened Encoding
  import opened StateMachine
  import opened Registry
  import Rfc3339

  /** The hashed text of a decision under `p`. */
  function TextFor(p: SpillPolicy, s: State, t: int): string {
    Preimage(s, Some(NodeGroupAffinityFor(p, s)), t)
  }

  function HashFor(sha: string -> string, p: SpillPolicy, s: State, t: int): string {
    DecisionHash(sha, s, Some(NodeGroupAffinityFor(p, s)), t)
  }

  /** Equal texts stand for equal states, affinities and stamps. */
  ghost predicate TellApart(p: SpillPolicy, p': SpillPolicy) {
    forall s, t, s', t' :: TextFor(p, s, t) == TextFor(p', s', t') ==>
      s == s' && NodeGroupAffinityFor(p, s) == NodeGroupAffinityFor(p', s') && FormatSince(t) == FormatSince(t')
  }

  predicate OneLine(p: SpillPolicy) {
    '\n' !in p.dedicated && '\n' !in p.overflow
  }

  // ---------- The text of a pair ----------

  function PairText(d: string, o: string): string {
    Join(SortStrings([d, o]))
  }

  lemma PairTextIs(d: string, o: string)
    ensures PairText(d, o) == if LexLe(d, o) then d + "," + o else o + "," + d
  {
    assert [d, o][1..] == [o] && [o][1..] == [];
    assert SortStrings([o]) == [o];
    assert SortStrings([d, o]) == Insert(d, [o]) == if LexLe(d, o) then [d, o] else [o, d] by { assert [o][1..] == []; }
    assert [o, d][1..] == [d];
    assert Join([o]) == o && Join([d]) == d;
    assert Join([d, o]) == d + "," + o && Join([o, d]) == o + "," + d;
  }

  lemma JoinOfOne(d: string)
    ensures Join(SortStrings([d])) == d && Join(SortStrings([])) == ""
  {
    assert [d][1..] == [];
    assert SortStrings([d]) == [d];
  }

  /** One name sorts before `d`, the other one after it, and the joined texts meet. */
  predicate Crosses(d: string, o: string, o': string) {
    LexLe(d, o) && !LexLe(d, o') && d + "," + o == o' + "," + d
  }

  /** Beside the same dedicated group, two overflow groups give one text exactly when they are equal
      or cross. */
  lemma PairTextIff(d: string, o: string, o': string)
    ensures PairText(d, o) == PairText(d, o') <==> o == o' || Crosses(d, o, o') || Crosses(d, o', o)
  {
    PairTextIs(d, o); PairTextIs(d, o');
    AfterPrefix(d + ",", o, o');
    assert d + "," + o == (d + ",") + o && d + "," + o' == (d + ",") + o';
    if o + "," + d == o' + "," + d {
      assert |o + "," + d| == |o| + 1 + |d| && |o' + "," + d| == |o'| + 1 + |d|;
      assert o == (o + "," + d)[..|o|] && o' == (o' + "," + d)[..|o'|];
    }
  }

  // ---------- When two policies collide ----------

  /** What a caller can check: the dedicated groups are equal and the overflow groups cross. */
  predicate Collide(p: SpillPolicy, p': SpillPolicy) {
    && p.dedicated == p'.dedicated
    && (Crosses(p.dedicated, p.overflow, p'.overflow) || Crosses(p.dedicated, p'.overflow, p.overflow))
  }

  function RequiredText(p: SpillPolicy, s: State): string {
    if s == Spill then PairText(p.dedicated, p.overflow) else p.dedicated
  }

  function PreferredText(p: SpillPolicy, s: State): string {
    if s == Spill then p.dedicated else ""
  }

  lemma TextParts(p: SpillPolicy, s: State, t: int)
    ensures TextFor(p, s, t) == Text(s, RequiredText(p, s), PreferredText(p, s), FormatSince(t))
    ensures OneLine(p) ==> '\n' !in RequiredText(p, s) && '\n' !in PreferredText(p, s)
  {
    JoinOfOne(p.dedicated);
    PairTextIs(p.dedicated, p.overflow);
  }

  lemma LineIs(x: string)
    ensures Line(x) == x + "\n"
  {
  }

  /** The hashed text, line by line. */
  lemma TextIs(sha: string -> string, p: SpillPolicy, t: int)
    ensures TextFor(p, Steady, t)
         == Line("state=Steady") + (Line("required=" + p.dedicated) + Line("preferred="))
            + Line("since=" + FormatSince(t))
    ensures var pair := if LexLe(p.dedicated, p.overflow) then p.dedicated + "," + p.overflow
                        else p.overflow + "," + p.dedicated;
            TextFor(p, Spill, t)
            == Line("state=Spill") + (Line("required=" + pair) + Line("preferred=" + p.dedicated))
               + Line("since=" + FormatSince(t))
    ensures forall s :: HashFor(sha, p, s, t) == "sha256:" + sha(TextFor(p, s, t))
  {
    StateTexts();
    hide LexLe, FormatSince, PairText, Line, Preimage, StateName, NodeGroupAffinityFor;
    TextParts(p, Steady, t); TextParts(p, Spill, t);
    PairTextIs(p.dedicated, p.overflow);
    forall s { HashIs(sha, p, s, t); }
  }

  lemma StateTexts()
    ensures "state=" + StateName(Steady) == "state=Steady" && "state=" + StateName(Spill) == "state=Spill"
    ensures "preferred=" + "" == "preferred="
  {
  }

  lemma HashIs(sha: string -> string, p: SpillPolicy, s: State, t: int)
    ensures HashFor(sha, p, s, t) == "sha256:" + sha(TextFor(p, s, t))
  {
  }

  /** In Steady the texts of two policies agree exactly when the dedicated groups do, so commas never
      collide there; in Spill exactly when, beside that, the overflow groups are equal or cross.
      In either state the stamps must agree. */
  lemma SameTextIff(p: SpillPolicy, s: State, t: int, p': SpillPolicy, s': State, t': int)
    requires OneLine(p) && OneLine(p')
    ensures TextFor(p, s, t) == TextFor(p', s', t') <==>
              && s == s' && FormatSince(t) == FormatSince(t') && p.dedicated == p'.dedicated
              && (s == Steady || p.overflow == p'.overflow || Collide(p, p'))
  {
    hide TextFor, Text, FormatSince, PairText, LexLe;
    TextParts(p, s, t); TextParts(p', s', t');
    if TextFor(p, s, t) == TextFor(p', s', t') {
      TextInjective(
        s, RequiredText(p, s), PreferredText(p, s), FormatSince(t),
        s', RequiredText(p', s'), PreferredText(p', s'), FormatSince(t'));
    }
    PairTextIff(p.dedicated, p.overflow, p'.overflow);
  }

  /** The same for the hashes, for stamps that can be read back. */
  lemma SameHashIff(sha: string -> string, p: SpillPolicy, s: State, t: int, p': SpillPolicy, s': State, t': int)
    requires CollisionFree(sha) && OneLine(p) && OneLine(p') && Rfc3339.Writable(t) && Rfc3339.Writable(t')
    ensures HashFor(sha, p, s, t) == HashFor(sha, p', s', t') <==>
              && s == s' && p.dedicated == p'.dedicated
              && (t == 0 <==> t' == 0) && Rfc3339.FloorSecond(t) == Rfc3339.FloorSecond(t')
              && (s == Steady || p.overflow == p'.overflow || Collide(p, p'))
  {
    AfterPrefix(HASH_PREFIX, sha(TextFor(p, s, t)), sha(TextFor(p', s', t')));
    SameTextIff(p, s, t, p', s', t');
    SameSince(t, t');
  }

  lemma CollidingDiffer(p: SpillPolicy, p': SpillPolicy)
    requires Collide(p, p')
    ensures p.overflow != p'.overflow
  {
  }

  /** Two policies can be told apart exactly when they do not collide. */
  lemma TellApartIff(p: SpillPolicy, p': SpillPolicy)
    requires OneLine(p) && OneLine(p')
    ensures TellApart(p, p') <==> !Collide(p, p')
  {
    hide TextFor, FormatSince, Crosses, LexLe;
    if Collide(p, p') {
      SameTextIff(p, Spill, 0, p', Spill, 0);
      CollidingDiffer(p, p');
      assert NodeGroupAffinityFor(p, Spill).required[1] != NodeGroupAffinityFor(p', Spill).required[1];
    } else {
      forall s, t, s', t' | TextFor(p, s, t) == TextFor(p', s', t')
        ensures s == s' && NodeGroupAffinityFor(p, s) == NodeGroupAffinityFor(p', s')
        ensures FormatSince(t) == FormatSince(t')
      {
        SameTextIff(p, s, t, p', s', t');
      }
    }
  }

  /** Names without commas never collide. */
  lemma GoodNamesTellApart(p: SpillPolicy, p': SpillPolicy)
    requires GoodName(p.dedicated) && GoodName(p.overflow) && GoodName(p'.dedicated) && GoodName(p'.overflow)
    ensures TellApart(p, p')
  {
    if Collide(p, p') {
      var d := p.dedicated;
      var (o, o') :=
        if Crosses(d, p.overflow, p'.overflow) then (p.overflow, p'.overflow) else (p'.overflow, p.overflow);
      SplitAt(',', d, o, o', d);
      LexTotal(d, d);
      assert false;
    }
    TellApartIff(p, p');
  }

  lemma StateFromText(p: SpillPolicy, s: State, t: int)
    ensures |TextFor(p, s, t)| > 7 && TextFor(p, s, t)[7] == if s == Spill then 'p' else 't'
  {
    var line := Line("state=" + StateName(s));
    assert line[7] == if s == Spill then 'p' else 't';
    assert TextFor(p, s, t)[7] == line[7];
  }

  lemma NotAfterLast(x: string, u: string, y: string, v: string)
    requires x + ['\n'] + u == y + ['\n'] + v && '\n' !in v
    ensures |x| <= |y|
  {
    var s := x + ['\n'] + u;
    assert s[|x|] == '\n';
    assert forall i :: |y| < i < |s| ==> s[i] == v[i - |y| - 1] && v[i - |y| - 1] in v;
  }

  /** Text that ends a line, and the last line after it, are determined. */
  lemma LastLine(x: string, u: string, y: string, v: string)
    requires Line(x) + Line(u) == Line(y) + Line(v) && '\n' !in u && '\n' !in v
    ensures x == y && u == v
  {
    var s, s' := x + ['\n'] + u, y + ['\n'] + v;
    assert Line(x) + Line(u) == s + "\n" && Line(y) + Line(v) == s' + "\n";
    assert |s + "\n"| == |s| + 1 && |s' + "\n"| == |s'| + 1;
    assert s == (s + "\n")[..|s|] && s' == (s' + "\n")[..|s'|];
    NotAfterLast(x, u, y, v); NotAfterLast(y, v, x, u);
    assert x == s[..|x|] && y == s'[..|y|] && u == s[|x| + 1..] && v == s'[|y| + 1..];
  }

  /** What is written of an affinity, without the final newline. */
  function AffinityLines(a: NodeGroupAffinity): string {
    Line("required=" + Join(SortStrings(a.required))) + ("preferred=" + Join(SortStrings(a.preferred)))
  }

  lemma LastNewline(x: string, y: string)
    ensures x + Line(y) == Line(x + y)
  {
  }

  lemma AffinityShape(a: NodeGroupAffinity)
    ensures AffinityText(a) == Line(AffinityLines(a))
  {
    hide Join, SortStrings, Line;
    LastNewline(Line("required=" + Join(SortStrings(a.required))), "preferred=" + Join(SortStrings(a.preferred)));
  }

  lemma TextShape(p: SpillPolicy, s: State, t: int)
    ensures TextFor(p, s, t)
         == Line("state=" + StateName(s)) + (AffinityText(NodeGroupAffinityFor(p, s)) + Line("since=" + FormatSince(t)))
  {
    hide AffinityText, Line, NodeGroupAffinityFor, FormatSince, StateName;
    var head, middle := Line("state=" + StateName(s)), AffinityText(NodeGroupAffinityFor(p, s));
    assert (head + middle) + Line("since=" + FormatSince(t)) == head + (middle + Line("since=" + FormatSince(t)));
  }

  /** A hashed text shows its state, what was written of the affinity, and its stamp, whatever the names
      contain. */
  lemma SameTextExactly(p: SpillPolicy, s: State, t: int, p': SpillPolicy, s': State, t': int)
    ensures TextFor(p, s, t) == TextFor(p', s', t') <==>
              && s == s' && FormatSince(t) == FormatSince(t')
              && AffinityText(NodeGroupAffinityFor(p, s)) == AffinityText(NodeGroupAffinityFor(p', s'))
  {
    hide TextFor, AffinityText, AffinityLines, FormatSince, NodeGroupAffinityFor, Line, StateName;
    TextShape(p, s, t); TextShape(p', s', t');
    AffinityShape(NodeGroupAffinityFor(p, s)); AffinityShape(NodeGroupAffinityFor(p', s'));
    var x, x' := AffinityLines(NodeGroupAffinityFor(p, s)), AffinityLines(NodeGroupAffinityFor(p', s'));
    var u, u' := "since=" + FormatSince(t), "since=" + FormatSince(t');
    AfterPrefix("since=", FormatSince(t), FormatSince(t'));
    StateFromText(p, s, t); StateFromText(p', s', t');
    LineInjective(x, x');
    if TextFor(p, s, t) == TextFor(p', s', t') {
      AfterPrefix(Line("state=" + StateName(s)), Line(x) + Line(u), Line(x') + Line(u'));
      StampIsOneLine(t); StampIsOneLine(t');
      LastLine(x, u, x', u');
    }
  }

  lemma LineInjective(x: string, y: string)
    ensures Line(x) == Line(y) <==> x == y
  {
    assert |Line(x)| == |x| + 1 && |Line(y)| == |y| + 1;
    assert x == Line(x)[..|x|] && y == Line(y)[..|y|];
  }

  lemma StampIsOneLine(t: int)
    ensures '\n' !in "since=" + FormatSince(t)
  {
  }

  ghost predicate WrittenAlike(p: SpillPolicy, p': SpillPolicy, s: State) {
    AffinityText(NodeGroupAffinityFor(p, s)) == AffinityText(NodeGroupAffinityFor(p', s))
  }

  /** In Steady, what is written shows the dedicated group, whatever the name contains. */
  lemma SteadyShows(p: SpillPolicy, p': SpillPolicy)
    requires WrittenAlike(p, p', Steady)
    ensures NodeGroupAffinityFor(p, Steady) == NodeGroupAffinityFor(p', Steady)
  {
    JoinOfOne(p.dedicated); JoinOfOne(p'.dedicated);
    var x, x', last := Line("required=" + p.dedicated), Line("required=" + p'.dedicated), Line("preferred=");
    assert AffinityText(NodeGroupAffinityFor(p, Steady)) == x + last;
    assert AffinityText(NodeGroupAffinityFor(p', Steady)) == x' + last;
    SameBefore(x, x', last);
    LineInjective("required=" + p.dedicated, "required=" + p'.dedicated);
    AfterPrefix("required=", p.dedicated, p'.dedicated);
  }

  lemma SameBefore(x: string, y: string, last: string)
    requires x + last == y + last
    ensures x == y
  {
    assert |x + last| == |x| + |last| && |y + last| == |y| + |last|;
    assert x == (x + last)[..|x|] && y == (y + last)[..|y|];
  }

  /** For all names: two policies can be told apart exactly when their affinities in Spill are equal, or
      are not written alike. */
  lemma TellApartExactly(p: SpillPolicy, p': SpillPolicy)
    ensures TellApart(p, p') <==>
              !WrittenAlike(p, p', Spill) || NodeGroupAffinityFor(p, Spill) == NodeGroupAffinityFor(p', Spill)
  {
    hide TextFor, AffinityText, NodeGroupAffinityFor, FormatSince;
    if TellApart(p, p') {
      SameTextExactly(p, Spill, 0, p', Spill, 0);
    } else {
      var s, t, s', t' :| TextFor(p, s, t) == TextFor(p', s', t') &&
        !(s == s' && NodeGroupAffinityFor(p, s) == NodeGroupAffinityFor(p', s') && FormatSince(t) == FormatSince(t'));
      SameTextExactly(p, s, t, p', s', t');
      if s == Steady { SteadyShows(p, p'); }
    }
  }

  /** A policy can be told apart from itself whatever its names contain: state and stamp show. */
  lemma SelfTellsApart(p: SpillPolicy)
    ensures TellApart(p, p)
  {
    TellApartExactly(p, p);
  }

  function CrossingNames(): (string, string, string) {
    ("p,q,p", "q,p", "p,q")
  }

  lemma CrossingNamesCross()
    ensures var (d, o, o') := CrossingNames();
            Crosses(d, o, o') && d != "" && o != "" && o' != "" && d != o && d != o'
            && '\n' !in d && '\n' !in o && '\n' !in o'
  {
    var (d, o, o') := CrossingNames();
    assert LexLe(d, o);
    assert !LexLe(d, o') by {
      assert d[1..] == ",q,p" && o'[1..] == ",q" && d[1..][1..] == "q,p" && o'[1..][1..] == "q";
      assert "q,p"[1..] == ",p" && "q"[1..] == "";
    }
    assert d + "," + o == o' + "," + d;
  }

  /** An accepted configuration with two policies that differ and share every hash in Spill. */
  lemma AcceptedPoliciesCollide(ds: Defaults) returns (p: SpillPolicy, p': SpillPolicy)
    requires ValidDefaults(ds)
    ensures ValidRegistry(ds, [p, p']) && Collide(p, p')
    ensures NodeGroupAffinityFor(p, Spill) != NodeGroupAffinityFor(p', Spill)
    ensures forall sha, t :: HashFor(sha, p, Spill, t) == HashFor(sha, p', Spill, t)
  {
    var (d, o, o') := CrossingNames();
    CrossingNamesCross();
    p, p' := SpillPolicy("a", "a", d, o, ds.thresholds), SpillPolicy("b", "b", d, o', ds.thresholds);
    hide Crosses, LexLe, CrossingNames, TextFor;
    CollidingDiffer(p, p');
    assert NodeGroupAffinityFor(p, Spill).required[1] != NodeGroupAffinityFor(p', Spill).required[1];
    CollidingHash(p, p');
  }

  lemma CollidingHash(p: SpillPolicy, p': SpillPolicy)
    requires OneLine(p) && OneLine(p') && Collide(p, p')
    ensures forall sha, t :: HashFor(sha, p, Spill, t) == HashFor(sha, p', Spill, t)
  {
    hide LexLe, Crosses;
    forall sha: string -> string, t ensures HashFor(sha, p, Spill, t) == HashFor(sha, p', Spill, t) {
      SameTextIff(p, Spill, t, p', Spill, t);
      assert TextFor(p, Spill, t) == TextFor(p', Spill, t);
    }
  }

  /** The single policy of a configuration. */
  function OnlyPolicy(raw: RawConfig): SpillPolicy
    requires |raw.policies| == 1
  {
    BuildPolicy(raw.policies[0], BuildDefaults(raw.defaults))
  }

  /** Two configurations, each of which is accepted, whose versions of one policy for one Queue cannot
      be told apart although they differ: an operator who replaces the first by the second changes the
      overflow group unseen. */
  lemma AcceptedVersionsCollide(ds: Defaults) returns (raw: RawConfig, raw': RawConfig)
    requires ValidDefaults(BuildDefaults(ds))
    ensures raw.defaults == raw'.defaults == ds && |raw.policies| == |raw'.policies| == 1
    ensures ValidConfig(raw) && ValidConfig(raw')
    ensures var p, p' := OnlyPolicy(raw), OnlyPolicy(raw');
            && p.name == p'.name && p.queueName == p'.queueName
            && p.thresholds.timeOn == p'.thresholds.timeOn == ds.thresholds.timeOn > 0
            && p.overflow != p'.overflow && !TellApart(p, p')
  {
    var (d, o, o') := CrossingNames();
    CrossingNamesCross();
    hide Crosses, LexLe, CrossingNames, TellApart;
    raw := RawConfig(ds, [RawPolicy("a", "a", d, o, None)]);
    raw' := RawConfig(ds, [RawPolicy("a", "a", d, o', None)]);
    CollidingDiffer(OnlyPolicy(raw), OnlyPolicy(raw'));
    TellApartIff(OnlyPolicy(raw), OnlyPolicy(raw'));
  }
}
