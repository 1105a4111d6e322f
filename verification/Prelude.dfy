/** Small library types, and folds over lists whose order does not matter. */
module Prelude {
  datatype Option<+T> = None | Some(value: T)

  /** Times are nanoseconds. */
  const SECOND := 1_000_000_000

  function Sum<T>(f: T -> int, s: seq<T>): int {
    if s == [] then 0 else f(s[0]) + Sum(f, s[1..])
  }

  /** The largest f(x), and at least 0. */
  function Largest<T>(f: T -> int, s: seq<T>): int {
    if s == [] then 0 else
    var rest := Largest(f, s[1..]);
    if f(s[0]) > rest then f(s[0]) else rest
  }

  function Filter<T>(p: T -> bool, s: seq<T>): seq<T> {
    if s == [] then [] else if p(s[0]) then [s[0]] + Filter(p, s[1..]) else Filter(p, s[1..])
  }

  // ---------- Appending ----------

  lemma {:induction false} SumConcat<T>(f: T -> int, s: seq<T>, t: seq<T>)
    ensures Sum(f, s + t) == Sum(f, s) + Sum(f, t)
  {
    if s == [] {
      assert s + t == t;
    } else {
      assert (s + t)[1..] == s[1..] + t;
      SumConcat(f, s[1..], t);
    }
  }

  /** One more element of a prefix, for loops. */
  lemma SumPrefix<T>(f: T -> int, s: seq<T>, i: nat)
    requires i < |s|
    ensures Sum(f, s[..i + 1]) == Sum(f, s[..i]) + f(s[i])
  {
    assert s[..i + 1] == s[..i] + [s[i]];
    SumConcat(f, s[..i], [s[i]]);
    assert [s[i]][1..] == [];
  }

  lemma {:induction false} FilterConcat<T>(p: T -> bool, s: seq<T>, t: seq<T>)
    ensures Filter(p, s + t) == Filter(p, s) + Filter(p, t)
  {
    if s == [] {
      assert s + t == t;
    } else {
      assert (s + t)[1..] == s[1..] + t;
      FilterConcat(p, s[1..], t);
    }
  }

  lemma FilterLast<T>(p: T -> bool, s: seq<T>, x: T)
    ensures Filter(p, s + [x]) == Filter(p, s) + if p(x) then [x] else []
  {
    FilterConcat(p, s, [x]);
    assert [x][1..] == [];
  }

  lemma FilterPrefix<T>(p: T -> bool, s: seq<T>, i: nat)
    requires i < |s|
    ensures Filter(p, s[..i + 1]) == Filter(p, s[..i]) + if p(s[i]) then [s[i]] else []
  {
    assert s[..i + 1] == s[..i] + [s[i]];
    FilterLast(p, s[..i], s[i]);
  }

  lemma {:induction false} FilterMember<T>(p: T -> bool, s: seq<T>, x: T)
    ensures x in Filter(p, s) <==> x in s && p(x)
  {
    if s == [] {
    } else {
      assert s == [s[0]] + s[1..];
      FilterMember(p, s[1..], x);
    }
  }

  lemma {:induction false} LargestIs<T>(f: T -> int, s: seq<T>)
    ensures Largest(f, s) >= 0
    ensures forall x :: x in s ==> f(x) <= Largest(f, s)
    ensures Largest(f, s) == 0 || exists x :: x in s && f(x) == Largest(f, s)
  {
    if s == [] {
    } else {
      assert s == [s[0]] + s[1..];
      LargestIs(f, s[1..]);
      assert s[0] in s;
      if f(s[0]) <= Largest(f, s[1..]) && Largest(f, s[1..]) != 0 {
        var x :| x in s[1..] && f(x) == Largest(f, s[1..]);
        assert x in s;
      }
    }
  }

  lemma {:induction false} SumOfFilter<T>(f: T -> int, p: T -> bool, g: T -> int, s: seq<T>)
    requires forall x :: x in s ==> g(x) == if p(x) then f(x) else 0
    ensures Sum(f, Filter(p, s)) == Sum(g, s)
  {
    if s == [] {
    } else {
      assert s == [s[0]] + s[1..] && s[0] in s;
      SumOfFilter(f, p, g, s[1..]);
      var rest := Filter(p, s[1..]);
      assert ([s[0]] + rest)[1..] == rest;
    }
  }

  lemma {:induction false} FilterCounts<T>(p: T -> bool, s: seq<T>, x: T)
    ensures multiset(Filter(p, s))[x] == if p(x) then multiset(s)[x] else 0
  {
    if s == [] {
    } else {
      assert s == [s[0]] + s[1..];
      FilterCounts(p, s[1..], x);
    }
  }

  // ---------- Reordering ----------

  ghost predicate Permuted<T>(s: seq<T>, t: seq<T>) {
    multiset(s) == multiset(t)
  }

  lemma SameMembers<T>(s: seq<T>, t: seq<T>)
    requires Permuted(s, t)
    ensures forall x :: x in s <==> x in t
  {
    forall x ensures x in s <==> x in t { assert x in multiset(s) <==> x in multiset(t); }
  }

  lemma {:induction false} SumPermuted<T>(f: T -> int, s: seq<T>, t: seq<T>)
    requires Permuted(s, t)
    ensures Sum(f, s) == Sum(f, t)
  {
    if s == [] {
      assert |multiset(t)| == 0;
    } else {
      var i := Find(t, s);
      var t' := t[..i] + t[i + 1..];
      assert t == t[..i] + ([t[i]] + t[i + 1..]);
      SumConcat(f, t[..i], [t[i]] + t[i + 1..]);
      SumConcat(f, t[..i], t[i + 1..]);
      assert ([t[i]] + t[i + 1..])[1..] == t[i + 1..];
      assert s == [s[0]] + s[1..];
      assert multiset(t') == multiset(t) - multiset{s[0]};
      SumPermuted(f, s[1..], t');
    }
  }

  lemma Find<T>(t: seq<T>, s: seq<T>) returns (i: nat)
    requires s != [] && Permuted(s, t)
    ensures i < |t| && t[i] == s[0]
  {
    assert s[0] in multiset(t);
    i :| i < |t| && t[i] == s[0];
  }

  lemma {:induction false} FilterPermuted<T>(p: T -> bool, s: seq<T>, t: seq<T>)
    requires Permuted(s, t)
    ensures Permuted(Filter(p, s), Filter(p, t))
  {
    if s == [] {
      assert |multiset(t)| == 0;
    } else {
      var i := Find(t, s);
      var t' := t[..i] + t[i + 1..];
      assert t == t[..i] + ([t[i]] + t[i + 1..]);
      FilterConcat(p, t[..i], [t[i]] + t[i + 1..]);
      FilterConcat(p, t[..i], t[i + 1..]);
      assert ([t[i]] + t[i + 1..])[1..] == t[i + 1..];
      assert s == [s[0]] + s[1..];
      assert multiset(t') == multiset(t) - multiset{s[0]};
      FilterPermuted(p, s[1..], t');
    }
  }

  lemma LargestPermuted<T>(f: T -> int, s: seq<T>, t: seq<T>)
    requires Permuted(s, t)
    ensures Largest(f, s) == Largest(f, t)
  {
    LargestIs(f, s); LargestIs(f, t);
    SameMembers(s, t);
  }

  // ---------- Pointwise reasoning ----------

  lemma {:induction false} SumAdds<T>(f: T -> int, g: T -> int, h: T -> int, s: seq<T>)
    requires forall x :: x in s ==> h(x) == f(x) + g(x)
    ensures Sum(h, s) == Sum(f, s) + Sum(g, s)
  {
    if s == [] {
    } else {
      assert s[0] in s;
      SumAdds(f, g, h, s[1..]);
    }
  }

  lemma {:induction false} SumSame<T>(f: T -> int, g: T -> int, s: seq<T>)
    requires forall x :: x in s ==> f(x) == g(x)
    ensures Sum(f, s) == Sum(g, s)
  {
    if s == [] {
    } else {
      assert s[0] in s;
      SumSame(f, g, s[1..]);
    }
  }
}
