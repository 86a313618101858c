/** The sorted permutation of a sequence, as slices.Sort and slices.SortFunc deliver it when no two
    different elements compare equal, and the byte order of strings. */
module Sorting {

  ghost predicate Linear<T(!new)>(le: (T, T) -> bool) {
    && (forall x, y :: le(x, y) || le(y, x))
    && (forall x, y, z :: le(x, y) && le(y, z) ==> le(x, z))
  }

  ghost predicate Sorted<T>(le: (T, T) -> bool, s: seq<T>) {
    forall i, j :: 0 <= i < j < |s| ==> le(s[i], s[j])
  }

  function Insert<T>(le: (T, T) -> bool, x: T, s: seq<T>): seq<T> {
    if s == [] then [x] else if le(x, s[0]) then [x] + s else [s[0]] + Insert(le, x, s[1..])
  }

  function Sort<T>(le: (T, T) -> bool, s: seq<T>): seq<T> {
    if s == [] then [] else Insert(le, s[0], Sort(le, s[1..]))
  }

  lemma HeadCounts<T>(s: seq<T>)
    requires s != []
    ensures multiset(s) == multiset{s[0]} + multiset(s[1..])
  {
    assert s == [s[0]] + s[1..];
  }

  lemma {:induction false} InsertAdds<T>(le: (T, T) -> bool, x: T, s: seq<T>)
    ensures multiset(Insert(le, x, s)) == multiset(s) + multiset{x} && |Insert(le, x, s)| == |s| + 1
  {
    if s != [] && !le(x, s[0]) {
      InsertAdds(le, x, s[1..]);
      assert s == [s[0]] + s[1..];
    }
  }

  lemma {:induction false} InsertSorts<T(!new)>(le: (T, T) -> bool, x: T, s: seq<T>)
    requires Linear(le) && Sorted(le, s)
    ensures Sorted(le, Insert(le, x, s))
  {
    if s != [] && !le(x, s[0]) {
      InsertSorts(le, x, s[1..]);
      InsertAdds(le, x, s[1..]);
      var t := Insert(le, x, s[1..]);
      forall i | 0 <= i < |t|
        ensures le(s[0], t[i])
      {
        assert t[i] in multiset(t);
        assert t[i] in s[1..] || t[i] == x;
      }
    }
  }

  /** Sorting permutes, and orders. */
  lemma {:induction false} SortSorts<T(!new)>(le: (T, T) -> bool, s: seq<T>)
    requires Linear(le)
    ensures multiset(Sort(le, s)) == multiset(s) && Sorted(le, Sort(le, s)) && |Sort(le, s)| == |s|
  {
    if s != [] {
      var rest := Sort(le, s[1..]);
      SortSorts(le, s[1..]);
      InsertAdds(le, s[0], rest);
      InsertSorts(le, s[0], rest);
      HeadCounts(s);
    }
  }

  lemma SortMembers<T(!new)>(le: (T, T) -> bool, s: seq<T>, x: T)
    requires Linear(le)
    ensures x in Sort(le, s) <==> x in s
  {
    SortSorts(le, s);
    assert x in Sort(le, s) <==> x in multiset(Sort(le, s));
    assert x in s <==> x in multiset(s);
  }

  ghost predicate Reflexive<T(!new)>(le: (T, T) -> bool) {
    forall x :: le(x, x)
  }

  ghost predicate TieFree<T(!new)>(le: (T, T) -> bool, m: multiset<T>) {
    forall x, y :: x in m && y in m && le(x, y) && le(y, x) ==> x == y
  }

  lemma FirstsAgree<T(!new)>(le: (T, T) -> bool, s: seq<T>, t: seq<T>)
    requires Reflexive(le) && Sorted(le, s) && Sorted(le, t) && multiset(s) == multiset(t) && TieFree(le, multiset(s))
    ensures s == [] <==> t == []
    ensures s != [] ==> s[0] == t[0]
  {
    assert |s| == |multiset(s)| && |t| == |multiset(t)|;
    if s != [] {
      assert s[0] in multiset(t) && t[0] in multiset(s);
      FirstIsLeast(le, s, t[0]);
      FirstIsLeast(le, t, s[0]);
    }
  }

  lemma TailsAgree<T>(s: seq<T>, t: seq<T>)
    requires s != [] && t != [] && s[0] == t[0] && multiset(s) == multiset(t)
    ensures multiset(s[1..]) == multiset(t[1..])
  {
    HeadCounts(s);
    HeadCounts(t);
    assert multiset(s[1..]) == multiset(s) - multiset{s[0]} == multiset(t[1..]);
  }

  lemma TailSorted<T(!new)>(le: (T, T) -> bool, s: seq<T>)
    requires s != [] && Sorted(le, s) && TieFree(le, multiset(s))
    ensures Sorted(le, s[1..]) && TieFree(le, multiset(s[1..]))
  {
  }

  lemma HeadAndTail<T>(s: seq<T>, t: seq<T>)
    requires s != [] && t != [] && s[0] == t[0] && s[1..] == t[1..]
    ensures s == t
  {
  }

  lemma {:induction false} SortedAgree<T(!new)>(le: (T, T) -> bool, s: seq<T>, t: seq<T>)
    requires Reflexive(le) && Sorted(le, s) && Sorted(le, t) && multiset(s) == multiset(t) && TieFree(le, multiset(s))
    ensures s == t
  {
    FirstsAgree(le, s, t);
    if s != [] {
      TailsAgree(s, t);
      TailSorted(le, s);
      TailSorted(le, t);
      SortedAgree(le, s[1..], t[1..]);
      HeadAndTail(s, t);
    }
  }

  /** There is only one sorted permutation of elements no two of which compare equal. */
  lemma SortedIsUnique<T(!new)>(le: (T, T) -> bool, s: seq<T>, t: seq<T>)
    requires Linear(le) && Sorted(le, s) && Sorted(le, t) && multiset(s) == multiset(t)
    requires forall x, y :: x in s && y in s && le(x, y) && le(y, x) ==> x == y
    ensures s == t
  {
    SortedAgree(le, s, t);
  }

  lemma FirstIsLeast<T(!new)>(le: (T, T) -> bool, s: seq<T>, x: T)
    requires Reflexive(le) && Sorted(le, s) && x in multiset(s)
    ensures s != [] && x in s && le(s[0], x)
  {
  }

  // ---------------------------------------------------------------- without ties

  ghost predicate Unique<T>(s: seq<T>) {
    forall i, j :: 0 <= i < j < |s| ==> s[i] != s[j]
  }

  ghost predicate NoTies<T>(le: (T, T) -> bool, s: seq<T>) {
    forall i, j :: 0 <= i < |s| && 0 <= j < |s| && le(s[i], s[j]) && le(s[j], s[i]) ==> s[i] == s[j]
  }

  ghost predicate StrictlySorted<T>(le: (T, T) -> bool, s: seq<T>) {
    forall i, j :: 0 <= i < j < |s| ==> le(s[i], s[j]) && !le(s[j], s[i])
  }

  lemma CountMembers<T>(s: seq<T>, x: T)
    ensures x in s <==> multiset(s)[x] > 0
  {
  }

  lemma {:induction false} UniqueOnce<T>(s: seq<T>, x: T)
    requires Unique(s)
    ensures multiset(s)[x] <= 1
  {
    if s != [] {
      assert s == [s[0]] + s[1..];
      UniqueOnce(s[1..], x);
      assert Unique(s[1..]);
      CountMembers(s[1..], s[0]);
    }
  }

  lemma TwiceCounts<T>(s: seq<T>, i: nat, j: nat)
    requires i < j < |s| && s[i] == s[j]
    ensures multiset(s)[s[i]] >= 2
  {
    assert s == s[..j] + s[j..];
    assert s[..j][i] == s[i] && s[j..][0] == s[i];
    CountMembers(s[..j], s[i]);
    CountMembers(s[j..], s[i]);
  }

  /** Sorting by a key that no two elements share leaves the keys ascending, and any other way of
      sorting them comes to the same sequence. */
  lemma SortWithoutTies<T(!new)>(le: (T, T) -> bool, s: seq<T>, t: seq<T>)
    requires Linear(le) && Unique(s) && NoTies(le, s)
    requires multiset(t) == multiset(s) && Sorted(le, t)
    ensures StrictlySorted(le, t) && t == Sort(le, s)
  {
    SortSorts(le, s);
    forall x | x in t ensures x in s { CountMembers(t, x); CountMembers(s, x); }
    SortedIsUnique(le, t, Sort(le, s));
    forall i, j | 0 <= i < j < |t|
      ensures !le(t[j], t[i])
    {
      assert le(t[i], t[j]) && t[i] in s && t[j] in s;
      UniqueOnce(s, t[i]);
      if t[i] == t[j] { TwiceCounts(t, i, j); }
    }
  }

  lemma SortOfStrictlySorted<T(!new)>(le: (T, T) -> bool, s: seq<T>)
    requires Linear(le) && StrictlySorted(le, s)
    ensures Sort(le, s) == s && Unique(s) && NoTies(le, s)
  {
  }

  // ---------------------------------------------------------------- strings in byte order

  predicate LexLe(a: string, b: string) {
    a == "" || (b != "" && (a[0] < b[0] || (a[0] == b[0] && LexLe(a[1..], b[1..]))))
  }

  lemma {:induction false} LexTotal(a: string, b: string)
    ensures LexLe(a, b) || LexLe(b, a)
    ensures LexLe(a, b) && LexLe(b, a) ==> a == b
  {
    if a != "" && b != "" {
      LexTotal(a[1..], b[1..]);
      assert a == [a[0]] + a[1..] && b == [b[0]] + b[1..];
    }
  }

  lemma {:induction false} LexTransitive(a: string, b: string, c: string)
    requires LexLe(a, b) && LexLe(b, c)
    ensures LexLe(a, c)
  {
    if a != "" && a[0] == b[0] == c[0] {
      LexTransitive(a[1..], b[1..], c[1..]);
    }
  }

  lemma LexIsLinear()
    ensures Linear(LexLe)
  {
    forall a, b
      ensures LexLe(a, b) || LexLe(b, a)
    {
      LexTotal(a, b);
    }
    forall a, b, c | LexLe(a, b) && LexLe(b, c)
      ensures LexLe(a, c)
    {
      LexTransitive(a, b, c);
    }
  }

  lemma {:induction false} PrefixIsLess(a: string, b: string)
    requires a <= b
    ensures LexLe(a, b)
  {
    if a != "" {
      PrefixIsLess(a[1..], b[1..]);
    }
  }

  /** What lies between two strings with a common prefix has that prefix. */
  lemma {:induction false} BetweenSharesPrefix(p: string, a: string, y: string, b: string)
    requires p <= a && p <= b && LexLe(a, y) && LexLe(y, b)
    ensures p <= y
  {
    if p != "" {
      BetweenSharesPrefix(p[1..], a[1..], y[1..], b[1..]);
      assert y == [y[0]] + y[1..] && p == [p[0]] + p[1..];
    }
  }
}
