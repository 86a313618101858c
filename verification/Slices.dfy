/** Removal from a slice whose order does not matter, as the configuration and the event logger do it. */
module Slices {
  /** The last element takes the place of the i-th. */
  function SwapOut<T>(s: seq<T>, i: nat): seq<T>
    requires i < |s|
  {
    s[i := s[|s| - 1]][..|s| - 1]
  }

  lemma SwapOutRemoves<T>(s: seq<T>, i: nat)
    requires i < |s|
    ensures multiset(SwapOut(s, i)) == multiset(s) - multiset{s[i]}
  {
    var a, last := s[..i], s[|s| - 1];
    if i == |s| - 1 {
      assert s == a + [s[i]] && SwapOut(s, i) == a;
    } else {
      var b := s[i + 1..|s| - 1];
      assert s == a + ([s[i]] + (b + [last]));
      assert SwapOut(s, i) == a + ([last] + b);
      assert multiset(s) == multiset(a) + (multiset{s[i]} + (multiset(b) + multiset{last}));
    }
  }

  lemma SwapOutMembers<T>(s: seq<T>, i: nat)
    requires i < |s|
    ensures SwapOut(s, i)[..i] == s[..i]
    ensures forall x :: x in SwapOut(s, i)[i..] ==> x in s[i..]
  {
  }

  lemma SwapOutKeepsFront<T>(s: seq<T>, i: nat)
    requires i < |s|
    ensures |SwapOut(s, i)| >= i && SwapOut(s, i)[..i] == s[..i]
  {
  }
}
