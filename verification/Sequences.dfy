/** Regrouping a sequence and taking one item out of it. */
module Sequences {

  lemma Parts<T>(s: seq<T>, i: nat)
    requires i < |s|
    ensures s == (s[..i] + [s[i]]) + s[i + 1..]
  {
  }

  lemma Reassociate<T>(a: seq<T>, b: seq<T>, c: seq<T>, d: seq<T>)
    ensures ((a + b) + c) + d == a + (b + (c + d))
  {
  }

  lemma MultisetInserted<T>(a: seq<T>, x: T, b: seq<T>)
    ensures multiset(a + b) == multiset((a + [x]) + b) - multiset{x}
  {
  }

  lemma Without<T>(s: seq<T>, i: nat)
    requires i < |s|
    ensures multiset(s[..i] + s[i + 1..]) == multiset(s) - multiset{s[i]}
  {
    Parts(s, i);
    MultisetInserted(s[..i], s[i], s[i + 1..]);
  }
}
