/** Sequence algebra the solver does not find by itself. */
module Sequences {
  lemma Reassoc<T>(a: seq<T>, b: seq<T>, c: seq<T>)
    ensures a + (b + c) == (a + b) + c && [] + a == a && a + [] == a
  {}

  lemma Peel<T>(x: T, b: seq<T>, c: seq<T>)
    ensures var s := [x] + b + c; s != [] && s[0] == x && s[1..] == b + c
  {}

  lemma Middle<T>(a: seq<T>, b: seq<T>, c: seq<T>)
    ensures var s := a + (b + c); s[..|a|] == a && s[|a|..] == b + c && s[|a| + |b|..] == c
    ensures b <= b + c && (b + c)[|b|..] == c
  {}

  lemma HeadTail<T>(a: seq<T>)
    requires a != []
    ensures [a[0]] + a[1..] == a
  {}
}
