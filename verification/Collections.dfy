/** Facts about sets and sequences. */
module Collections {
  lemma Smaller<T>(a: set<T>, b: set<T>, x: T)
    requires a <= b && x in b && x !in a
    ensures |a| < |b|
  {
    NotLarger(a, b - {x});
  }

  lemma {:induction false} NotLarger<T>(a: set<T>, b: set<T>)
    requires a <= b
    ensures |a| <= |b|
    decreases a
  {
    if a != {} {
      var x :| x in a;
      NotLarger(a - {x}, b - {x});
    }
  }

  lemma HeadAndTail<T>(s: seq<T>, after: seq<T>)
    requires s != []
    ensures [s[0]] + (s[1..] + after) == s + after && [s[0]] + s[1..] == s
  {
  }
}
