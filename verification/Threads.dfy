/** Counting threads by program point. */
module Threads {
  /** The threads of a table that satisfy a predicate. */
  ghost function Those<P(!new)>(threads: map<nat, P>, at: P -> bool): set<nat> {
    set t | t in threads && at(threads[t])
  }

  ghost function Count<P(!new)>(threads: map<nat, P>, at: P -> bool): nat {
    |Those(threads, at)|
  }

  function One(b: bool): int {
    if b then 1 else 0
  }

  /** Sets that agree off `t` differ in size by `t` alone. */
  lemma SizesApart(a: set<nat>, b: set<nat>, t: nat)
    requires forall u :: u != t ==> (u in a <==> u in b)
    ensures |b| == |a| - One(t in a) + One(t in b)
  {
    var rest := a - {t};
    assert b - {t} == rest;
    assert t in a ==> a == rest + {t};
    assert t !in a ==> a == rest;
    assert t in b ==> b == rest + {t};
    assert t !in b ==> b == rest;
  }

  /** Moving or starting one thread moves the count by that thread alone. */
  lemma CountMove<P(!new)>(threads: map<nat, P>, t: nat, p: P, at: P -> bool)
    ensures Count(threads[t := p], at)
         == Count(threads, at) - One(t in threads && at(threads[t])) + One(at(p))
  {
    SizesApart(Those(threads, at), Those(threads[t := p], at), t);
  }

  /** A stronger predicate counts no more threads. */
  lemma CountLess<P(!new)>(threads: map<nat, P>, small: P -> bool, large: P -> bool)
    requires forall p :: small(p) ==> large(p)
    ensures Count(threads, small) <= Count(threads, large)
  {
    var a, b := Those(threads, small), Those(threads, large);
    assert b == a + (b - a);
  }

  lemma CountNone<P(!new)>(threads: map<nat, P>, at: P -> bool)
    requires forall t :: t in threads ==> !at(threads[t])
    ensures Count(threads, at) == 0
  {
    assert Those(threads, at) == {};
  }

  lemma CountSame<P(!new)>(threads: map<nat, P>, one: P -> bool, other: P -> bool)
    requires forall t :: t in threads ==> (one(threads[t]) <==> other(threads[t]))
    ensures Count(threads, one) == Count(threads, other)
  {
    assert Those(threads, one) == Those(threads, other);
  }

  lemma CountSplit<P(!new)>(threads: map<nat, P>, whole: P -> bool, one: P -> bool, other: P -> bool)
    requires forall t :: t in threads ==>
               (whole(threads[t]) <==> one(threads[t]) || other(threads[t])) && !(one(threads[t]) && other(threads[t]))
    ensures Count(threads, whole) == Count(threads, one) + Count(threads, other)
  {
    assert Those(threads, whole) == Those(threads, one) + Those(threads, other);
    assert Those(threads, one) !! Those(threads, other);
  }
}
