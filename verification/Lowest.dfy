/** The lowest elements of a set of numbers. */
module Lowest {
  import opened Common

  lemma LeastExists(s: set<nat>)
    requires s != {}
    ensures exists m :: m in s && forall x :: x in s ==> m <= x
  {
    var y :| y in s;
    var m := LeastBelow(s, y);
  }

  lemma LeastBelow(s: set<nat>, y: nat) returns (m: nat)
    requires y in s
    ensures m in s && forall x :: x in s ==> m <= x
    decreases y
  {
    if x :| x in s && x < y {
      m := LeastBelow(s, x);
    } else {
      m := y;
    }
  }

  ghost function Least(s: set<nat>): (m: nat)
    requires s != {}
    ensures m in s && forall x :: x in s ==> m <= x
  {
    LeastExists(s);
    var m :| m in s && forall x :: x in s ==> m <= x;
    m
  }

  /** The k lowest elements in order, or all of them. */
  ghost function Take(s: set<nat>, k: nat): (r: seq<nat>)
    ensures |r| == (if k < |s| then k else |s|) && forall i :: 0 <= i < |r| ==> r[i] in s
    decreases k
  {
    if k == 0 || s == {} then [] else [Least(s)] + Take(s - {Least(s)}, k - 1)
  }

  lemma WithoutBoth(s: set<nat>, a: seq<nat>, b: seq<nat>)
    ensures s - Elements(a + b) == s - Elements(a) - Elements(b)
  {
  }

  lemma WithoutNone(s: set<nat>)
    ensures s - Elements([]) == s
  {
  }

  lemma WithoutFirst(s: set<nat>, m: nat, rest: seq<nat>)
    ensures s - Elements([m] + rest) == s - {m} - Elements(rest)
  {
    WithoutBoth(s, [m], rest);
    assert Elements([m]) == {m};
  }

  lemma TakeFirst(s: set<nat>, k: nat)
    ensures if k == 0 || s == {} then Take(s, k) == [] else Take(s, k) == [Least(s)] + Take(s - {Least(s)}, k - 1)
  {
  }

  /** Taking elements out leaves the rest. */
  lemma {:induction false} TakeCount(s: set<nat>, k: nat)
    ensures |s - Elements(Take(s, k))| == |s| - |Take(s, k)|
    decreases k
  {
    hide Take, Least, Elements;
    TakeFirst(s, k);
    if k == 0 || s == {} {
      WithoutNone(s);
    } else {
      var m := Least(s);
      TakeCount(s - {m}, k - 1);
      WithoutFirst(s, m, Take(s - {m}, k - 1));
    }
  }

  /** Taking elements in two portions is taking them at once. */
  lemma {:induction false} TakeMore(s: set<nat>, a: nat, b: nat)
    ensures Take(s, a) + Take(s - Elements(Take(s, a)), b) == Take(s, a + b)
    decreases a
  {
    hide Take, Least, Elements;
    TakeFirst(s, a);
    TakeFirst(s, a + b);
    if a == 0 || s == {} {
      WithoutNone(s);
      TakeFirst(s, b);
    } else {
      var m := Least(s);
      TakeMore(s - {m}, a - 1, b);
      WithoutFirst(s, m, Take(s - {m}, a - 1));
      SplitFirst(m, Take(s - {m}, a - 1), Take(s - Elements(Take(s, a)), b));
    }
  }

  lemma SplitFirst(m: nat, a: seq<nat>, b: seq<nat>)
    ensures [m] + a + b == [m] + (a + b)
  {
  }
}
