/** Sets of indices. */
module Indices {

  /** The indices below `n`. */
  function UpTo(n: nat): (all: set<nat>)
    ensures forall i :: i in all <==> 0 <= i < n
  {
    if n == 0 then {} else UpTo(n - 1) + {n - 1}
  }

  lemma {:induction false} UpToSize(n: nat)
    ensures |UpTo(n)| == n
  {
    if n > 0 {
      UpToSize(n - 1);
    }
  }

  lemma {:induction false} SubsetSize(a: set<nat>, b: set<nat>)
    requires a <= b
    ensures |a| <= |b|
    decreases a
  {
    if a != {} {
      var x :| x in a;
      SubsetSize(a - {x}, b - {x});
    }
  }

  function Members(s: seq<nat>): (all: set<nat>)
    ensures forall x :: x in all <==> x in s
  {
    if s == [] then {} else Members(s[..|s| - 1]) + {s[|s| - 1]}
  }

  predicate Unique(s: seq<nat>) {
    forall i, j :: 0 <= i < j < |s| ==> s[i] != s[j]
  }

  lemma {:induction false} UniqueSize(s: seq<nat>)
    requires Unique(s)
    ensures |Members(s)| == |s|
  {
    if s != [] {
      UniqueSize(s[..|s| - 1]);
      assert s[|s| - 1] !in s[..|s| - 1];
    }
  }

  /** Pigeonhole: `n` different indices below `n` are all of them. */
  lemma {:induction false} UniqueBelowIsAll(s: seq<nat>, n: nat, x: nat)
    requires Unique(s) && |s| == n && x < n
    requires forall i :: 0 <= i < |s| ==> s[i] < n
    ensures x in s
  {
    if x !in s {
      var more := Members(s) + {x};
      UniqueSize(s);
      UpToSize(n);
      assert |more| == n + 1;
      forall y | y in more ensures y in UpTo(n) {
      }
      SubsetSize(more, UpTo(n));
    }
  }
}
