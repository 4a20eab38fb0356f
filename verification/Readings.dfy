/**
Reading a journal by position: what happened ever, since, latest, and how often.

The laws of the pallets are stated in these terms. They say of every call, from the recorded notes alone and
without replaying them, when it succeeds and with which error it fails.
*/
module Readings {
  import opened Common

  ghost predicate Ever<T(!new)>(s: seq<T>, p: T -> bool) {
    exists k :: 0 <= k < |s| && p(s[k])
  }

  ghost predicate Since<T(!new)>(s: seq<T>, p: T -> bool, k: nat) {
    exists l :: k < l < |s| && p(s[l])
  }

  ghost predicate Latest<T(!new)>(s: seq<T>, p: T -> bool, k: nat) {
    k < |s| && p(s[k]) && !Since(s, p, k)
  }

  function Count<T>(s: seq<T>, p: T -> bool): nat {
    if s == [] then 0 else Count(Front(s), p) + (if p(Last(s)) then 1 else 0)
  }

  lemma EverStep<T(!new)>(s: seq<T>, p: T -> bool)
    requires s != []
    ensures Ever(s, p) <==> Ever(Front(s), p) || p(Last(s))
  {
    if Ever(Front(s), p) {
      var k :| 0 <= k < |Front(s)| && p(Front(s)[k]);
      assert p(s[k]);
    }
    if p(Last(s)) {
      assert p(s[|s| - 1]);
    }
    if Ever(s, p) {
      var k :| 0 <= k < |s| && p(s[k]);
      assert k < |s| - 1 ==> p(Front(s)[k]);
    }
  }

  lemma SinceStep<T(!new)>(s: seq<T>, p: T -> bool, k: nat)
    requires s != [] && k < |s| - 1
    ensures Since(s, p, k) <==> Since(Front(s), p, k) || p(Last(s))
  {
    if Since(Front(s), p, k) {
      var l :| k < l < |Front(s)| && p(Front(s)[l]);
      assert p(s[l]);
    }
    if p(Last(s)) {
      assert p(s[|s| - 1]);
    }
    if Since(s, p, k) {
      var l :| k < l < |s| && p(s[l]);
      assert l < |s| - 1 ==> p(Front(s)[l]);
    }
  }

  lemma LatestStep<T(!new)>(s: seq<T>, p: T -> bool, k: nat)
    requires s != []
    ensures Latest(s, p, k) <==> if p(Last(s)) then k == |s| - 1 else Latest(Front(s), p, k)
  {
    if k < |s| - 1 {
      SinceStep(s, p, k);
      assert Front(s)[k] == s[k];
    } else if k == |s| - 1 {
      assert !Since(s, p, k);
    }
  }

  /** What happened ever has a latest occurrence, and only one. */
  lemma {:induction false} LatestExists<T(!new)>(s: seq<T>, p: T -> bool)
    ensures Ever(s, p) <==> exists k: nat :: Latest(s, p, k)
    ensures forall k: nat, l: nat :: Latest(s, p, k) && Latest(s, p, l) ==> k == l
  {
    if s == [] {
    } else {
      LatestExists(Front(s), p);
      EverStep(s, p);
      forall k: nat ensures Latest(s, p, k) <==> if p(Last(s)) then k == |s| - 1 else Latest(Front(s), p, k) {
        LatestStep(s, p, k);
      }
      if p(Last(s)) {
        assert Latest(s, p, |s| - 1);
      } else if Ever(Front(s), p) {
        var k: nat :| Latest(Front(s), p, k);
        assert Latest(s, p, k);
      }
    }
  }
}
