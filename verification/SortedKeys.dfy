/** Ordered iteration over the keys of a map, as the source's `BTreeMap` provides it. */
module SortedKeys {

  predicate Ascending(ks: seq<nat>) {
    forall i, j :: 0 <= i < j < |ks| ==> ks[i] < ks[j]
  }

  predicate IsLeast(s: set<nat>, m: nat) {
    m in s && forall x :: x in s ==> m <= x
  }

  lemma {:induction false} LeastExists(s: set<nat>) returns (m: nat)
    requires s != {}
    ensures IsLeast(s, m)
  {
    m :| m in s;
    var rest := s - {m};
    assert forall x :: x in s ==> x == m || x in rest;
    if rest != {} {
      var n := LeastExists(rest);
      m := if m < n then m else n;
    }
  }

  lemma LeastIsUnique(s: set<nat>, m: nat, n: nat)
    requires IsLeast(s, m) && IsLeast(s, n)
    ensures m == n
  {
    assert m in s && n in s;
  }

  ghost function Least(s: set<nat>): (m: nat)
    requires s != {}
    ensures IsLeast(s, m)
  {
    assert exists m :: IsLeast(s, m) by {
      var m := LeastExists(s);
    }
    var m :| IsLeast(s, m);
    m
  }

  /** The elements of `s` in increasing order. */
  ghost function InOrder(s: set<nat>): seq<nat> {
    if s == {} then [] else [Least(s)] + InOrder(s - {Least(s)})
  }

  lemma {:induction false} InOrderElements(s: set<nat>, x: nat)
    ensures x in InOrder(s) <==> x in s
  {
    if s != {} {
      InOrderElements(s - {Least(s)}, x);
    }
  }

  lemma {:induction false} InOrderAscends(s: set<nat>)
    ensures |InOrder(s)| == |s| && Ascending(InOrder(s))
  {
    if s != {} {
      var m := Least(s);
      var ks, rest := InOrder(s), InOrder(s - {m});
      InOrderAscends(s - {m});
      forall i, j | 0 <= i < j < |ks|
        ensures ks[i] < ks[j]
      {
        assert ks[j] == rest[j - 1];
        if i == 0 {
          InOrderElements(s - {m}, rest[j - 1]);
        } else {
          assert ks[i] == rest[i - 1];
        }
      }
    }
  }

  method ListInOrder(s: set<nat>) returns (ks: seq<nat>)
    ensures ks == InOrder(s)
  {
    ks := [];
    var left := s;
    while left != {}
      invariant ks + InOrder(left) == InOrder(s)
      decreases left
    {
      ghost var least := LeastExists(left);
      var m :| m in left && IsLeast(left, m);
      LeastIsUnique(left, m, Least(left));
      assert ks + InOrder(left) == ks + [m] + InOrder(left - {m});
      ks := ks + [m];
      left := left - {m};
    }
  }
}
