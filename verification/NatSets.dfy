/** Finite sets of natural numbers taken in ascending order. */
module NatSets {

  predicate IsMin(s: set<nat>, m: nat) {
    m in s && forall j :: j in s ==> m <= j
  }

  lemma MinExists(s: set<nat>)
    requires s != {}
    ensures exists m :: IsMin(s, m)
  {
    var x :| x in s;
    if s == {x} {
      assert IsMin(s, x);
    } else {
      MinExists(s - {x});
      var m :| IsMin(s - {x}, m);
      assert IsMin(s, if x < m then x else m) by {
        forall j | j in s ensures (if x < m then x else m) <= j {
          assert j == x || j in s - {x};
        }
      }
    }
  }

  function Smallest(s: set<nat>): (m: nat)
    requires s != {}
    ensures m in s && forall j :: j in s ==> m <= j
  {
    MinExists(s);
    var m :| IsMin(s, m);
    m
  }

  predicate Increasing(order: seq<nat>) {
    forall i, j :: 0 <= i < j < |order| ==> order[i] < order[j]
  }

  lemma IncreasingSnoc(order: seq<nat>, next: nat)
    requires Increasing(order) && forall n :: n in order ==> n < next
    ensures Increasing(order + [next])
  {
    forall i, j | 0 <= i < j < |order| + 1 ensures (order + [next])[i] < (order + [next])[j] {
      assert order[i] in order;
    }
  }

  /** sort.Ints on the keys of a map: take the smallest that is left until none is. */
  method Sorted(s: set<nat>) returns (order: seq<nat>)
    ensures Increasing(order)
    ensures forall n :: n in order <==> n in s
  {
    order := [];
    var rest := s;
    while |rest| != 0
      invariant rest <= s && Increasing(order)
      invariant forall n :: n in order <==> n in s - rest
      invariant forall n, m :: n in order && m in rest ==> n < m
    {
      var least := Smallest(rest);
      IncreasingSnoc(order, least);
      order := order + [least];
      rest := rest - {least};
    }
  }
}
