/** Ordering the tiles of the event table when it is written out. */
module Keys {
  /** A set with no element is the empty set. */
  lemma NoneIsEmpty(ks: set<int>)
    requires forall x :: x !in ks
    ensures ks == {}
  {
    assert forall x :: x in ks <==> x in {};
  }

  /** Some element of a non-empty set. */
  lemma Pick(ks: set<int>) returns (x: int)
    requires ks != {}
    ensures x in ks
  {
    if forall y :: y !in ks {
      NoneIsEmpty(ks);
      assert false;
    }
    x :| x in ks;
  }

  /** A non-empty finite set of integers has a least element. */
  lemma {:induction false} MinExists(ks: set<int>)
    requires ks != {}
    ensures exists m :: m in ks && forall k :: k in ks ==> m <= k
    decreases |ks|
  {
    var x := Pick(ks);
    if ks == {x} {
      assert forall k :: k in ks ==> x <= k;
    } else {
      MinExists(ks - {x});
      var m :| m in ks - {x} && forall k :: k in ks - {x} ==> m <= k;
      var least := if x < m then x else m;
      forall k | k in ks ensures least <= k {
        if k != x {
          assert k in ks - {x};
        }
      }
      assert least in ks;
    }
  }

  function MinOf(ks: set<int>): (m: int)
    requires ks != {}
    ensures m in ks && forall k :: k in ks ==> m <= k
  {
    MinExists(ks);
    var m :| m in ks && forall k :: k in ks ==> m <= k;
    m
  }

  /** `sorted(keys)`: every key once, in strictly ascending order. */
  function SortedKeys(ks: set<int>): (r: seq<int>)
    ensures |r| == |ks|
    ensures forall k :: k in ks <==> k in r
    ensures forall i, j :: 0 <= i < j < |r| ==> r[i] < r[j]
    decreases |ks|
  {
    if ks == {} then []
    else
      var m := MinOf(ks);
      [m] + SortedKeys(ks - {m})
  }
}
