/** The order in which ids are sorted, and the first id of a collection. */
module Ids {

  /** Strict lexicographic order. */
  predicate Below(a: string, b: string) {
    b != [] && (a == [] || a[0] < b[0] || (a[0] == b[0] && Below(a[1..], b[1..])))
  }

  predicate AtMost(a: string, b: string) {
    a == b || Below(a, b)
  }

  lemma {:induction false} BelowIsTransitive(a: string, b: string, c: string)
    requires Below(a, b) && Below(b, c)
    ensures Below(a, c)
  {
    if a != [] && a[0] == b[0] == c[0] {
      BelowIsTransitive(a[1..], b[1..], c[1..]);
    }
  }

  lemma {:induction false} BelowIsTotal(a: string, b: string)
    ensures a == b || Below(a, b) || Below(b, a)
    ensures !(a == b && Below(a, b)) && !(Below(a, b) && Below(b, a))
  {
    if a != [] && b != [] && a[0] == b[0] {
      BelowIsTotal(a[1..], b[1..]);
      assert a == [a[0]] + a[1..] && b == [b[0]] + b[1..];
    }
  }

  /** The ids agree up to `k`, where the first one ends or has the smaller character. */
  predicate StopsOrDiffers(a: string, b: string, k: int) {
    0 <= k < |b| && k <= |a| && a[..k] == b[..k] && (k < |a| ==> a[k] < b[k])
  }

  /** One id sorts before another if it stops short of it, or has the smaller character where they first differ. */
  lemma {:induction false} BelowAtFirstDifference(a: string, b: string)
    ensures Below(a, b) <==>
              exists k :: StopsOrDiffers(a, b, k)
  {
    if b != [] && a != [] && a[0] == b[0] {
      BelowAtFirstDifference(a[1..], b[1..]);
      if k :| StopsOrDiffers(a[1..], b[1..], k) {
        assert StopsOrDiffers(a, b, k + 1) by {
          assert a[..k + 1] == [a[0]] + a[1..][..k] && b[..k + 1] == [b[0]] + b[1..][..k];
        }
        assert a[..k + 1] == [a[0]] + a[1..][..k] && b[..k + 1] == [b[0]] + b[1..][..k];
      }
      if k :| StopsOrDiffers(a, b, k) {
        assert k > 0;
        assert a[1..][..k - 1] == a[..k][1..] && b[1..][..k - 1] == b[..k][1..];
        assert StopsOrDiffers(a[1..], b[1..], k - 1);
      }
    } else if b != [] && (a == [] || a[0] < b[0]) {
      assert StopsOrDiffers(a, b, 0);
    } else {
      assert forall k :: 0 < k <= |a| && k <= |b| && a[..k] == b[..k] ==> a[..k][0] == b[..k][0];
    }
  }

  ghost predicate IsLeast(x: string, s: set<string>) {
    x in s && forall y :: y in s ==> AtMost(x, y)
  }

  lemma {:induction false} LeastExists(s: set<string>)
    requires s != {}
    ensures exists x :: IsLeast(x, s)
  {
    var y :| y in s;
    if s == {y} {
      assert IsLeast(y, s);
    } else {
      var rest := s - {y};
      assert s == rest + {y};
      LeastExists(rest);
      var x :| IsLeast(x, rest);
      BelowIsTotal(x, y);
      if AtMost(x, y) {
        assert IsLeast(x, s);
      } else {
        forall z | z in s
          ensures AtMost(y, z)
        {
          if z in rest && x != z {
            BelowIsTransitive(y, x, z);
          }
        }
        assert IsLeast(y, s);
      }
    }
  }

  lemma LeastIsUnique(x: string, y: string, s: set<string>)
    requires IsLeast(x, s) && IsLeast(y, s)
    ensures x == y
  {
    BelowIsTotal(x, y);
  }

  /** The least id of a non-empty set. */
  ghost function Least(s: set<string>): (x: string)
    requires s != {}
    ensures IsLeast(x, s)
  {
    LeastExists(s);
    var x :| IsLeast(x, s);
    x
  }

  /** The first id in sorted order. */
  method FirstSorted(ids: seq<string>) returns (first: string)
    requires ids != []
    ensures IsLeast(first, set id | id in ids)
  {
    first := ids[0];
    for i := 1 to |ids|
      invariant first in ids
      invariant forall j :: 0 <= j < i ==> AtMost(first, ids[j])
    {
      BelowIsTotal(first, ids[i]);
      if Below(ids[i], first) {
        forall j | 0 <= j < i
          ensures AtMost(ids[i], ids[j])
        {
          if first != ids[j] {
            BelowIsTransitive(ids[i], first, ids[j]);
          }
        }
        first := ids[i];
      }
    }
  }
}
