/** Small vocabulary shared by the model: optional values and duplicate-free sequences. */
module Common {

  /** A nullable column or a value that may be missing. */
  datatype Option<+T> = None | Some(value: T)

  /** No element occurs at two positions. */
  ghost predicate NoDuplicates<T(!new)>(s: seq<T>) {
    forall i, j :: 0 <= i < j < |s| ==> s[i] != s[j]
  }

  /** Taking the last element off a duplicate-free sequence. */
  lemma NoDuplicatesSplit<T(!new)>(front: seq<T>, last: T)
    ensures NoDuplicates(front + [last]) <==> NoDuplicates(front) && last !in front
  {
    var s := front + [last];
    if NoDuplicates(s) {
      assert forall i :: 0 <= i < |front| ==> front[i] == s[i] && s[i] != s[|front|];
    }
  }

  lemma {:induction false} NoDuplicatesConcat<T(!new)>(a: seq<T>, b: seq<T>)
    ensures NoDuplicates(a + b) <==> NoDuplicates(a) && NoDuplicates(b) && forall x :: x in a ==> x !in b
  {
    if b == [] {
      assert a + b == a;
    } else {
      var front, last := b[..|b| - 1], b[|b| - 1];
      assert b == front + [last] && a + b == (a + front) + [last];
      NoDuplicatesConcat(a, front);
      NoDuplicatesSplit(front, last);
      NoDuplicatesSplit(a + front, last);
    }
  }

  /** A sequence is duplicate-free exactly when every multiplicity is at most one. */
  lemma {:induction false} NoDuplicatesByMultiset<T(!new)>(s: seq<T>)
    ensures NoDuplicates(s) <==> forall x :: x in multiset(s) ==> multiset(s)[x] == 1
  {
    if s != [] {
      var front, last := s[..|s| - 1], s[|s| - 1];
      assert s == front + [last];
      assert multiset(s) == multiset(front) + multiset{last};
      NoDuplicatesSplit(front, last);
      NoDuplicatesByMultiset(front);
      if last in front {
        assert multiset(s)[last] >= 2;
      } else {
        assert forall x :: x != last ==> multiset(s)[x] == multiset(front)[x];
        assert multiset(s)[last] == 1;
      }
    }
  }

  /** A duplicate-free sequence has as many distinct elements as positions, and conversely. */
  lemma {:induction false} CountDistinct<T(!new)>(s: seq<T>)
    ensures |(set x | x in s)| <= |s|
    ensures |(set x | x in s)| == |s| <==> NoDuplicates(s)
  {
    if s != [] {
      var front, last := s[..|s| - 1], s[|s| - 1];
      assert s == front + [last];
      NoDuplicatesSplit(front, last);
      CountDistinct(front);
      assert (set x | x in s) == (set x | x in front) + {last};
      if last in front {
        assert (set x | x in s) == (set x | x in front);
      }
    }
  }
}
