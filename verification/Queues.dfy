/** The kernel's linked lists seen as sequences: first in, first out, with removal from the middle. */
module Queues {

  ghost predicate NoDup<T(!new)>(q: seq<T>) {
    forall i, j :: 0 <= i < j < |q| ==> q[i] != q[j]
  }

  /** `list_del`: the queue without `x`. */
  function Remove<T(==, !new)>(q: seq<T>, x: T): (r: seq<T>)
    ensures forall y :: y in r <==> y in q && y != x
    ensures forall i :: 0 <= i < |r| ==> r[i] in q
    ensures x !in q ==> r == q
  {
    if q == [] then []
    else
      var rest := Remove(q[1..], x);
      assert q == [q[0]] + q[1..];
      if q[0] == x then rest else [q[0]] + rest
  }

  lemma {:induction false} RemoveNoDup<T(!new)>(q: seq<T>, x: T)
    requires NoDup(q)
    ensures NoDup(Remove(q, x))
  {
    if q != [] {
      RemoveNoDup(q[1..], x);
      assert q[0] !in q[1..];
    }
  }

  /** The part of history `q` whose entries were not withdrawn. */
  function Without<T(==, !new)>(q: seq<T>, gone: set<T>): (r: seq<T>)
    ensures forall y :: y in r <==> y in q && y !in gone
  {
    if q == [] then []
    else
      var rest := Without(q[1..], gone);
      assert q == [q[0]] + q[1..];
      if q[0] in gone then rest else [q[0]] + rest
  }

  lemma {:induction false} RemoveConcat<T(!new)>(a: seq<T>, b: seq<T>, x: T)
    ensures Remove(a + b, x) == Remove(a, x) + Remove(b, x)
  {
    if a == [] {
      assert a + b == b;
    } else {
      assert (a + b)[1..] == a[1..] + b;
      RemoveConcat(a[1..], b, x);
    }
  }

  lemma {:induction false} WithoutConcat<T(!new)>(a: seq<T>, b: seq<T>, gone: set<T>)
    ensures Without(a + b, gone) == Without(a, gone) + Without(b, gone)
  {
    if a == [] {
      assert a + b == b;
    } else {
      assert (a + b)[1..] == a[1..] + b;
      WithoutConcat(a[1..], b, gone);
    }
  }

  /** Withdrawing one more entry deletes exactly that entry from the surviving history. */
  lemma {:induction false} WithoutOneMore<T(!new)>(q: seq<T>, gone: set<T>, x: T)
    ensures Without(q, gone + {x}) == Remove(Without(q, gone), x)
  {
    if q != [] {
      WithoutOneMore(q[1..], gone, x);
      if q[0] !in gone {
        assert ([q[0]] + Without(q[1..], gone))[1..] == Without(q[1..], gone);
      }
    }
  }
}
