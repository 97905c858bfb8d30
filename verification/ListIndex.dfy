/** Intrusive lists: every element is linked in at most one of many lists and knows which. */
module ListIndex {

  /** `where`: the list an element's node is linked in.  `lists`: their contents, empty if absent. */
  datatype Index<S, E> = Index(where: map<E, S>, lists: map<S, seq<E>>)

  function List<S, E>(x: Index<S, E>, s: S): seq<E> {
    if s in x.lists then x.lists[s] else []
  }

  predicate NoDup<E(==)>(q: seq<E>) {
    q == [] || (q[0] !in q[1..] && NoDup(q[1..]))
  }

  function Without<E(==)>(q: seq<E>, e: E): seq<E> {
    if q == [] then [] else if q[0] == e then q[1..] else [q[0]] + Without(q[1..], e)
  }

  lemma {:induction false} WithoutMembers<E>(q: seq<E>, e: E)
    requires NoDup(q)
    ensures NoDup(Without(q, e)) && forall x :: x in Without(q, e) <==> x in q && x != e
    ensures e in q ==> |Without(q, e)| == |q| - 1
    decreases |q|
  {
    if q != [] {
      WithoutMembers(q[1..], e);
      assert q == [q[0]] + q[1..];
      if q[0] != e {
        var r := [q[0]] + Without(q[1..], e);
        assert r[1..] == Without(q[1..], e);
      }
    }
  }

  lemma {:induction false} WithoutAt<E>(q: seq<E>, k: nat)
    requires NoDup(q) && k < |q|
    ensures Without(q, q[k]) == q[..k] + q[k + 1..]
    decreases |q|
  {
    if k > 0 {
      assert q[1..][k - 1] == q[k] && q[k] in q[1..];
      WithoutAt(q[1..], k - 1);
      assert [q[0]] + (q[1..][..k - 1] + q[1..][k..]) == q[..k] + q[k + 1..];
    }
  }

  lemma {:induction false} HeadMembers<E>(q: seq<E>, e: E)
    requires NoDup(q) && e !in q
    ensures NoDup([e] + q) && forall x :: x in [e] + q <==> x in q || x == e
  {
    assert ([e] + q)[1..] == q;
  }

  lemma {:induction false} TailMembers<E>(q: seq<E>, e: E)
    requires NoDup(q) && e !in q
    ensures NoDup(q + [e]) && forall x :: x in q + [e] <==> x in q || x == e
    decreases |q|
  {
    if q != [] {
      assert q == [q[0]] + q[1..];
      TailMembers(q[1..], e);
      assert (q + [e])[1..] == q[1..] + [e];
    } else {
      assert [e][1..] == [];
    }
  }

  predicate Linked<S, E>(x: Index<S, E>, s: S, e: E) {
    e in List(x, s) <==> e in x.where && x.where[e] == s
  }

  /** Every linked element is in exactly one list, once, and knows which. */
  ghost predicate Indexed<S(!new), E(!new)>(x: Index<S, E>) {
    (forall s, e :: Linked(x, s, e)) && forall s :: NoDup(List(x, s))
  }

  function PutHead<S, E>(x: Index<S, E>, s: S, e: E): Index<S, E> {
    Index(x.where[e := s], x.lists[s := [e] + List(x, s)])
  }

  function PutTail<S, E>(x: Index<S, E>, s: S, e: E): Index<S, E> {
    Index(x.where[e := s], x.lists[s := List(x, s) + [e]])
  }

  function Detach<S, E>(x: Index<S, E>, e: E): Index<S, E>
    requires e in x.where
  {
    Index(x.where - {e}, x.lists[x.where[e] := Without(List(x, x.where[e]), e)])
  }

  lemma {:induction false} PutHeadIndexed<S(!new), E(!new)>(x: Index<S, E>, s: S, e: E)
    requires Indexed(x) && e !in x.where
    ensures Indexed(PutHead(x, s, e))
  {
    var v := PutHead(x, s, e);
    assert Linked(x, s, e);
    HeadMembers(List(x, s), e);
    forall t, y ensures Linked(v, t, y) { assert Linked(x, t, y); }
    forall t ensures NoDup(List(v, t)) { assert t != s ==> List(v, t) == List(x, t); }
  }

  lemma {:induction false} PutTailIndexed<S(!new), E(!new)>(x: Index<S, E>, s: S, e: E)
    requires Indexed(x) && e !in x.where
    ensures Indexed(PutTail(x, s, e))
  {
    var v := PutTail(x, s, e);
    assert Linked(x, s, e);
    TailMembers(List(x, s), e);
    forall t, y ensures Linked(v, t, y) { assert Linked(x, t, y); }
    forall t ensures NoDup(List(v, t)) { assert t != s ==> List(v, t) == List(x, t); }
  }

  lemma {:induction false} DetachIndexed<S(!new), E(!new)>(x: Index<S, E>, e: E)
    requires Indexed(x) && e in x.where
    ensures Indexed(Detach(x, e))
    ensures |List(Detach(x, e), x.where[e])| == |List(x, x.where[e])| - 1
  {
    var v, s := Detach(x, e), x.where[e];
    assert Linked(x, s, e);
    WithoutMembers(List(x, s), e);
    forall t, y ensures Linked(v, t, y) { assert Linked(x, t, y); }
    forall t ensures NoDup(List(v, t)) { assert t != s ==> List(v, t) == List(x, t); }
  }
}
