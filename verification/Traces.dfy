// Sequences of events acting on a state, and when two of them have the same effect.
module Traces {
  function Last<T>(q: seq<T>): T
    requires q != []
  {
    q[|q| - 1]
  }

  function Front<T>(q: seq<T>): seq<T>
    requires q != []
  {
    q[..|q| - 1]
  }

  function Run<E, M>(exec: (E, M) -> M, s: seq<E>, m: M): M {
    if s == [] then m else Run(exec, s[1..], exec(s[0], m))
  }

  ghost predicate Commute<E, M(!new)>(exec: (E, M) -> M, a: E, b: E) {
    forall m :: exec(a, exec(b, m)) == exec(b, exec(a, m))
  }

  predicate Distinct<E(==)>(s: seq<E>) {
    forall i, j :: 0 <= i < j < |s| ==> s[i] != s[j]
  }

  // a occurs somewhere before b in s
  predicate Before<E(==)>(s: seq<E>, a: E, b: E) {
    exists i, j :: 0 <= i < j < |s| && s[i] == a && s[j] == b
  }

  predicate SameElements<E(==)>(s: seq<E>, t: seq<E>) {
    (forall x :: x in s ==> x in t) && (forall x :: x in t ==> x in s)
  }

  // Wherever two events of s do not commute, t has them in the same order.
  ghost predicate KeepsOrder<E, M(!new)>(exec: (E, M) -> M, s: seq<E>, t: seq<E>) {
    forall i, j :: 0 <= i < j < |s| && !Commute(exec, s[i], s[j]) ==> Before(t, s[i], s[j])
  }

  lemma {:induction false} RunConcat<E, M>(exec: (E, M) -> M, s: seq<E>, t: seq<E>, m: M)
    ensures Run(exec, s + t, m) == Run(exec, t, Run(exec, s, m))
  {
    if s == [] {
      assert s + t == t;
    } else {
      assert (s + t)[1..] == s[1..] + t;
      RunConcat(exec, s[1..], t, exec(s[0], m));
    }
  }

  // An event that commutes with everything before it can be moved to the front.
  lemma {:induction false} MoveToFront<E, M(!new)>(exec: (E, M) -> M, s: seq<E>, e: E, m: M)
    requires forall i :: 0 <= i < |s| ==> Commute(exec, s[i], e)
    ensures exec(e, Run(exec, s, m)) == Run(exec, s, exec(e, m))
  {
    if s != [] {
      assert Commute(exec, s[0], e);
      MoveToFront(exec, s[1..], e, exec(s[0], m));
    }
  }

  lemma EmptyOrInhabited<E>(s: seq<E>)
    ensures s == [] || exists x :: x in s
  {
    if s != [] {
      assert s[0] in s;
    }
  }

  lemma NothingBeforeFirst<E(!new)>(t: seq<E>, a: E)
    requires t != [] && Distinct(t)
    ensures !Before(t, a, t[0])
  {
  }

  lemma PullToFront<E, M(!new)>(exec: (E, M) -> M, s: seq<E>, k: nat, m: M)
    requires k < |s| && forall i :: 0 <= i < k ==> Commute(exec, s[i], s[k])
    ensures Run(exec, s, m) == Run(exec, s[..k] + s[k + 1..], exec(s[k], m))
  {
    hide Commute;
    var pre, e, post := s[..k], s[k], s[k + 1..];
    assert s == pre + ([e] + post);
    RunConcat(exec, pre, [e] + post, m);
    assert ([e] + post)[1..] == post;
    assert Run(exec, [e] + post, Run(exec, pre, m)) == Run(exec, post, exec(e, Run(exec, pre, m)));
    MoveToFront(exec, pre, e, m);
    RunConcat(exec, pre, post, exec(e, m));
  }

  // What t starts with commutes with everything before it in s.
  lemma FirstCommutes<E(!new), M(!new)>(exec: (E, M) -> M, s: seq<E>, t: seq<E>, k: nat)
    requires Distinct(t) && KeepsOrder(exec, s, t) && k < |s| && t != [] && s[k] == t[0]
    ensures forall i :: 0 <= i < k ==> Commute(exec, s[i], s[k])
  {
    hide Commute;
    forall i | 0 <= i < k ensures Commute(exec, s[i], s[k]) {
      NothingBeforeFirst(t, s[i]);
    }
  }

  // Reordering commuting events does not change the effect.
  lemma {:induction false} Rearrange<E(!new), M(!new)>(exec: (E, M) -> M, s: seq<E>, t: seq<E>, m: M)
    requires Distinct(s) && Distinct(t) && SameElements(s, t)
    requires KeepsOrder(exec, s, t)
    ensures Run(exec, s, m) == Run(exec, t, m)
    decreases |t|
  {
    hide KeepsOrder, Commute, Distinct;
    if t == [] {
      EmptyOrInhabited(s);
    } else {
      assert t[0] in s by { assert t[0] in t; }
      var k :| 0 <= k < |s| && s[k] == t[0];
      hide SameElements;
      FirstCommutes(exec, s, t, k);
      RestKeepsOrder(exec, s, t, k);
      PullToFront(exec, s, k, m);
      Rearrange(exec, s[..k] + s[k + 1..], t[1..], exec(t[0], m));
    }
  }

  // Dropping t's first event from both sides keeps the premises.
  lemma RestKeepsOrder<E, M(!new)>(exec: (E, M) -> M, s: seq<E>, t: seq<E>, k: nat)
    requires Distinct(s) && Distinct(t) && SameElements(s, t)
    requires KeepsOrder(exec, s, t)
    requires k < |s| && t != [] && s[k] == t[0]
    ensures var rest := s[..k] + s[k + 1..];
      Distinct(rest) && Distinct(t[1..]) && SameElements(rest, t[1..]) && KeepsOrder(exec, rest, t[1..])
  {
    var rest, e := s[..k] + s[k + 1..], t[0];
    assert forall i :: 0 <= i < |rest| ==> rest[i] == s[if i < k then i else i + 1];
    forall x ensures x in rest <==> x in s && x != e {
      if x in s && x != e {
        var i :| 0 <= i < |s| && s[i] == x;
        assert rest[if i < k then i else i - 1] == x;
      }
    }
    forall x ensures x in t[1..] <==> x in t && x != e {
      if x in t && x != e {
        var i :| 0 <= i < |t| && t[i] == x;
        assert t[1..][i - 1] == x;
      }
    }
    forall i, j | 0 <= i < j < |rest| && !Commute(exec, rest[i], rest[j])
      ensures Before(t[1..], rest[i], rest[j])
    {
      var i', j' := if i < k then i else i + 1, if j < k then j else j + 1;
      assert Before(t, s[i'], s[j']);
      var p, q :| 0 <= p < q < |t| && t[p] == s[i'] && t[q] == s[j'];
      assert p != 0;
      assert t[1..][p - 1] == rest[i] && t[1..][q - 1] == rest[j];
    }
  }
}
