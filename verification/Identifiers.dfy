/**
 Identifiers and their canonical order (crates/ir/src/id.rs). Ordered maps keyed by
 identifiers are iterated in this order, so "the first key" is a definite choice.
 */
module Identifiers {
  type Identifier = string

  /** Lexicographic order on text, the derived `Ord` of an identifier. */
  predicate Precedes(a: string, b: string) {
    a == "" || (b != "" && (a[0] < b[0] || (a[0] == b[0] && Precedes(a[1..], b[1..]))))
  }

  lemma {:induction false} PrecedesIsTotal(a: string, b: string)
    ensures Precedes(a, b) || Precedes(b, a)
  {
    if a != "" && b != "" && a[0] == b[0] {
      PrecedesIsTotal(a[1..], b[1..]);
    }
  }

  lemma {:induction false} PrecedesIsTransitive(a: string, b: string, c: string)
    requires Precedes(a, b) && Precedes(b, c)
    ensures Precedes(a, c)
  {
    if a != "" && a[0] == b[0] && b[0] == c[0] {
      PrecedesIsTransitive(a[1..], b[1..], c[1..]);
    }
  }

  lemma {:induction false} PrecedesIsAntisymmetric(a: string, b: string)
    requires Precedes(a, b) && Precedes(b, a)
    ensures a == b
  {
    if a != "" {
      PrecedesIsAntisymmetric(a[1..], b[1..]);
      assert a == [a[0]] + a[1..] && b == [b[0]] + b[1..];
    }
  }

  predicate IsFirst(keys: set<Identifier>, key: Identifier) {
    key in keys && forall other :: other in keys ==> Precedes(key, other)
  }

  lemma {:induction false} FirstExists(keys: set<Identifier>)
    requires keys != {}
    ensures exists key :: IsFirst(keys, key)
  {
    var some :| some in keys;
    if keys == {some} {
      PrecedesIsTotal(some, some);
      assert IsFirst(keys, some);
    } else {
      var rest := keys - {some};
      assert keys == rest + {some};
      FirstExists(rest);
      var least :| IsFirst(rest, least);
      PrecedesIsTotal(some, least);
      PrecedesIsTotal(some, some);
      if Precedes(least, some) {
        assert IsFirst(keys, least);
      } else {
        forall other | other in keys
          ensures Precedes(some, other)
        {
          if other != some { PrecedesIsTransitive(some, least, other); }
        }
        assert IsFirst(keys, some);
      }
    }
  }

  /** There is only one such key, so every reader of the same map makes the same choice. */
  lemma FirstIsUnique(keys: set<Identifier>)
    ensures forall a, b :: IsFirst(keys, a) && IsFirst(keys, b) ==> a == b
  {
    forall a, b | IsFirst(keys, a) && IsFirst(keys, b)
      ensures a == b
    {
      PrecedesIsAntisymmetric(a, b);
    }
  }

  /** The key an ordered map yields first. */
  function First(keys: set<Identifier>): (key: Identifier)
    requires keys != {}
    ensures IsFirst(keys, key)
  {
    FirstExists(keys);
    FirstIsUnique(keys);
    var key :| key in keys && IsFirst(keys, key);
    key
  }

  predicate IsLast(keys: set<Identifier>, key: Identifier) {
    key in keys && forall other :: other in keys ==> Precedes(other, key)
  }

  lemma {:induction false} LastExists(keys: set<Identifier>)
    requires keys != {}
    ensures exists key :: IsLast(keys, key)
  {
    var some :| some in keys;
    PrecedesIsTotal(some, some);
    if keys == {some} {
      assert IsLast(keys, some);
    } else {
      var rest := keys - {some};
      assert keys == rest + {some};
      LastExists(rest);
      var greatest :| IsLast(rest, greatest);
      PrecedesIsTotal(some, greatest);
      if Precedes(some, greatest) {
        assert IsLast(keys, greatest);
      } else {
        forall other | other in keys
          ensures Precedes(other, some)
        {
          if other != some { PrecedesIsTransitive(other, greatest, some); }
        }
        assert IsLast(keys, some);
      }
    }
  }

  /** The key an ordered map yields last. */
  function Last(keys: set<Identifier>): (key: Identifier)
    requires keys != {}
    ensures IsLast(keys, key)
  {
    LastExists(keys);
    assert forall a, b :: IsLast(keys, a) && IsLast(keys, b) ==> a == b by {
      forall a, b | IsLast(keys, a) && IsLast(keys, b)
        ensures a == b
      {
        PrecedesIsAntisymmetric(a, b);
      }
    }
    var key :| key in keys && IsLast(keys, key);
    key
  }
}
