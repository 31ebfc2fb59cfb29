/**
 * `randomUUID()`: the handlers only rely on every call returning an id that no
 * earlier call returned. The model's source of fresh ids numbers them and
 * remembers, as a ghost set, every id it has handed out.
 */
module Guids {
  import opened Text

  /** The text of the `n`-th id handed out. */
  function IdText(n: nat): string
  {
    "id-" + NatToString(n)
  }

  lemma IdTextInjective(m: nat, n: nat)
    requires IdText(m) == IdText(n)
    ensures m == n
  {
    assert NatToString(m) == IdText(m)[3..];
    assert NatToString(n) == IdText(n)[3..];
    NatToStringInjective(m, n);
  }

  /** The ids of the first `n` calls. */
  function IdsBelow(n: nat): set<string>
  {
    set i | 0 <= i < n :: IdText(i)
  }

  class GuidSource {
    var next: nat
    ghost var issued: set<string>

    ghost predicate Valid()
      reads this
    {
      issued == IdsBelow(next)
    }

    constructor()
      ensures Valid() && issued == {}
    {
      next := 0;
      issued := {};
    }

    /** A fresh id: never handed out before, and remembered from now on. */
    method NewId() returns (id: string)
      requires Valid()
      modifies this
      ensures Valid()
      ensures id !in old(issued)
      ensures issued == old(issued) + {id}
    {
      id := IdText(next);
      if id in issued {
        var i :| 0 <= i < next && IdText(i) == id;
        IdTextInjective(i, next);
        assert false;
      }
      issued := issued + {id};
      next := next + 1;
    }
  }
}
