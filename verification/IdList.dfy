/** Lists of entities without repeats, as the area-of-interest indexes keep and report them. */
module IdLists {
  import opened Sequences

  type Id = int

  // The mask bit of entities that want to be told about others.
  const INTEREST: bv8 := 0x1

  lemma OneBit(mask: bv8)
    ensures mask & INTEREST != 0 <==> mask & 1 == 1
  {
  }

  function Members(s: seq<Id>): set<Id> { set x | x in s }

  /** x is gone from a list without repeats, and nothing else. */
  ghost predicate Without(s: seq<Id>, x: Id, s': seq<Id>) {
    NoDup(s) ==> NoDup(s') && forall y :: y in s' <==> y in s && y != x
  }

  lemma SwapRemoved(s: seq<Id>, i: nat)
    requires i < |s|
    ensures Without(s, s[i], SwapRemove(s, i))
  {
    if NoDup(s) {
      SwapRemoveDrops(s, i);
    }
  }

  lemma NotThere(s: seq<Id>, x: Id)
    requires x !in s
    ensures Without(s, x, s)
  {
  }

  lemma Pushed(s: seq<Id>, x: Id)
    requires NoDup(s) && x !in s
    ensures NoDup(s + [x]) && forall y :: y in s + [x] <==> y in s || y == x
  {
  }

  lemma JoinedMembers(s: seq<Id>, t: seq<Id>)
    requires NoDup(s) && NoDup(t) && Members(s) !! Members(t)
    ensures NoDup(s + t) && Members(s + t) == Members(s) + Members(t)
  {
    forall o | o in s
      ensures o !in t
    {
      assert o in Members(s);
    }
    Joined(s, t);
  }

  lemma Joined(s: seq<Id>, t: seq<Id>)
    requires NoDup(s) && NoDup(t) && forall o | o in s :: o !in t
    ensures NoDup(s + t)
  {
    var u := s + t;
    forall i, j | 0 <= i < j < |u|
      ensures u[i] != u[j]
    {
      if i < |s| <= j {
        assert s[i] in s && t[j - |s|] in t;
      }
    }
  }

  lemma OneMore(s: seq<Id>, i: nat)
    requires i < |s| && NoDup(s)
    ensures Members(s[..i + 1]) == Members(s[..i]) + {s[i]} && s[i] !in Members(s[..i])
    ensures s[..i] + [s[i]] == s[..i + 1]
  {
    assert s[..i + 1] == s[..i] + [s[i]];
  }

  /** Even with repeats, only x can go. */
  lemma OthersStay(s: seq<Id>, i: nat)
    requires i < |s|
    ensures forall y | y != s[i] :: y in SwapRemove(s, i) <==> y in s
  {
    var r := SwapRemove(s, i);
    forall y | y != s[i] && y in s
      ensures y in r
    {
      var j :| 0 <= j < |s| && s[j] == y;
      assert r[if j == |s| - 1 then i else j] == y;
    }
  }

  /** Takes x out of a list by moving the last one to its place. */
  method RemoveEntityFromVector(list: seq<Id>, x: Id) returns (list': seq<Id>, found: bool)
    ensures Without(list, x, list') && found == (x in list)
    ensures forall y | y != x :: y in list' <==> y in list
  {
    var i := 0;
    while i < |list|
      invariant i <= |list| && x !in list[..i]
    {
      if list[i] == x {
        SwapRemoved(list, i);
        OthersStay(list, i);
        return SwapRemove(list, i), true;
      }
      i := i + 1;
    }
    assert list[..i] == list;
    NotThere(list, x);
    return list, false;
  }
}
