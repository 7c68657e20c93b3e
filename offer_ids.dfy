/**
 * The caller's Python list of offer ids, which `create_stocks` shrinks in
 * place with `list.remove`.
 */
module OfferIds {
  import opened Records

  /** `list.remove(x)` on a value: deletes the first occurrence of `x`, if any. */
  function RemoveFirst(ids: seq<OfferId>, x: OfferId): (r: seq<OfferId>)
    ensures |r| == if x in ids then |ids| - 1 else |ids|
    ensures x !in ids ==> r == ids
  {
    if ids == [] then []
    else if ids[0] == x then ids[1..]
    else [ids[0]] + RemoveFirst(ids[1..], x)
  }

  /** One occurrence fewer of `x` when it is present, and no other id changes in number. */
  lemma {:induction false} RemoveFirstCount(ids: seq<OfferId>, x: OfferId)
    ensures multiset(RemoveFirst(ids, x)) == multiset(ids) - multiset{x}
  {
    if ids != [] {
      assert ids == [ids[0]] + ids[1..];
      if ids[0] != x {
        RemoveFirstCount(ids[1..], x);
      }
    }
  }

  /** The occurrence removed is the first one; everything around it keeps its order. */
  lemma {:induction false} RemoveFirstAt(ids: seq<OfferId>, x: OfferId, i: nat)
    requires i < |ids| && ids[i] == x
    requires forall k :: 0 <= k < i ==> ids[k] != x
    ensures RemoveFirst(ids, x) == ids[..i] + ids[i + 1..]
  {
    if i == 0 {
      assert ids[..0] + ids[1..] == ids[1..];
    } else {
      var head, tail := ids[0], ids[1..];
      assert head != x;
      RemoveFirstAt(tail, x, i - 1);
      assert tail[..i - 1] == ids[1..i] && tail[i..] == ids[i + 1..];
      assert RemoveFirst(ids, x) == [head] + RemoveFirst(tail, x);
      assert [head] + ids[1..i] == ids[..i];
      assert [head] + (ids[1..i] + ids[i + 1..]) == ([head] + ids[1..i]) + ids[i + 1..];
    }
  }

  /** A mutable list of offer ids (the Python list object shared by reference). */
  class OfferIdList {
    var items: seq<OfferId>

    constructor (initial: seq<OfferId>)
      ensures items == initial
    {
      items := initial;
    }

    /**
     * `list.remove(x)`. Python raises ValueError when `x` is absent; that is
     * `found == false` here, with the list left as it was.
     */
    method Remove(x: OfferId) returns (found: bool)
      modifies this
      ensures found == (x in old(items))
      ensures items == RemoveFirst(old(items), x)
    {
      found := x in items;
      items := RemoveFirst(items, x);
    }
  }
}
