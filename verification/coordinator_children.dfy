/** A coordinator's list of child coordinators, each kept in a box with its
    own id. A box's id is a fresh UUID; the model takes it as a natural
    number that is not yet used by any box of the list. */
module CoordinatorChildren {

  datatype Box<C> = Box(id: nat, coordinator: C)

  /** No box of `children` carries `id`. */
  predicate Fresh<C>(children: seq<Box<C>>, id: nat) {
    forall i | 0 <= i < |children| :: children[i].id != id
  }

  /** No two boxes share an id. */
  predicate UniqueIds<C>(children: seq<Box<C>>) {
    forall i, j | 0 <= i < j < |children| :: children[i].id != children[j].id
  }

  /** `storeChild`: one new box at the end; the existing boxes keep their
      places. */
  function StoreChild<C>(children: seq<Box<C>>, id: nat, coordinator: C): (r: seq<Box<C>>)
    requires Fresh(children, id)
    ensures |r| == |children| + 1 && r[..|children|] == children
    ensures r[|children|] == Box(id, coordinator)
    ensures UniqueIds(children) ==> UniqueIds(r)
  {
    children + [Box(id, coordinator)]
  }

  /** `storeChildAndReturnID`: stores the box like `storeChild` and returns
      the id of the box now at the end of the list. */
  function StoreChildAndReturnId<C>(children: seq<Box<C>>, id: nat, coordinator: C): (r: (seq<Box<C>>, nat))
    requires Fresh(children, id)
    ensures r.0 == StoreChild(children, id, coordinator)
    ensures r.1 == r.0[|r.0| - 1].id && Fresh(children, r.1)
  {
    var stored := StoreChild(children, id, coordinator);
    (stored, stored[|stored| - 1].id)
  }

  /** `removeChild(id:)`: drops every box with that id and keeps the others
      in their order. */
  function RemoveChild<C>(children: seq<Box<C>>, id: nat): (r: seq<Box<C>>)
    ensures |r| <= |children|
    ensures Fresh(r, id)
    ensures forall i | 0 <= i < |r| :: r[i] in children
    ensures forall i | 0 <= i < |children| && children[i].id != id :: children[i] in r
  {
    if |children| == 0 then []
    else if children[0].id == id then RemoveChild(children[1..], id)
    else [children[0]] + RemoveChild(children[1..], id)
  }

  /** Removal works piecewise: removing from a concatenation is removing
      from each part. With the one-element cases this pins down the order
      of what remains. */
  lemma {:induction false} RemoveDistributes<C>(xs: seq<Box<C>>, ys: seq<Box<C>>, id: nat)
    ensures RemoveChild(xs + ys, id) == RemoveChild(xs, id) + RemoveChild(ys, id)
    decreases |xs|
  {
    if |xs| == 0 {
      assert xs + ys == ys;
    } else {
      assert (xs + ys)[0] == xs[0];
      assert (xs + ys)[1..] == xs[1..] + ys;
      RemoveDistributes(xs[1..], ys, id);
    }
  }

  /** Removing an id that no box carries changes nothing. */
  lemma {:induction false} RemoveAbsent<C>(children: seq<Box<C>>, id: nat)
    requires Fresh(children, id)
    ensures RemoveChild(children, id) == children
    decreases |children|
  {
    if |children| > 0 {
      RemoveAbsent(children[1..], id);
      assert children == [children[0]] + children[1..];
    }
  }

  /** Storing a child and then removing it by the returned id gives back
      the list as it was. */
  lemma StoreThenRemove<C>(children: seq<Box<C>>, id: nat, coordinator: C)
    requires Fresh(children, id)
    ensures var (stored, returned) := StoreChildAndReturnId(children, id, coordinator);
      RemoveChild(stored, returned) == children
  {
    RemoveDistributes(children, [Box(id, coordinator)], id);
    RemoveAbsent(children, id);
    assert RemoveChild([Box(id, coordinator)], id) == [];
  }

  /** Removal keeps ids unique. */
  lemma {:induction false} RemoveKeepsUnique<C>(children: seq<Box<C>>, id: nat)
    requires UniqueIds(children)
    ensures UniqueIds(RemoveChild(children, id))
    decreases |children|
  {
    if |children| > 0 {
      var tail := children[1..];
      assert UniqueIds(tail) by {
        assert forall i | 0 <= i < |tail| :: tail[i] == children[i + 1];
      }
      RemoveKeepsUnique(tail, id);
      if children[0].id != id {
        var rest := RemoveChild(tail, id);
        forall k | 0 <= k < |rest|
          ensures rest[k].id != children[0].id
        {
          assert rest[k] in tail;
          var i :| 0 <= i < |tail| && tail[i] == rest[k];
          assert tail[i] == children[i + 1];
        }
      }
    }
  }

  /** `removeAllChildren`: nothing is kept. */
  function RemoveAllChildren<C>(children: seq<Box<C>>): (r: seq<Box<C>>)
    ensures |r| == 0
  {
    []
  }
}
