/**
 * The rental-item collection stored under "rentalItems" and the two
 * filters the pages apply to it: the owner view of `app/dashboard/page.tsx`
 * and the removal by id of its delete handler.
 */
module Listings {
  import opened Wrappers
  import opened Sequences

  /** A listing. `imageUrl` is an opaque data URL; `createdAt` an ISO timestamp. */
  datatype RentalItem = RentalItem(
    id: string,
    title: string,
    description: string,
    imageUrl: string,
    phoneNumber: string,
    address: string,
    userId: string,
    createdAt: string)

  /** Reading the collection: an absent key reads as the empty list. */
  function Items(stored: Option<seq<RentalItem>>): seq<RentalItem>
  {
    match stored
    case None => []
    case Some(items) => items
  }

  /** The item was posted by the user with id `uid`. */
  function OwnedBy(uid: string): RentalItem -> bool
  {
    (x: RentalItem) => x.userId == uid
  }

  /** The item carries an id other than `itemId`. */
  function OtherThan(itemId: string): RentalItem -> bool
  {
    (x: RentalItem) => x.id != itemId
  }

  /** The items listed by the owner `uid`, in storage order. */
  function OwnerView(items: seq<RentalItem>, uid: string): (view: seq<RentalItem>)
    ensures forall x :: x in view <==> x in items && x.userId == uid
  {
    Filter(items, OwnedBy(uid))
  }

  /** The collection with every item carrying `itemId` removed; no ownership is consulted. */
  function DeleteById(items: seq<RentalItem>, itemId: string): (rest: seq<RentalItem>)
    ensures forall x :: x in rest <==> x in items && x.id != itemId
  {
    Filter(items, OtherThan(itemId))
  }

  /** The owner view is the subsequence of the collection at exactly the owner's positions. */
  lemma OwnerViewInOrder(items: seq<RentalItem>, uid: string)
    ensures Embedding(OwnerView(items, uid), items, KeptPositions(items, OwnedBy(uid)))
    ensures forall i :: 0 <= i < |items| ==>
      (i in KeptPositions(items, OwnedBy(uid)) <==> items[i].userId == uid)
  {
    FilterKeepsOrder(items, OwnedBy(uid));
  }

  /** Deletion keeps exactly the items with another id, in the same relative order. */
  lemma DeleteKeepsOthersInOrder(items: seq<RentalItem>, itemId: string)
    ensures Embedding(DeleteById(items, itemId), items, KeptPositions(items, OtherThan(itemId)))
    ensures forall i :: 0 <= i < |items| ==>
      (i in KeptPositions(items, OtherThan(itemId)) <==> items[i].id != itemId)
  {
    FilterKeepsOrder(items, OtherThan(itemId));
  }

  /** Deleting an id that no item carries leaves the collection as it was. */
  lemma DeleteAbsentIsIdentity(items: seq<RentalItem>, itemId: string)
    requires forall i :: 0 <= i < |items| ==> items[i].id != itemId
    ensures DeleteById(items, itemId) == items
  {
    FilterKeepsAll(items, OtherThan(itemId));
  }

  /** Deleting from the collection and taking the owner view commute. */
  lemma DeleteCommutesWithOwnerView(items: seq<RentalItem>, itemId: string, uid: string)
    ensures OwnerView(DeleteById(items, itemId), uid) == DeleteById(OwnerView(items, uid), itemId)
  {
    FilterCommutes(items, OtherThan(itemId), OwnedBy(uid));
  }

  /** The owner view of a collection with one more item at the end. */
  lemma OwnerViewAppend(items: seq<RentalItem>, x: RentalItem, uid: string)
    ensures OwnerView(items + [x], uid) ==
      if x.userId == uid then OwnerView(items, uid) + [x] else OwnerView(items, uid)
  {
    FilterSnoc(items, x, OwnedBy(uid));
  }

  /** No two items share an id. */
  predicate ItemIdsDistinct(items: seq<RentalItem>)
  {
    forall i, j :: 0 <= i < j < |items| ==> items[i].id != items[j].id
  }

  /** Removal keeps ids distinct: it yields a subsequence of the collection. */
  lemma DeletePreservesIdsDistinct(items: seq<RentalItem>, itemId: string)
    requires ItemIdsDistinct(items)
    ensures ItemIdsDistinct(DeleteById(items, itemId))
  {
    var rest, idx := DeleteById(items, itemId), KeptPositions(items, OtherThan(itemId));
    DeleteKeepsOthersInOrder(items, itemId);
    forall i, j | 0 <= i < j < |rest|
      ensures rest[i].id != rest[j].id
    {
      assert rest[i] == items[idx[i]] && rest[j] == items[idx[j]] && idx[i] < idx[j];
    }
  }

}
