/**
 * `app/dashboard/page.tsx`: the stored collection together with `userItems`,
 * the owner's list the page displays.
 */
module Dashboard {
  import opened Wrappers
  import opened Auth
  import opened Listings
  import opened Sequences

  datatype DashboardState = DashboardState(stored: Option<seq<RentalItem>>, userItems: seq<RentalItem>)

  /** The load effect: with a session the displayed list becomes the owner view; without one nothing runs. */
  function LoadUserItems(user: Option<User>, st: DashboardState): (r: DashboardState)
    ensures r.stored == st.stored
    ensures user.None? ==> r == st
    ensures user.Some? ==> forall x :: x in r.userItems <==> x in Items(st.stored) && x.userId == user.value.id
  {
    match user
    case None => st
    case Some(u) => st.(userItems := OwnerView(Items(st.stored), u.id))
  }

  /**
   * `handleDeleteItem(itemId)`: rewrites the whole stored collection without
   * the items carrying `itemId`, whoever owns them, and drops them from the
   * displayed list too.
   */
  function HandleDeleteItem(st: DashboardState, itemId: string): (r: DashboardState)
    ensures r.stored.Some?
    ensures forall x :: x in r.stored.value ==> x.id != itemId
    ensures forall x :: x in Items(st.stored) && x.id != itemId ==> x in r.stored.value
    ensures forall x :: x in r.userItems <==> x in st.userItems && x.id != itemId
  {
    DashboardState(Some(DeleteById(Items(st.stored), itemId)), DeleteById(st.userItems, itemId))
  }

  /** After a load, the displayed list is the owner view of the stored collection. */
  predicate ShowsOwnerView(st: DashboardState, uid: string)
  {
    st.userItems == OwnerView(Items(st.stored), uid)
  }

  /**
   * After a load with a session, the displayed list is the subsequence of the
   * stored collection at exactly the positions of that user's items.
   */
  lemma LoadShowsOwnerView(u: User, st: DashboardState)
    ensures ShowsOwnerView(LoadUserItems(Some(u), st), u.id)
    ensures Embedding(LoadUserItems(Some(u), st).userItems, Items(st.stored),
                      KeptPositions(Items(st.stored), OwnedBy(u.id)))
    ensures forall i :: 0 <= i < |Items(st.stored)| ==>
      (i in KeptPositions(Items(st.stored), OwnedBy(u.id)) <==> Items(st.stored)[i].userId == u.id)
  {
    OwnerViewInOrder(Items(st.stored), u.id);
  }

  /** Deleting keeps the displayed list equal to the owner view of the new collection. */
  lemma DeleteKeepsOwnerView(st: DashboardState, uid: string, itemId: string)
    requires ShowsOwnerView(st, uid)
    ensures ShowsOwnerView(HandleDeleteItem(st, itemId), uid)
  {
    DeleteCommutesWithOwnerView(Items(st.stored), itemId, uid);
  }

  /** Deleting an id absent from the store leaves the stored items as they were. */
  lemma DeleteAbsentKeepsStore(st: DashboardState, itemId: string)
    requires forall i :: 0 <= i < |Items(st.stored)| ==> Items(st.stored)[i].id != itemId
    ensures Items(HandleDeleteItem(st, itemId).stored) == Items(st.stored)
  {
    DeleteAbsentIsIdentity(Items(st.stored), itemId);
  }

}
