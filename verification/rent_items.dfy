/** `app/rent-items/page.tsx`: every stored item, with the owner's own items marked. */
module RentItems {
  import opened Wrappers
  import opened Auth
  import opened Listings

  /** One listed item and whether it carries the "Your Item" mark. */
  datatype Card = Card(item: RentalItem, yours: bool)

  /** A session is open and the item was posted by its user. */
  predicate IsYours(user: Option<User>, item: RentalItem)
  {
    match user
    case None => false
    case Some(u) => item.userId == u.id
  }

  /** The cards of the page, in storage order; no item is left out. */
  function Browse(user: Option<User>, stored: Option<seq<RentalItem>>): (cards: seq<Card>)
    ensures stored.None? ==> cards == []
    ensures stored.Some? ==> |cards| == |stored.value|
    ensures stored.Some? ==> forall i :: 0 <= i < |cards| ==>
      && cards[i].item == stored.value[i]
      && (cards[i].yours <==> user.Some? && stored.value[i].userId == user.value.id)
  {
    var items := Items(stored);
    seq(|items|, i requires 0 <= i < |items| => Card(items[i], IsYours(user, items[i])))
  }

  /** The items of the marked cards, in order. */
  function MarkedItems(cards: seq<Card>): seq<RentalItem>
    decreases |cards|
  {
    if |cards| == 0 then []
    else
      var rest := MarkedItems(cards[..|cards| - 1]);
      var last := cards[|cards| - 1];
      if last.yours then rest + [last.item] else rest
  }

  /** Without a session no card is marked. */
  lemma NothingYoursWithoutSession(stored: Option<seq<RentalItem>>)
    ensures forall c :: c in Browse(None, stored) ==> !c.yours
  {
  }

  /** The marked items are exactly what the dashboard shows the same user. */
  lemma {:induction false} MarkedIsOwnerView(u: User, items: seq<RentalItem>)
    ensures MarkedItems(Browse(Some(u), Some(items))) == OwnerView(items, u.id)
    decreases |items|
  {
    if |items| > 0 {
      var n := |items| - 1;
      var init, x := items[..n], items[n];
      assert items == init + [x];
      MarkedIsOwnerView(u, init);
      var cards, cards' := Browse(Some(u), Some(items)), Browse(Some(u), Some(init));
      assert cards[..n] == cards' by {
        forall i | 0 <= i < n
          ensures cards[..n][i] == cards'[i]
        {
          assert init[i] == items[i];
        }
      }
      assert cards[n] == Card(x, x.userId == u.id);
      assert MarkedItems(cards) ==
        if x.userId == u.id then MarkedItems(cards') + [x] else MarkedItems(cards');
      OwnerViewAppend(init, x, u.id);
    }
  }

}
