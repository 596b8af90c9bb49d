/** The edit page's photo order as the server stores it: the grid's reorder
    payload, read by the reorder route, gives every photo the user owns the
    position of its card. */
module PhotoSync {
  import opened Wrappers
  import opened Models
  import Listings
  import PhotoGrid

  /** The JSON "order" list as the reorder route reads it: every item has
      both keys. */
  function ToRequest(payload: seq<PhotoGrid.PayloadItem>): (r: seq<Listings.OrderItem>)
    ensures |r| == |payload|
    ensures forall k :: 0 <= k < |r| ==>
      r[k] == Listings.OrderItem(Some(payload[k].id as int), Some(payload[k].sortOrder as int))
  {
    seq(|payload|, k requires 0 <= k < |payload| =>
      Listings.OrderItem(Some(payload[k].id as int), Some(payload[k].sortOrder as int)))
  }

  /** No two cards show the same photo. */
  predicate DistinctImageIds(cards: seq<PhotoGrid.Card>)
  {
    forall i, j :: 0 <= i < j < |cards| && cards[i].imageId.Some? ==> cards[i].imageId != cards[j].imageId
  }

  /** Every card's photo id and position can be stored in an SQLite INTEGER
      column; the ids are the database's own row ids. */
  predicate CardsFitInteger(cards: seq<PhotoGrid.Card>)
  {
    && |cards| - 1 <= MaxInteger
    && forall j :: 0 <= j < |cards| && cards[j].imageId.Some? ==> cards[j].imageId.value <= MaxInteger
  }

  /** Distinct photos on the cards give distinct ids in the payload. */
  lemma PayloadIdsDistinct(cards: seq<PhotoGrid.Card>)
    requires DistinctImageIds(cards)
    ensures forall i, j :: 0 <= i < j < |PhotoGrid.Payload(cards)| ==>
      PhotoGrid.Payload(cards)[i].id != PhotoGrid.Payload(cards)[j].id
  {
    var p := PhotoGrid.Payload(cards);
    PhotoGrid.PayloadMatchesCards(cards);
    forall i, j | 0 <= i < j < |p| ensures p[i].id != p[j].id {
      assert p[i].sortOrder < p[j].sortOrder;
      assert cards[p[i].sortOrder].imageId == Some(p[i].id);
    }
  }

  /** Saving the grid's order never raises on the server (its ids and
      positions fit the database's integers), every photo of a
      card that the user owns gets that card's index as its sort order, and
      photos no card shows keep theirs. */
  lemma SavedOrderIsGridOrder(cards: seq<PhotoGrid.Card>, images: map<ImageId, Image>,
                              listings: map<ListingId, Listing>, user: Option<UserId>)
    requires DistinctImageIds(cards) && CardsFitInteger(cards)
    ensures var items := ToRequest(PhotoGrid.Payload(cards));
      && Listings.ApplyOrder(images, listings, user, items).Some?
      && var m := Listings.ApplyOrder(images, listings, user, items).value;
      && m.Keys == images.Keys
      && (forall j :: (0 <= j < |cards| && cards[j].imageId.Some? && cards[j].imageId.value in images
                       && Listings.Owns(listings, user, images[cards[j].imageId.value].listing)) ==>
            m[cards[j].imageId.value].sortOrder == j)
      && (forall id :: (id in images && forall j :: 0 <= j < |cards| ==> cards[j].imageId != Some(id)) ==>
            m[id] == images[id])
  {
    var p := PhotoGrid.Payload(cards);
    var items := ToRequest(p);
    PhotoGrid.PayloadMatchesCards(cards);
    Listings.ApplyOrderFails(images, listings, user, items);
    Listings.ApplyOrderFrame(images, listings, user, items);
    PayloadIdsDistinct(cards);
    forall i, j | 0 <= i < j < |items| ensures items[i].id != items[j].id {
      assert j < |p| && p[i].id != p[j].id;
      assert items[i].id == Some(p[i].id as int) && items[j].id == Some(p[j].id as int);
    }
    forall k | 0 <= k < |items| ensures !Listings.Raises(images, listings, user, items[k]) {
      assert cards[p[k].sortOrder].imageId == Some(p[k].id);
    }
    var m := Listings.ApplyOrder(images, listings, user, items).value;
    forall j | (0 <= j < |cards| && cards[j].imageId.Some? && cards[j].imageId.value in images
                && Listings.Owns(listings, user, images[cards[j].imageId.value].listing))
      ensures m[cards[j].imageId.value].sortOrder == j
    {
      var k :| 0 <= k < |p| && p[k] == PhotoGrid.PayloadItem(cards[j].imageId.value, j);
      Listings.ApplyOrderSets(images, listings, user, items, k);
    }
    forall id | id in images && forall j :: 0 <= j < |cards| ==> cards[j].imageId != Some(id)
      ensures m[id] == images[id]
    {
      forall k | 0 <= k < |items| ensures items[k].id != Some(id as int) {
        assert cards[p[k].sortOrder].imageId == Some(p[k].id);
      }
    }
  }

  /** After a card is dragged from index d to index t, the saved order puts
      its photo at sort order t. */
  lemma DraggedPhotoLandsAtTarget(cards: seq<PhotoGrid.Card>, d: nat, t: nat, images: map<ImageId, Image>,
                                  listings: map<ListingId, Listing>, user: Option<UserId>)
    requires d < |cards| && t < |cards| && DistinctImageIds(cards) && CardsFitInteger(cards)
    requires cards[d].imageId.Some? && cards[d].imageId.value in images
    requires Listings.Owns(listings, user, images[cards[d].imageId.value].listing)
    ensures var items := ToRequest(PhotoGrid.Payload(PhotoGrid.Move(cards, d, t)));
      && Listings.ApplyOrder(images, listings, user, items).Some?
      && var m := Listings.ApplyOrder(images, listings, user, items).value;
      && cards[d].imageId.value in m
      && m[cards[d].imageId.value].sortOrder == t
  {
    var moved := PhotoGrid.Move(cards, d, t);
    PhotoGrid.MoveFrom(cards, d, t);
    PhotoGrid.MoveLands(cards, d, t);
    assert DistinctImageIds(moved) by {
      forall i, j | 0 <= i < j < |moved| && moved[i].imageId.Some?
        ensures moved[i].imageId != moved[j].imageId
      {
        var a, b := PhotoGrid.MoveSource(d, t, i), PhotoGrid.MoveSource(d, t, j);
        if a < b { assert cards[a].imageId != cards[b].imageId; }
        else { assert b < a; if cards[b].imageId.Some? { assert cards[b].imageId != cards[a].imageId; } }
      }
    }
    assert CardsFitInteger(moved) by {
      forall j | 0 <= j < |moved| && moved[j].imageId.Some? ensures moved[j].imageId.value <= MaxInteger {
        assert moved[j] == cards[PhotoGrid.MoveSource(d, t, j)];
      }
    }
    SavedOrderIsGridOrder(moved, images, listings, user);
  }
}
