/** The photo grid of the edit page: its cards, drag and drop and keyboard
    reordering, the reorder payload, the primary badge, the delete button's
    busy flag and the single toast. The DOM becomes a sequence of cards in
    document order; network answers and the user's confirm answer are
    inputs to the handlers that consume them. */
module PhotoGrid {
  import opened Wrappers

  /** The make-primary button of a card. */
  datatype PrimaryButton = PrimaryButton(disabled: bool, text: string)

  /** One .edit-image-card. key stands for the DOM node's identity, imageId
      for its data-image-id (None when absent or empty). */
  datatype Card = Card(
    key: nat,
    imageId: Option<nat>,
    badge: bool,
    button: Option<PrimaryButton>,
    deleteBusy: bool)

  /** One element of the reorder request's "order" list. */
  datatype PayloadItem = PayloadItem(id: nat, sortOrder: nat)

  /** The #customToast element; serial stands for its node identity. */
  datatype Toast = Toast(serial: nat, message: string, kind: string)

  /** How a delete request ended: any failure, or success with the
      returned new_primary_id. */
  datatype DeleteOutcome = DeleteFailed | DeleteSucceeded(newPrimary: Option<nat>)

  const AlreadyPrimary: string := "Al hoofdfoto"
  const MakePrimary: string := "Maak hoofdfoto"

  predicate DistinctKeys(cards: seq<Card>)
  {
    forall i, j :: 0 <= i < j < |cards| ==> cards[i].key != cards[j].key
  }

  // ---------------------------------------------------------------------
  // Moving a card
  // ---------------------------------------------------------------------

  /** cards without the one at index i. */
  function Remove(cards: seq<Card>, i: nat): (r: seq<Card>)
    requires i < |cards|
    ensures |r| == |cards| - 1
  {
    cards[..i] + cards[i + 1..]
  }

  /** The card at index d taken out and put back so that it lands at index t. */
  function Move(cards: seq<Card>, d: nat, t: nat): (r: seq<Card>)
    requires d < |cards| && t < |cards|
    ensures |r| == |cards|
  {
    var rest := Remove(cards, d);
    rest[..t] + [cards[d]] + rest[t..]
  }

  /** The moved card ends at the target index. */
  lemma MoveLands(cards: seq<Card>, d: nat, t: nat)
    requires d < |cards| && t < |cards|
    ensures Move(cards, d, t)[t] == cards[d]
  {
  }

  /** Taking the moved card out again leaves the other cards in their old
      relative order. */
  lemma MoveKeepsOthers(cards: seq<Card>, d: nat, t: nat)
    requires d < |cards| && t < |cards|
    ensures Remove(Move(cards, d, t), t) == Remove(cards, d)
  {
    var rest := Remove(cards, d);
    var m := Move(cards, d, t);
    assert m[..t] == rest[..t];
    assert m[t + 1..] == rest[t..];
  }

  /** Moving a card neither adds nor loses a card. */
  lemma MovePermutes(cards: seq<Card>, d: nat, t: nat)
    requires d < |cards| && t < |cards|
    ensures multiset(Move(cards, d, t)) == multiset(cards)
  {
    var rest := Remove(cards, d);
    assert cards == cards[..d] + [cards[d]] + cards[d + 1..];
    assert rest == rest[..t] + rest[t..];
    calc {
      multiset(Move(cards, d, t));
      multiset(rest[..t]) + multiset{cards[d]} + multiset(rest[t..]);
      multiset(rest) + multiset{cards[d]};
      multiset(cards[..d]) + multiset(cards[d + 1..]) + multiset{cards[d]};
      multiset(cards);
    }
  }

  /** Dragged forward it sits right after the target (target.after), dragged
      backward right before it (target.before). */
  lemma MoveBesideTarget(cards: seq<Card>, d: nat, t: nat)
    requires d < |cards| && t < |cards| && d != t
    ensures d < t ==> Move(cards, d, t)[t - 1] == cards[t]
    ensures t < d ==> Move(cards, d, t)[t + 1] == cards[t]
  {
  }

  /** Moving to a neighbour swaps the two cards. */
  lemma MoveNeighbourSwaps(cards: seq<Card>, i: nat)
    requires i + 1 < |cards|
    ensures Move(cards, i, i + 1) == cards[..i] + [cards[i + 1], cards[i]] + cards[i + 2..]
    ensures Move(cards, i + 1, i) == cards[..i] + [cards[i + 1], cards[i]] + cards[i + 2..]
  {
  }

  /** Where the card at index i of Move(cards, d, t) came from. */
  function MoveSource(d: nat, t: nat, i: nat): nat
  {
    if i < t then (if i < d then i else i + 1)
    else if i == t then d
    else if i - 1 < d then i - 1
    else i
  }

  lemma MoveFrom(cards: seq<Card>, d: nat, t: nat)
    requires d < |cards| && t < |cards|
    ensures forall i :: 0 <= i < |cards| ==>
      MoveSource(d, t, i) < |cards| && Move(cards, d, t)[i] == cards[MoveSource(d, t, i)]
    ensures forall i, j :: 0 <= i < j < |cards| ==> MoveSource(d, t, i) != MoveSource(d, t, j)
  {
  }

  lemma MoveKeepsKeysDistinct(cards: seq<Card>, d: nat, t: nat)
    requires d < |cards| && t < |cards| && DistinctKeys(cards)
    ensures DistinctKeys(Move(cards, d, t))
  {
    MoveFrom(cards, d, t);
    var m := Move(cards, d, t);
    forall i, j | 0 <= i < j < |m| ensures m[i].key != m[j].key {
      var a, b := MoveSource(d, t, i), MoveSource(d, t, j);
      assert a != b;
      if a < b { assert cards[a].key != cards[b].key; } else { assert cards[b].key != cards[a].key; }
    }
  }

  /** A card whose key is not in the grid can be inserted after index t. */
  lemma InsertKeepsKeysDistinct(cards: seq<Card>, t: nat, c: Card)
    requires DistinctKeys(cards) && t < |cards|
    requires forall j :: 0 <= j < |cards| ==> cards[j].key != c.key
    ensures DistinctKeys(cards[..t + 1] + [c] + cards[t + 1..])
  {
    var r := cards[..t + 1] + [c] + cards[t + 1..];
    forall i, j | 0 <= i < j < |r| ensures r[i].key != r[j].key {
      var a := if i <= t then i else if i == t + 1 then -1 else i - 1;
      var b := if j <= t then j else if j == t + 1 then -1 else j - 1;
      assert a == -1 || r[i] == cards[a];
      assert b == -1 || r[j] == cards[b];
    }
  }

  /** cards.indexOf on node identity: the first index holding key k, or -1. */
  method IndexOfKey(cards: seq<Card>, k: nat) returns (r: int)
    ensures -1 <= r < |cards|
    ensures r == -1 <==> forall j :: 0 <= j < |cards| ==> cards[j].key != k
    ensures r >= 0 ==> cards[r].key == k && forall j :: 0 <= j < r ==> cards[j].key != k
  {
    var i := 0;
    while i < |cards|
      invariant 0 <= i <= |cards|
      invariant forall j :: 0 <= j < i ==> cards[j].key != k
    {
      if cards[i].key == k { return i; }
      i := i + 1;
    }
    return -1;
  }

  // ---------------------------------------------------------------------
  // The reorder payload
  // ---------------------------------------------------------------------

  /** One {id, sort_order} per card that has an image id, in document
      order, with the card's index among all cards as its sort order. */
  function Payload(cards: seq<Card>): seq<PayloadItem>
  {
    if cards == [] then []
    else
      var last := cards[|cards| - 1];
      Payload(cards[..|cards| - 1])
      + (if last.imageId.Some? then [PayloadItem(last.imageId.value, |cards| - 1)] else [])
  }

  /** Each item names a card that has that id at that index, the items go
      in document order, and no card with an id is left out. */
  lemma {:induction false} PayloadMatchesCards(cards: seq<Card>)
    ensures forall k :: 0 <= k < |Payload(cards)| ==>
      Payload(cards)[k].sortOrder < |cards| && cards[Payload(cards)[k].sortOrder].imageId == Some(Payload(cards)[k].id)
    ensures forall j, k :: 0 <= j < k < |Payload(cards)| ==> Payload(cards)[j].sortOrder < Payload(cards)[k].sortOrder
    ensures forall j :: 0 <= j < |cards| && cards[j].imageId.Some? ==>
      PayloadItem(cards[j].imageId.value, j) in Payload(cards)
  {
    if cards != [] {
      var n := |cards|;
      var init := cards[..n - 1];
      var p0, p := Payload(init), Payload(cards);
      var tail := if cards[n - 1].imageId.Some? then [PayloadItem(cards[n - 1].imageId.value, n - 1)] else [];
      assert p == p0 + tail;
      PayloadMatchesCards(init);
      forall k | 0 <= k < |p|
        ensures p[k].sortOrder < n && cards[p[k].sortOrder].imageId == Some(p[k].id)
      {
        if k < |p0| {
          assert p[k] == p0[k];
          assert init[p0[k].sortOrder] == cards[p0[k].sortOrder];
        }
      }
      forall j, k | 0 <= j < k < |p|
        ensures p[j].sortOrder < p[k].sortOrder
      {
        assert p[j] == p0[j];
        if k < |p0| { assert p[k] == p0[k]; }
      }
      forall j | 0 <= j < n && cards[j].imageId.Some?
        ensures PayloadItem(cards[j].imageId.value, j) in p
      {
        if j < n - 1 {
          assert init[j] == cards[j];
          assert PayloadItem(cards[j].imageId.value, j) in p0;
        } else {
          assert p[|p0|] == tail[0];
        }
      }
    }
  }

  /** When every card has an id, item j is card j's id at sort order j. */
  lemma {:induction false} PayloadAllIds(cards: seq<Card>)
    requires forall j :: 0 <= j < |cards| ==> cards[j].imageId.Some?
    ensures |Payload(cards)| == |cards|
    ensures forall j :: 0 <= j < |cards| ==> Payload(cards)[j] == PayloadItem(cards[j].imageId.value, j)
  {
    if cards != [] {
      var init := cards[..|cards| - 1];
      PayloadAllIds(init);
    }
  }

  lemma PayloadExample()
    ensures Payload([Card(7, Some(3), true, None, false), Card(8, None, false, None, false),
                     Card(9, Some(2), false, None, false)])
            == [PayloadItem(3, 0), PayloadItem(2, 2)]
  {
    var c := [Card(7, Some(3), true, None, false), Card(8, None, false, None, false),
              Card(9, Some(2), false, None, false)];
    assert c[..2][..1] == [c[0]];
    assert [c[0]][..0] == [];
    assert Payload([c[0]]) == [PayloadItem(3, 0)];
    assert Payload(c[..2]) == [PayloadItem(3, 0)];
  }

  /** The forEach that fills the "order" array. */
  method BuildOrder(cards: seq<Card>) returns (order: seq<PayloadItem>)
    ensures order == Payload(cards)
  {
    order := [];
    var index := 0;
    while index < |cards|
      invariant 0 <= index <= |cards|
      invariant order == Payload(cards[..index])
    {
      assert cards[..index + 1][..index] == cards[..index];
      if cards[index].imageId.Some? {
        order := order + [PayloadItem(cards[index].imageId.value, index)];
      }
      index := index + 1;
    }
    assert cards[..index] == cards;
  }

  /** A request is sent only for a non-empty order. */
  function Send(order: seq<PayloadItem>): seq<seq<PayloadItem>>
  {
    if order == [] then [] else [order]
  }

  // ---------------------------------------------------------------------
  // The primary badge
  // ---------------------------------------------------------------------

  /** Card j is the first card whose data-image-id is id
      (document.querySelector returns the first match). */
  predicate IsFirstWithImage(cards: seq<Card>, id: nat, j: nat)
  {
    j < |cards| && cards[j].imageId == Some(id)
    && forall i :: 0 <= i < j ==> cards[i].imageId != Some(id)
  }

  /** A card after updatePrimaryBadge: badge only on the new primary, whose
      button is disabled and reads "Al hoofdfoto"; every other button is
      enabled and reads "Maak hoofdfoto". */
  function Mark(c: Card, primary: bool): Card
  {
    c.(badge := primary,
       button := if c.button.None? then None
                 else Some(if primary then PrimaryButton(true, AlreadyPrimary) else PrimaryButton(false, MakePrimary)))
  }

  function WithPrimary(cards: seq<Card>, id: nat): (r: seq<Card>)
    ensures |r| == |cards|
    ensures forall j :: 0 <= j < |r| ==> r[j] == Mark(cards[j], IsFirstWithImage(cards, id, j))
  {
    seq(|cards|, j requires 0 <= j < |cards| => Mark(cards[j], IsFirstWithImage(cards, id, j)))
  }

  /** At most one card carries the badge, one does exactly when some card
      has the id, and nothing but badges and buttons changes. */
  lemma WithPrimaryExclusive(cards: seq<Card>, id: nat)
    ensures var r := WithPrimary(cards, id);
      && (forall i, j :: 0 <= i < |r| && 0 <= j < |r| && r[i].badge && r[j].badge ==> i == j)
      && ((exists j :: 0 <= j < |r| && r[j].badge) <==> (exists j :: 0 <= j < |cards| && cards[j].imageId == Some(id)))
      && (forall j :: 0 <= j < |r| ==> r[j].(badge := cards[j].badge, button := cards[j].button) == cards[j])
  {
    var r := WithPrimary(cards, id);
    if exists j :: 0 <= j < |cards| && cards[j].imageId == Some(id) {
      var j := FirstWithImage(cards, id);
      assert r[j].badge;
    }
  }

  lemma FirstWithImage(cards: seq<Card>, id: nat) returns (j: nat)
    requires exists j :: 0 <= j < |cards| && cards[j].imageId == Some(id)
    ensures IsFirstWithImage(cards, id, j)
  {
    var k :| 0 <= k < |cards| && cards[k].imageId == Some(id);
    j := 0;
    while cards[j].imageId != Some(id)
      invariant j <= k
      invariant forall i :: 0 <= i < j ==> cards[i].imageId != Some(id)
      decreases k - j
    {
      j := j + 1;
    }
  }

  /** querySelector(`.edit-image-card[data-image-id="id"]`). */
  method FindCardWithImage(cards: seq<Card>, id: nat) returns (r: int)
    ensures -1 <= r < |cards|
    ensures r == -1 <==> forall j :: 0 <= j < |cards| ==> cards[j].imageId != Some(id)
    ensures r >= 0 ==> IsFirstWithImage(cards, id, r)
  {
    var i := 0;
    while i < |cards|
      invariant 0 <= i <= |cards|
      invariant forall j :: 0 <= j < i ==> cards[j].imageId != Some(id)
    {
      if cards[i].imageId == Some(id) { return i; }
      i := i + 1;
    }
    return -1;
  }

  /** The keyboard handler's target index: Ctrl or Cmd without Shift moves
      the focused card (index i of n) one place, unless it is at that end. */
  function KeyTarget(n: nat, i: nat, key: string, ctrl: bool, meta: bool, shift: bool): (r: Option<nat>)
    requires i < n
    ensures r.Some? ==> r.value < n && (r.value == i + 1 || r.value + 1 == i)
    ensures shift || !(ctrl || meta) ==> r.None?
    ensures r.Some? && r.value + 1 == i <==>
              (ctrl || meta) && !shift && (key == "ArrowLeft" || key == "ArrowUp") && i > 0
    ensures r.Some? && r.value == i + 1 <==>
              (ctrl || meta) && !shift && (key == "ArrowRight" || key == "ArrowDown") && i + 1 < n
  {
    if (ctrl || meta) && !shift then
      if key == "ArrowLeft" || key == "ArrowUp" then
        if i > 0 then Some(i - 1) else None
      else if key == "ArrowRight" || key == "ArrowDown" then
        if i + 1 < n then Some(i + 1) else None
      else None
    else None
  }

  /** Ctrl+ArrowRight then Ctrl+ArrowLeft puts the card back where it was. */
  lemma KeyMoveRightThenLeft(cards: seq<Card>, i: nat)
    requires i + 1 < |cards|
    ensures KeyTarget(|cards|, i, "ArrowRight", true, false, false) == Some(i + 1)
    ensures KeyTarget(|cards|, i + 1, "ArrowLeft", true, false, false) == Some(i)
    ensures Move(Move(cards, i, i + 1), i + 1, i) == cards
  {
    MoveNeighbourSwaps(cards, i);
    var m := Move(cards, i, i + 1);
    MoveNeighbourSwaps(m, i);
    assert m[..i] == cards[..i] && m[i + 2..] == cards[i + 2..];
    assert cards == cards[..i] + [cards[i], cards[i + 1]] + cards[i + 2..];
  }

  /** Whether new_primary_id is truthy in JavaScript. */
  predicate Truthy(id: Option<nat>)
  {
    id.Some? && id.value != 0
  }

  // ---------------------------------------------------------------------
  // The page state
  // ---------------------------------------------------------------------

  class Grid {
    /** The cards of #photoGrid in document order. */
    var cards: seq<Card>
    /** The "no photos left" message replaced the grid's content. */
    var emptyNotice: bool
    /** draggedItem. */
    var dragged: Option<Card>
    /** The #customToast elements in the body. */
    var toasts: seq<Toast>
    var nextToast: nat
    /** How many #toastStyles elements the head holds. */
    var toastStyles: nat
    /** The bodies of the reorder requests sent so far. */
    var sent: seq<seq<PayloadItem>>

    ghost predicate Valid()
      reads this
    {
      DistinctKeys(cards) && |toasts| <= 1 && toastStyles <= 1
    }

    constructor (initial: seq<Card>)
      requires DistinctKeys(initial)
      ensures Valid()
      ensures cards == initial && !emptyNotice && dragged == None
      ensures toasts == [] && toastStyles == 0 && sent == []
    {
      cards := initial;
      emptyNotice := false;
      dragged := None;
      toasts := [];
      nextToast := 0;
      toastStyles := 0;
      sent := [];
    }

    /** showToast: the old toast goes, the new one is appended, and the
        style element is added only when missing. */
    method ShowToast(message: string, kind: string)
      requires Valid()
      modifies this
      ensures Valid()
      ensures cards == old(cards) && emptyNotice == old(emptyNotice) && dragged == old(dragged) && sent == old(sent)
      ensures toasts == [Toast(old(nextToast), message, kind)]
      ensures nextToast == old(nextToast) + 1
      ensures toastStyles == 1
    {
      if |toasts| > 0 {
        toasts := toasts[1..];
      }
      if toastStyles == 0 {
        toastStyles := 1;
      }
      toasts := toasts + [Toast(nextToast, message, kind)];
      nextToast := nextToast + 1;
    }

    /** The auto-dismiss timer of toast serial: it goes if still present. */
    method ExpireToast(serial: nat)
      requires Valid()
      modifies this
      ensures Valid()
      ensures cards == old(cards) && emptyNotice == old(emptyNotice) && dragged == old(dragged) && sent == old(sent)
      ensures nextToast == old(nextToast) && toastStyles == old(toastStyles)
      ensures toasts == if |old(toasts)| == 1 && old(toasts)[0].serial == serial then [] else old(toasts)
    {
      if |toasts| == 1 && toasts[0].serial == serial {
        toasts := [];
      }
    }

    /** savePhotoOrder: the payload of the current order is sent unless
        it is empty. */
    method SavePhotoOrder()
      requires Valid()
      modifies this
      ensures Valid()
      ensures cards == old(cards) && emptyNotice == old(emptyNotice) && dragged == old(dragged)
      ensures toasts == old(toasts) && nextToast == old(nextToast) && toastStyles == old(toastStyles)
      ensures sent == old(sent) + Send(Payload(cards))
    {
      var order := BuildOrder(cards);
      if |order| > 0 {
        sent := sent + [order];
      }
    }

    /** The answer to a reorder request. */
    method ReorderAnswered(success: bool)
      requires Valid()
      modifies this
      ensures Valid()
      ensures cards == old(cards) && emptyNotice == old(emptyNotice) && dragged == old(dragged) && sent == old(sent)
      ensures toastStyles == 1 && nextToast == old(nextToast) + 1
      ensures toasts == [Toast(old(nextToast),
                               if success then "Volgorde opgeslagen" else "Volgorde kon niet worden opgeslagen",
                               if success then "success" else "danger")]
    {
      if success {
        ShowToast("Volgorde opgeslagen", "success");
      } else {
        ShowToast("Volgorde kon niet worden opgeslagen", "danger");
      }
    }

    /** dragstart on the card at index i. */
    method DragStart(i: nat)
      requires Valid()
      modifies this
      ensures Valid()
      ensures cards == old(cards) && emptyNotice == old(emptyNotice) && sent == old(sent)
      ensures toasts == old(toasts) && nextToast == old(nextToast) && toastStyles == old(toastStyles)
      ensures dragged == if i < |cards| then Some(cards[i]) else old(dragged)
    {
      if i < |cards| {
        dragged := Some(cards[i]);
      }
    }

    /** dragend. */
    method DragEnd()
      requires Valid()
      modifies this
      ensures Valid()
      ensures cards == old(cards) && emptyNotice == old(emptyNotice) && sent == old(sent)
      ensures toasts == old(toasts) && nextToast == old(nextToast) && toastStyles == old(toastStyles)
      ensures dragged == None
    {
      dragged := None;
    }

    /** drop on the card at index target (None: not on a card). */
    method Drop(target: Option<nat>)
      requires Valid()
      modifies this
      ensures Valid()
      ensures emptyNotice == old(emptyNotice) && dragged == old(dragged)
      ensures toasts == old(toasts) && nextToast == old(nextToast) && toastStyles == old(toastStyles)
      ensures (dragged.None? || target.None? || target.value >= |old(cards)|
               || old(cards)[target.value].key == dragged.value.key) ==>
                cards == old(cards) && sent == old(sent)
      ensures (dragged.Some? && target.Some? && target.value < |old(cards)|
               && old(cards)[target.value].key != dragged.value.key) ==>
                && (forall d :: 0 <= d < |old(cards)| && old(cards)[d].key == dragged.value.key ==>
                      cards == Move(old(cards), d, target.value))
                && ((forall d :: 0 <= d < |old(cards)| ==> old(cards)[d].key != dragged.value.key) ==>
                      cards == old(cards)[..target.value + 1] + [dragged.value] + old(cards)[target.value + 1..])
                && sent == old(sent) + Send(Payload(cards))
    {
      if dragged.None? || target.None? || target.value >= |cards| || cards[target.value].key == dragged.value.key {
        return;
      }
      var t := target.value;
      var d := IndexOfKey(cards, dragged.value.key);
      if d == -1 {
        // A detached card is inserted after the target.
        InsertAfterAndSave(t, dragged.value);
      } else {
        MoveAndSave(d, t);
      }
    }

    /** The card at index d moved to index t, then savePhotoOrder. */
    method MoveAndSave(d: nat, t: nat)
      requires Valid() && d < |cards| && t < |cards|
      modifies this
      ensures Valid()
      ensures emptyNotice == old(emptyNotice) && dragged == old(dragged)
      ensures toasts == old(toasts) && nextToast == old(nextToast) && toastStyles == old(toastStyles)
      ensures cards == Move(old(cards), d, t)
      ensures sent == old(sent) + Send(Payload(cards))
    {
      MoveKeepsKeysDistinct(cards, d, t);
      cards := Move(cards, d, t);
      SavePhotoOrder();
    }

    /** A card not in the grid inserted after index t, then savePhotoOrder. */
    method InsertAfterAndSave(t: nat, c: Card)
      requires Valid() && t < |cards|
      requires forall j :: 0 <= j < |cards| ==> cards[j].key != c.key
      modifies this
      ensures Valid()
      ensures emptyNotice == old(emptyNotice) && dragged == old(dragged)
      ensures toasts == old(toasts) && nextToast == old(nextToast) && toastStyles == old(toastStyles)
      ensures cards == old(cards)[..t + 1] + [c] + old(cards)[t + 1..]
      ensures sent == old(sent) + Send(Payload(cards))
    {
      InsertKeepsKeysDistinct(cards, t, c);
      cards := cards[..t + 1] + [c] + cards[t + 1..];
      SavePhotoOrder();
    }

    /** keydown on the focused card (None: focus is not on a card). */
    method KeyMove(focus: Option<nat>, key: string, ctrl: bool, meta: bool, shift: bool)
      requires Valid()
      modifies this
      ensures Valid()
      ensures emptyNotice == old(emptyNotice) && dragged == old(dragged)
      ensures (focus.None? || forall i :: 0 <= i < |old(cards)| ==> old(cards)[i].key != focus.value) ==>
        cards == old(cards) && sent == old(sent) && toasts == old(toasts)
        && nextToast == old(nextToast) && toastStyles == old(toastStyles)
      ensures forall i :: 0 <= i < |old(cards)| && focus.Some? && old(cards)[i].key == focus.value ==>
        if KeyTarget(|old(cards)|, i, key, ctrl, meta, shift).None? then
          cards == old(cards) && sent == old(sent) && toasts == old(toasts)
          && nextToast == old(nextToast) && toastStyles == old(toastStyles)
        else
          && cards == Move(old(cards), i, KeyTarget(|old(cards)|, i, key, ctrl, meta, shift).value)
          && sent == old(sent) + Send(Payload(cards))
          && toasts == [Toast(old(nextToast), "Volgorde gewijzigd", "info")]
          && toastStyles == 1 && nextToast == old(nextToast) + 1
    {
      if focus.None? { return; }
      var i := IndexOfKey(cards, focus.value);
      if i < 0 { return; }
      var t := KeyTarget(|cards|, i, key, ctrl, meta, shift);
      if t.None? { return; }
      MoveAndSave(i, t.value);
      ShowToast("Volgorde gewijzigd", "info");
    }

    /** updatePrimaryBadge(id). */
    method UpdatePrimaryBadge(id: nat)
      requires Valid()
      modifies this
      ensures Valid()
      ensures emptyNotice == old(emptyNotice) && dragged == old(dragged) && sent == old(sent)
      ensures toasts == old(toasts) && nextToast == old(nextToast) && toastStyles == old(toastStyles)
      ensures cards == WithPrimary(old(cards), id)
    {
      var cleared := cards;
      var j := 0;
      while j < |cleared|
        invariant 0 <= j <= |cleared| && |cleared| == |cards|
        invariant forall i :: 0 <= i < j ==> cleared[i] == Mark(cards[i], false)
        invariant forall i :: j <= i < |cleared| ==> cleared[i] == cards[i]
      {
        cleared := cleared[j := Mark(cleared[j], false)];
        j := j + 1;
      }
      var p := FindCardWithImage(cards, id);
      if p >= 0 {
        cleared := cleared[p := Mark(cards[p], true)];
      }
      forall i | 0 <= i < |cards| ensures cleared[i] == Mark(cards[i], IsFirstWithImage(cards, id, i)) {
        if p >= 0 && i != p {
          assert !IsFirstWithImage(cards, id, i) by {
            if i < p { assert cards[i].imageId != Some(id); } else { assert cards[p].imageId == Some(id); }
          }
        }
      }
      cards := cleared;
    }

    /** A click on the make-primary button of card key. Returns the image
        id to request, or None when the click is ignored. */
    method ClickMakePrimary(key: nat) returns (request: Option<nat>)
      requires Valid()
      modifies this
      ensures Valid()
      ensures emptyNotice == old(emptyNotice) && dragged == old(dragged) && sent == old(sent)
      ensures toasts == old(toasts) && nextToast == old(nextToast) && toastStyles == old(toastStyles)
      ensures |cards| == |old(cards)|
      ensures request.None? ==> cards == old(cards)
      ensures request.Some? ==>
        exists i :: (0 <= i < |old(cards)| && old(cards)[i].key == key
          && old(cards)[i].imageId == request && old(cards)[i].button.Some? && !old(cards)[i].button.value.disabled
          && cards == old(cards)[i := old(cards)[i].(button := Some(PrimaryButton(true, "Bezig...")))])
      ensures (exists i :: 0 <= i < |old(cards)| && old(cards)[i].key == key && old(cards)[i].imageId.Some?
                 && old(cards)[i].button.Some? && !old(cards)[i].button.value.disabled) ==> request.Some?
    {
      var i := IndexOfKey(cards, key);
      if i < 0 || cards[i].button.None? || cards[i].imageId.None? || cards[i].button.value.disabled {
        return None;
      }
      cards := cards[i := cards[i].(button := Some(PrimaryButton(true, "Bezig...")))];
      return cards[i].imageId;
    }

    /** The answer to a set-primary request sent for card key; the finally
        clause re-enables that card's button in every case. */
    method MakePrimaryDone(key: nat, id: nat, originalText: string, success: bool)
      requires Valid()
      modifies this
      ensures Valid()
      ensures emptyNotice == old(emptyNotice) && dragged == old(dragged) && sent == old(sent)
      ensures toasts == old(toasts) && nextToast == old(nextToast) && toastStyles == old(toastStyles)
      ensures var base := if success then WithPrimary(old(cards), id) else old(cards);
        && |cards| == |base|
        && forall j :: 0 <= j < |cards| ==>
             cards[j] == (if base[j].key == key && base[j].button.Some?
                          then base[j].(button := Some(PrimaryButton(false, if success then "✓ Hoofdfoto" else originalText)))
                          else base[j])
    {
      if success {
        UpdatePrimaryBadge(id);
      }
      var i := IndexOfKey(cards, key);
      if i >= 0 && cards[i].button.Some? {
        cards := cards[i := cards[i].(button := Some(PrimaryButton(false, if success then "✓ Hoofdfoto" else originalText)))];
      }
    }

    /** The timer a successful set-primary answer starts: two seconds
        later the confirmed button of card key reads "Al hoofdfoto", and
        nothing else changes. */
    method PrimaryConfirmationExpired(key: nat)
      requires Valid()
      modifies this
      ensures Valid()
      ensures emptyNotice == old(emptyNotice) && dragged == old(dragged) && sent == old(sent)
      ensures toasts == old(toasts) && nextToast == old(nextToast) && toastStyles == old(toastStyles)
      ensures |cards| == |old(cards)|
      ensures forall j :: 0 <= j < |cards| ==>
        cards[j] == (if old(cards)[j].key == key && old(cards)[j].button.Some?
                     then old(cards)[j].(button := Some(old(cards)[j].button.value.(text := AlreadyPrimary)))
                     else old(cards)[j])
    {
      var i := IndexOfKey(cards, key);
      if i >= 0 && cards[i].button.Some? {
        cards := cards[i := cards[i].(button := Some(cards[i].button.value.(text := AlreadyPrimary)))];
      }
    }

    /** A click on the delete button of card key; confirmed is the answer
        to the confirm dialog. Returns the image id to request. */
    method ClickDelete(key: nat, confirmed: bool) returns (request: Option<nat>)
      requires Valid()
      modifies this
      ensures Valid()
      ensures emptyNotice == old(emptyNotice) && dragged == old(dragged) && sent == old(sent)
      ensures toasts == old(toasts) && nextToast == old(nextToast) && toastStyles == old(toastStyles)
      ensures request.None? ==> cards == old(cards)
      ensures forall i :: 0 <= i < |old(cards)| && old(cards)[i].key == key ==>
        (request.Some? <==> !old(cards)[i].deleteBusy && old(cards)[i].imageId.Some? && confirmed)
        && (request.Some? ==> request == old(cards)[i].imageId
                              && cards == old(cards)[i := old(cards)[i].(deleteBusy := true)])
      ensures (forall i :: 0 <= i < |old(cards)| ==> old(cards)[i].key != key) ==> request.None?
    {
      var i := IndexOfKey(cards, key);
      if i < 0 || cards[i].deleteBusy { return None; }
      // busy is set here, and reset on a missing id or a declined confirm.
      if cards[i].imageId.None? || !confirmed { return None; }
      cards := cards[i := cards[i].(deleteBusy := true)];
      return cards[i].imageId;
    }

    /** The end of a delete request sent for card key. */
    method DeleteDone(key: nat, outcome: DeleteOutcome)
      requires Valid()
      modifies this
      ensures Valid()
      ensures dragged == old(dragged) && sent == old(sent)
      ensures toasts == old(toasts) && nextToast == old(nextToast) && toastStyles == old(toastStyles)
      ensures (forall i :: 0 <= i < |old(cards)| ==> old(cards)[i].key != key) ==>
                cards == old(cards) && emptyNotice == old(emptyNotice)
      ensures forall i :: 0 <= i < |old(cards)| && old(cards)[i].key == key ==>
        match outcome
        case DeleteFailed =>
          cards == old(cards)[i := old(cards)[i].(deleteBusy := false)] && emptyNotice == old(emptyNotice)
        case DeleteSucceeded(np) =>
          && cards == (if Truthy(np) then WithPrimary(Remove(old(cards), i), np.value) else Remove(old(cards), i))
          && emptyNotice == (old(emptyNotice) || cards == [])
    {
      var i := IndexOfKey(cards, key);
      if i < 0 { return; }
      match outcome {
        case DeleteFailed =>
          cards := cards[i := cards[i].(deleteBusy := false)];
        case DeleteSucceeded(np) =>
          RemoveKeepsKeysDistinct(cards, i);
          cards := Remove(cards, i);
          if cards == [] {
            emptyNotice := true;
          }
          if Truthy(np) {
            UpdatePrimaryBadge(np.value);
          }
      }
    }
  }

  lemma RemoveKeepsKeysDistinct(cards: seq<Card>, i: nat)
    requires i < |cards| && DistinctKeys(cards)
    ensures DistinctKeys(Remove(cards, i))
  {
    var r := Remove(cards, i);
    forall a, b | 0 <= a < b < |r| ensures r[a].key != r[b].key {
      var a', b' := if a < i then a else a + 1, if b < i then b else b + 1;
      assert r[a] == cards[a'] && r[b] == cards[b'];
    }
  }
}
