/** The server side of the listing site: the tables held in memory by one
    Site object, and the routes that change them (new listing with photos,
    edit with extra photos, delete photo, set primary photo, reorder photos,
    toggle status, delete listing, register). The current session user is an
    input; photo file writes become a per-upload success flag. */
module Listings {
  import opened Wrappers
  import opened Chars
  import opened Models
  import Filters

  // ---------------------------------------------------------------------
  // Uploads
  // ---------------------------------------------------------------------

  /** One file of the "fotos" field. saves says whether writing the file and
      building its record succeeded; a failure is caught and skipped. */
  datatype Upload = Upload(filename: string, saves: bool)

  /** An upload the routes keep: a named file whose extension is allowed. */
  predicate Kept(u: Upload)
  {
    u.filename != "" && Filters.AllowedFile(u.filename)
  }

  /** The uploads for which keep holds, in their order. */
  function Filter(keep: Upload -> bool, photos: seq<Upload>): (r: seq<Upload>)
    ensures |r| <= |photos|
    ensures forall u :: u in r <==> u in photos && keep(u)
  {
    if photos == [] then []
    else (if keep(photos[0]) then [photos[0]] else []) + Filter(keep, photos[1..])
  }

  /** The uploads the routes keep, in upload order. */
  function ValidPhotos(photos: seq<Upload>): (r: seq<Upload>)
    ensures |r| <= |photos|
    ensures forall u :: u in r <==> u in photos && Kept(u)
  {
    Filter(Kept, photos)
  }

  /** Filtering works upload by upload: the uploads kept from a + b are
      those kept from a followed by those kept from b. */
  lemma {:induction false} FilterAppend(keep: Upload -> bool, a: seq<Upload>, b: seq<Upload>)
    ensures Filter(keep, a + b) == Filter(keep, a) + Filter(keep, b)
    decreases |a|
  {
    if a == [] {
      assert a + b == b;
    } else {
      assert (a + b)[0] == a[0];
      assert (a + b)[1..] == a[1..] + b;
      FilterAppend(keep, a[1..], b);
    }
  }

  /** The filter works upload by upload: the kept uploads of a + b are
      those of a followed by those of b, in their order. */
  lemma ValidPhotosAppend(a: seq<Upload>, b: seq<Upload>)
    ensures ValidPhotos(a + b) == ValidPhotos(a) + ValidPhotos(b)
  {
    FilterAppend(Kept, a, b);
  }

  /** One upload is kept, once, exactly when it is named and allowed. */
  lemma ValidPhotosSingle(u: Upload)
    ensures ValidPhotos([u]) == if Kept(u) then [u] else []
  {
    assert [u][1..] == [];
  }

  /** Number of uploads that save. */
  function CountSaved(valid: seq<Upload>): nat
  {
    if valid == [] then 0
    else CountSaved(valid[..|valid| - 1]) + (if valid[|valid| - 1].saves then 1 else 0)
  }

  /** The records the upload loop creates, in upload order: the photo at
      position idx gets sort order base + idx, and it is primary when no
      primary existed before the loop and no earlier photo saved. */
  function SavedImages(valid: seq<Upload>, l: ListingId, base: int, primaryTaken: bool): seq<Image>
  {
    if valid == [] then []
    else
      var prev := SavedImages(valid[..|valid| - 1], l, base, primaryTaken);
      if valid[|valid| - 1].saves
      then prev + [Image(l, !primaryTaken && prev == [], base + |valid| - 1)]
      else prev
  }

  /** What the upload loop promises: one record per saved photo, in upload
      order, each with the sort order of its upload position, and the primary
      flag on the first saved photo only, and only if no primary existed. */
  lemma {:induction false} SavedImagesShape(valid: seq<Upload>, l: ListingId, base: int, primaryTaken: bool)
    ensures var r := SavedImages(valid, l, base, primaryTaken);
      && |r| == CountSaved(valid)
      && (forall k :: 0 <= k < |r| ==>
            r[k].listing == l && base <= r[k].sortOrder < base + |valid|
            && valid[r[k].sortOrder - base].saves)
      && (forall j, k :: 0 <= j < k < |r| ==> r[j].sortOrder < r[k].sortOrder)
      && (forall k :: 0 <= k < |r| ==> (r[k].isPrimary <==> !primaryTaken && k == 0))
  {
    if valid != [] {
      var p := valid[..|valid| - 1];
      SavedImagesShape(p, l, base, primaryTaken);
      var prev := SavedImages(p, l, base, primaryTaken);
      forall k | 0 <= k < |prev| ensures valid[prev[k].sortOrder - base].saves {
        assert valid[prev[k].sortOrder - base] == p[prev[k].sortOrder - base];
      }
    }
  }

  /** Every record's sort order can be stored; otherwise the commit raises. */
  predicate SortOrdersFit(recs: seq<Image>)
  {
    forall k :: 0 <= k < |recs| ==> FitsInteger(recs[k].sortOrder)
  }

  /** The new photos' sort orders fit when the whole run base .. base + |valid| - 1
      does, and do not when the run starts past the range and a photo saves. */
  lemma SavedImagesFit(valid: seq<Upload>, l: ListingId, base: int, primaryTaken: bool)
    ensures MinInteger <= base && base + |valid| - 1 <= MaxInteger ==>
      SortOrdersFit(SavedImages(valid, l, base, primaryTaken))
    ensures MaxInteger < base && CountSaved(valid) > 0 ==>
      !SortOrdersFit(SavedImages(valid, l, base, primaryTaken))
  {
    SavedImagesShape(valid, l, base, primaryTaken);
    var r := SavedImages(valid, l, base, primaryTaken);
    if MaxInteger < base && CountSaved(valid) > 0 {
      assert !FitsInteger(r[0].sortOrder);
    }
  }

  /** Records laid out on consecutive ids from start. */
  function Placed(recs: seq<Image>, start: nat): map<ImageId, Image>
  {
    if recs == [] then map[]
    else Placed(recs[..|recs| - 1], start)[start + |recs| - 1 := recs[|recs| - 1]]
  }

  /** The placed records occupy exactly the ids start .. start + |recs| - 1. */
  lemma {:induction false} PlacedFacts(recs: seq<Image>, start: nat)
    ensures forall k :: k in Placed(recs, start) <==> start <= k < start + |recs|
    ensures forall k :: k in Placed(recs, start) ==> Placed(recs, start)[k] == recs[k - start]
  {
    if recs != [] {
      PlacedFacts(recs[..|recs| - 1], start);
    }
  }

  lemma PlacedSnoc(recs: seq<Image>, r: Image, start: nat)
    ensures Placed(recs + [r], start) == Placed(recs, start)[start + |recs| := r]
  {
  }

  // ---------------------------------------------------------------------
  // Queries over the image table
  // ---------------------------------------------------------------------

  /** Photo n has the smallest sort order among listing l's photos, the
      lowest id breaking ties. */
  ghost predicate LowestSortOrder(images: map<ImageId, Image>, l: ListingId, n: ImageId)
  {
    n in images &&
    forall id :: id in images && images[id].listing == l ==>
      images[n].sortOrder < images[id].sortOrder
      || (images[n].sortOrder == images[id].sortOrder && n <= id)
  }

  /** SELECT ... WHERE property_id = l ORDER BY sort_order LIMIT 1, as a scan. */
  method FirstBySortOrder(images: map<ImageId, Image>, l: ListingId) returns (r: Option<ImageId>)
    ensures r.None? <==> ImagesOf(images, l) == {}
    ensures r.Some? ==> r.value in ImagesOf(images, l) && LowestSortOrder(images, l, r.value)
  {
    r := None;
    var todo := images.Keys;
    while todo != {}
      invariant todo <= images.Keys
      invariant r.None? ==> forall id :: id in images && id !in todo ==> images[id].listing != l
      invariant r.Some? ==> r.value in images && images[r.value].listing == l
      invariant r.Some? ==> forall id :: id in images && id !in todo && images[id].listing == l ==>
                  images[r.value].sortOrder < images[id].sortOrder
                  || (images[r.value].sortOrder == images[id].sortOrder && r.value <= id)
      decreases |todo|
    {
      var id :| id in todo;
      todo := todo - {id};
      var img := images[id];
      if img.listing == l {
        match r {
          case None =>
            r := Some(id);
          case Some(best) =>
            if img.sortOrder < images[best].sortOrder
               || (img.sortOrder == images[best].sortOrder && id < best) {
              r := Some(id);
            }
        }
      }
    }
  }

  /** m is max(sort_order) over listing l's photos "or 0". */
  ghost predicate IsTopSortOrder(images: map<ImageId, Image>, l: ListingId, m: int)
  {
    (forall id :: id in ImagesOf(images, l) ==> images[id].sortOrder <= m)
    && (ImagesOf(images, l) == {} ==> m == 0)
    && (ImagesOf(images, l) != {} ==> exists id :: id in ImagesOf(images, l) && images[id].sortOrder == m)
  }

  /** The largest sort order among the photos ids. */
  ghost function MaxSortOrderIn(images: map<ImageId, Image>, ids: set<ImageId>): (m: int)
    requires ids != {} && forall id :: id in ids ==> id in images
    ensures forall id :: id in ids ==> images[id].sortOrder <= m
    ensures exists id :: id in ids && images[id].sortOrder == m
    decreases ids
  {
    var id :| id in ids;
    if ids == {id} then images[id].sortOrder
    else
      var rest := MaxSortOrderIn(images, ids - {id});
      if images[id].sortOrder > rest then images[id].sortOrder else rest
  }

  /** max(sort_order) over listing l's photos, or 0 when it has none. */
  ghost function TopSortOrder(images: map<ImageId, Image>, l: ListingId): (m: int)
    ensures IsTopSortOrder(images, l, m)
  {
    if ImagesOf(images, l) == {} then 0 else MaxSortOrderIn(images, ImagesOf(images, l))
  }

  lemma TopSortOrderUnique(images: map<ImageId, Image>, l: ListingId, m: int)
    requires IsTopSortOrder(images, l, m)
    ensures m == TopSortOrder(images, l)
  {
    var t := TopSortOrder(images, l);
    if ImagesOf(images, l) != {} {
      var a :| a in ImagesOf(images, l) && images[a].sortOrder == m;
      var b :| b in ImagesOf(images, l) && images[b].sortOrder == t;
      assert images[a].sortOrder <= t && images[b].sortOrder <= m;
    }
  }

  /** SELECT max(sort_order) ... WHERE property_id = l, "or 0", as a scan. */
  method MaxSortOrder(images: map<ImageId, Image>, l: ListingId) returns (m: int)
    ensures IsTopSortOrder(images, l, m)
  {
    var found: Option<int> := None;
    var todo := images.Keys;
    while todo != {}
      invariant todo <= images.Keys
      invariant found.None? ==> forall id :: id in images && id !in todo ==> images[id].listing != l
      invariant found.Some? ==> exists id :: id in images && images[id].listing == l && images[id].sortOrder == found.value
      invariant found.Some? ==> forall id :: id in images && id !in todo && images[id].listing == l ==>
                  images[id].sortOrder <= found.value
      decreases |todo|
    {
      var id :| id in todo;
      todo := todo - {id};
      if images[id].listing == l {
        if found.None? || images[id].sortOrder > found.value {
          found := Some(images[id].sortOrder);
        }
      }
    }
    m := if found.Some? then found.value else 0;
  }

  // ---------------------------------------------------------------------
  // Reorder
  // ---------------------------------------------------------------------

  /** One element of the reorder body's "order" list: its "id" converted
      with int() (None when missing or not a number) and its "sort_order"
      (None when missing). */
  datatype OrderItem = OrderItem(id: Option<int>, sortOrder: Option<int>)

  /** The JSON body of the reorder request. */
  datatype ReorderBody = NoJson | NoOrderKey | Order(items: seq<OrderItem>)

  /** The session user owns listing l. */
  predicate Owns(listings: map<ListingId, Listing>, user: Option<UserId>, l: ListingId)
  {
    l in listings && user == Some(listings[l].owner)
  }

  /** One pass of the reorder loop: an owned, existing image takes the
      item's sort order; anything else is skipped; a missing key raises, and
      so does an id or (for an owned image) a sort order that the database
      cannot store. */
  function ReorderStep(images: map<ImageId, Image>, listings: map<ListingId, Listing>,
                       user: Option<UserId>, item: OrderItem): Option<map<ImageId, Image>>
  {
    match item.id
    case None => None
    case Some(i) =>
      if !FitsInteger(i) then None
      else if 0 <= i && i in images && Owns(listings, user, images[i].listing) then
        match item.sortOrder
        case None => None
        case Some(s) => if FitsInteger(s) then Some(images[i := images[i].(sortOrder := s)]) else None
      else Some(images)
  }

  /** The body of the reorder loop for one item: look the photo up, and if
      the user owns it, take the item's sort order. None when it raises. */
  method ReorderItem(images: map<ImageId, Image>, listings: map<ListingId, Listing>,
                     user: Option<UserId>, item: OrderItem) returns (r: Option<map<ImageId, Image>>)
    ensures r == ReorderStep(images, listings, user, item)
  {
    if item.id.None? || !FitsInteger(item.id.value) {
      return None;
    }
    var id := item.id.value;
    if 0 <= id && id in images && Owns(listings, user, images[id].listing) {
      if item.sortOrder.None? || !FitsInteger(item.sortOrder.value) {
        return None;
      }
      return Some(images[id := images[id].(sortOrder := item.sortOrder.value)]);
    }
    return Some(images);
  }

  /** The reorder loop: the session's pending sort orders after every item,
      or None as soon as one raises. */
  method PendingOrder(images: map<ImageId, Image>, listings: map<ListingId, Listing>,
                      user: Option<UserId>, items: seq<OrderItem>) returns (r: Option<map<ImageId, Image>>)
    ensures r == ApplyOrder(images, listings, user, items)
  {
    var pending := images;
    var i := 0;
    while i < |items|
      invariant 0 <= i <= |items|
      invariant ApplyOrder(images, listings, user, items[..i]) == Some(pending)
    {
      assert items[..i + 1][..i] == items[..i];
      var next := ReorderItem(pending, listings, user, items[i]);
      if next.None? {
        ApplyOrderPrefixNone(images, listings, user, items, i + 1);
        return None;
      }
      pending := next.value;
      i := i + 1;
    }
    assert items[..i] == items;
    return Some(pending);
  }

  /** The reorder loop over a whole list; None when some item raised, in
      which case the transaction is rolled back. */
  function ApplyOrder(images: map<ImageId, Image>, listings: map<ListingId, Listing>,
                      user: Option<UserId>, items: seq<OrderItem>): Option<map<ImageId, Image>>
  {
    if items == [] then Some(images)
    else
      match ApplyOrder(images, listings, user, items[..|items| - 1])
      case None => None
      case Some(m) => ReorderStep(m, listings, user, items[|items| - 1])
  }

  /** Reordering touches only sort orders, and only of images the user owns
      that some item names. */
  lemma {:induction false} ApplyOrderFrame(images: map<ImageId, Image>, listings: map<ListingId, Listing>,
                                           user: Option<UserId>, items: seq<OrderItem>)
    requires ApplyOrder(images, listings, user, items).Some?
    ensures var m := ApplyOrder(images, listings, user, items).value;
      && m.Keys == images.Keys
      && (forall id :: id in m ==> m[id].(sortOrder := images[id].sortOrder) == images[id])
      && (forall id :: id in m && !Owns(listings, user, images[id].listing) ==> m[id] == images[id])
      && (forall id :: id in m && (forall k :: 0 <= k < |items| ==> items[k].id != Some(id as int)) ==> m[id] == images[id])
  {
    if items != [] {
      var p := items[..|items| - 1];
      ApplyOrderFrame(images, listings, user, p);
      forall id | id in images && (forall k :: 0 <= k < |items| ==> items[k].id != Some(id as int))
        ensures forall k :: 0 <= k < |p| ==> p[k].id != Some(id as int)
      {
        forall k | 0 <= k < |p| ensures p[k].id != Some(id as int) { assert p[k] == items[k]; }
      }
    }
  }

  /** A committed reorder keeps the tables valid. */
  lemma ApplyOrderKeepsTablesValid(users: map<UserId, User>, listings: map<ListingId, Listing>,
                                   images: map<ImageId, Image>, nu: nat, nl: nat, ni: nat,
                                   user: Option<UserId>, items: seq<OrderItem>)
    requires TablesValid(users, listings, images, nu, nl, ni)
    requires ApplyOrder(images, listings, user, items).Some?
    ensures TablesValid(users, listings, ApplyOrder(images, listings, user, items).value, nu, nl, ni)
  {
    var m := ApplyOrder(images, listings, user, items).value;
    ApplyOrderFrame(images, listings, user, items);
    forall id | id in m ensures m[id].listing == images[id].listing && m[id].isPrimary == images[id].isPrimary {
      assert m[id].(sortOrder := images[id].sortOrder) == images[id];
    }
  }

  /** The reorder rolls back exactly when some item has no usable id or an
      id beyond the database's integer range, or names an owned image but has
      no sort order or one beyond that range. */
  lemma {:induction false} ApplyOrderFails(images: map<ImageId, Image>, listings: map<ListingId, Listing>,
                                           user: Option<UserId>, items: seq<OrderItem>)
    ensures ApplyOrder(images, listings, user, items).None? <==>
      exists k :: 0 <= k < |items| && Raises(images, listings, user, items[k])
  {
    if items != [] {
      var p := items[..|items| - 1];
      ApplyOrderFails(images, listings, user, p);
      var r := ApplyOrder(images, listings, user, p);
      if r.Some? {
        ApplyOrderFrame(images, listings, user, p);
        assert Raises(r.value, listings, user, items[|items| - 1])
           <==> Raises(images, listings, user, items[|items| - 1]);
      } else {
        var k :| 0 <= k < |p| && Raises(images, listings, user, p[k]);
        assert items[k] == p[k];
      }
      if exists k :: 0 <= k < |items| && Raises(images, listings, user, items[k]) {
        var k :| 0 <= k < |items| && Raises(images, listings, user, items[k]);
        if k < |p| { assert p[k] == items[k]; }
      }
    }
  }

  /** Item that makes the reorder loop raise. */
  predicate Raises(images: map<ImageId, Image>, listings: map<ListingId, Listing>,
                   user: Option<UserId>, item: OrderItem)
  {
    || item.id.None?
    || !FitsInteger(item.id.value)
    || (0 <= item.id.value && item.id.value in images
        && Owns(listings, user, images[item.id.value].listing)
        && (item.sortOrder.None? || !FitsInteger(item.sortOrder.value)))
  }

  /** With distinct ids, every named image the user owns ends with its
      item's sort order. */
  lemma {:induction false} ApplyOrderSets(images: map<ImageId, Image>, listings: map<ListingId, Listing>,
                                          user: Option<UserId>, items: seq<OrderItem>, k: nat)
    requires ApplyOrder(images, listings, user, items).Some?
    requires forall i, j :: 0 <= i < j < |items| ==> items[i].id != items[j].id
    requires k < |items| && items[k].id.Some? && 0 <= items[k].id.value
    requires items[k].id.value in images && Owns(listings, user, images[items[k].id.value].listing)
    ensures var m := ApplyOrder(images, listings, user, items).value;
      items[k].sortOrder.Some? && FitsInteger(items[k].sortOrder.value) && items[k].id.value in m
      && m[items[k].id.value].sortOrder == items[k].sortOrder.value
  {
    ApplyOrderFrame(images, listings, user, items);
    var p := items[..|items| - 1];
    var prev := ApplyOrder(images, listings, user, p);
    ApplyOrderFrame(images, listings, user, p);
    var last := items[|items| - 1];
    if k == |items| - 1 {
      forall j | 0 <= j < |p| ensures p[j].id != Some(items[k].id.value) {
        assert p[j] == items[j];
      }
    } else {
      assert p[k] == items[k];
      ApplyOrderSets(images, listings, user, p, k);
    }
  }

  /** A prefix that raised leaves the whole list raised. */
  lemma {:induction false} ApplyOrderPrefixNone(images: map<ImageId, Image>, listings: map<ListingId, Listing>,
                                                user: Option<UserId>, items: seq<OrderItem>, i: nat)
    requires i <= |items| && ApplyOrder(images, listings, user, items[..i]).None?
    ensures ApplyOrder(images, listings, user, items).None?
    decreases |items| - i
  {
    if i < |items| {
      assert items[..i + 1][..i] == items[..i];
      ApplyOrderPrefixNone(images, listings, user, items, i + 1);
    } else {
      assert items[..i] == items;
    }
  }

  // ---------------------------------------------------------------------
  // Forms and route outcomes
  // ---------------------------------------------------------------------

  /** The "prijs" form field: missing, empty, not a number, or a number
      (whole numbers stand for the parsed float). */
  datatype PriceField = Missing | Blank | Malformed | Amount(value: int)

  /** The new-listing form; a missing text field reads as "", a missing
      valuta as None. */
  datatype ListingForm = ListingForm(
    titel: string, typeObject: string, status: string, prijs: PriceField,
    district: string, wijk: string, valuta: Option<string>)

  /** The edit form; a missing type, status or valuta keeps the stored one. */
  datatype EditForm = EditForm(
    titel: string, typeObject: Option<string>, status: Option<string>,
    prijs: PriceField, valuta: Option<string>)

  datatype AddResult = NotLoggedIn | MissingFields | InvalidPrice | TooManyPhotos | Created(id: ListingId)

  datatype EditResult =
    | ListingNotFound | Forbidden | MissingTitle | InvalidEditPrice
    | PriceTypeError         // float(None) raises TypeError: an error page
    | TooManyForEdit
    | CommitFailed           // a new photo's sort order does not fit the column: an error page
    | Updated

  datatype DeleteImageResult = ImageNotFound | NotOwner | ImageDeleted(newPrimary: Option<ImageId>)

  datatype SetPrimaryResult = PrimaryImageNotFound | PrimaryNotOwner | PrimarySet(id: ImageId)

  datatype ReorderResult = BadRequest | ReorderFailed | Reordered

  datatype ListingRouteResult = RouteNotFound | RouteForbidden | Done

  datatype RegisterResult = FieldsRequired | PasswordsDiffer | PasswordTooShort | EmailTaken | Registered(id: UserId)

  /** The session holds a truthy user id. */
  predicate LoggedIn(user: Option<UserId>)
  {
    user.Some? && user.value != 0
  }

  /** All required fields of the new-listing form are non-empty. */
  predicate RequiredPresent(form: ListingForm)
  {
    Strip(form.titel) != "" && form.typeObject != "" && form.status != ""
    && !form.prijs.Missing? && !form.prijs.Blank? && Strip(form.district) != ""
  }

  /** A price the routes store: a number that is not negative. */
  predicate PriceAccepted(p: PriceField)
  {
    p.Amount? && p.value >= 0
  }

  function GetOr(o: Option<string>, default: string): string
  {
    if o.Some? then o.value else default
  }

  /** The shape of a stored listing: a stripped title, lower-case type,
      status and district, an upper-case currency and a price that is not
      negative. */
  predicate Normalised(r: Listing)
  {
    && Strip(r.titel) == r.titel
    && Lower(r.typeObject) == r.typeObject
    && Lower(r.status) == r.status
    && Upper(r.valuta) == r.valuta
    && Lower(r.district) == r.district
    && r.prijs >= 0
  }

  /** The default currency is already upper case. */
  lemma DefaultValutaUpper()
    ensures Upper(DefaultValuta) == DefaultValuta
  {
  }

  /** The record a valid new-listing form creates: its fields are stored
      normalised, with "SRD" when no currency is sent. */
  function NewListing(owner: UserId, form: ListingForm): (r: Listing)
    requires PriceAccepted(form.prijs)
    ensures Normalised(r)
    ensures r.owner == owner && r.prijs == form.prijs.value
    ensures form.valuta.None? ==> r.valuta == DefaultValuta
  {
    var district := Filters.ComposeDistrict(Strip(form.district), Strip(form.wijk));
    StripIdempotent(form.titel);
    LowerIdempotent(form.typeObject);
    LowerIdempotent(form.status);
    LowerIdempotent(if Strip(form.wijk) != "" then Strip(form.district) + Filters.Separator + Strip(form.wijk)
                    else Strip(form.district));
    UpperIdempotent(GetOr(form.valuta, DefaultValuta));
    DefaultValutaUpper();
    Listing(owner, Strip(form.titel), Lower(form.typeObject), Lower(form.status), form.prijs.value,
            if form.valuta.None? then DefaultValuta else Upper(form.valuta.value), district)
  }

  /** A form whose fields are already normalised is stored as sent. */
  lemma NewListingKeepsNormalInput(owner: UserId, form: ListingForm)
    requires PriceAccepted(form.prijs)
    requires Strip(form.titel) == form.titel && Lower(form.typeObject) == form.typeObject
    requires Lower(form.status) == form.status
    requires form.valuta.Some? ==> Upper(form.valuta.value) == form.valuta.value
    ensures var r := NewListing(owner, form);
      r.titel == form.titel && r.typeObject == form.typeObject && r.status == form.status
      && r.valuta == GetOr(form.valuta, DefaultValuta)
  {
  }

  /** The stored district splits back into the stripped, lower-cased
      district and wijk the form sent (neither containing '-'). */
  lemma NewListingDistrict(owner: UserId, form: ListingForm)
    requires PriceAccepted(form.prijs)
    requires Filters.NoDash(Strip(form.district)) && Filters.NoDash(Strip(form.wijk))
    ensures Filters.SplitDistrict(NewListing(owner, form).district)
            == if Strip(form.wijk) != "" then [Lower(Strip(form.district)), Lower(Strip(form.wijk))]
               else [Lower(Strip(form.district))]
  {
    Filters.ComposeSplit(Strip(form.district), Strip(form.wijk));
  }

  /** The record after a valid edit: owner and district are kept, the new
      fields are stored normalised, and a type, status or currency the form
      leaves out keeps its stored value. */
  function EditedListing(old_: Listing, form: EditForm): (r: Listing)
    requires PriceAccepted(form.prijs)
    ensures r.owner == old_.owner && r.district == old_.district && r.prijs == form.prijs.value
    ensures Strip(r.titel) == r.titel && Lower(r.typeObject) == r.typeObject
    ensures Lower(r.status) == r.status && Upper(r.valuta) == r.valuta
    ensures Normalised(old_) ==> Normalised(r)
    ensures Normalised(old_) && form.typeObject.None? ==> r.typeObject == old_.typeObject
    ensures Normalised(old_) && form.status.None? ==> r.status == old_.status
    ensures Normalised(old_) && form.valuta.None? ==> r.valuta == old_.valuta
  {
    StripIdempotent(form.titel);
    LowerIdempotent(GetOr(form.typeObject, old_.typeObject));
    LowerIdempotent(GetOr(form.status, old_.status));
    UpperIdempotent(GetOr(form.valuta, old_.valuta));
    old_.(titel := Strip(form.titel),
          typeObject := Lower(GetOr(form.typeObject, old_.typeObject)),
          status := Lower(GetOr(form.status, old_.status)),
          prijs := form.prijs.value,
          valuta := Upper(GetOr(form.valuta, old_.valuta)))
  }

  /** Submitting the same edit form twice stores what the first submit
      stored. */
  lemma EditedListingIdempotent(old_: Listing, form: EditForm)
    requires PriceAccepted(form.prijs)
    ensures EditedListing(EditedListing(old_, form), form) == EditedListing(old_, form)
  {
  }

  /** The edit page's form, prefilled with the stored values. */
  function Prefilled(r: Listing): EditForm
  {
    EditForm(r.titel, Some(r.typeObject), Some(r.status), Amount(r.prijs), Some(r.valuta))
  }

  /** Saving the prefilled edit form unchanged leaves a normalised listing
      as it was. */
  lemma PrefilledRoundTrip(r: Listing)
    requires Normalised(r)
    ensures PriceAccepted(Prefilled(r).prijs)
    ensures EditedListing(r, Prefilled(r)) == r
  {
  }

  /** A new listing survives the prefilled edit form unchanged. */
  lemma NewListingResubmit(owner: UserId, form: ListingForm)
    requires PriceAccepted(form.prijs)
    ensures var r := NewListing(owner, form);
      PriceAccepted(Prefilled(r).prijs) && EditedListing(r, Prefilled(r)) == r
  {
    PrefilledRoundTrip(NewListing(owner, form));
  }

  /** The records an edit appends for the uploaded photos: after the
      listing's highest sort order, primary only when the listing has none. */
  ghost function EditPhotos(images: map<ImageId, Image>, l: ListingId, photos: seq<Upload>): seq<Image>
  {
    SavedImages(ValidPhotos(photos), l, TopSortOrder(images, l) + 1, PrimariesOf(images, l) != {})
  }

  /** A listing whose highest sort order is MaxInteger (a reorder may store
      it) can take no new photo on edit; one whose sort orders fit and leave
      room for every upload position can. */
  lemma EditPhotosFit(images: map<ImageId, Image>, l: ListingId, photos: seq<Upload>)
    ensures ((exists id :: id in ImagesOf(images, l) && images[id].sortOrder == MaxInteger)
             && CountSaved(ValidPhotos(photos)) > 0) ==> !SortOrdersFit(EditPhotos(images, l, photos))
    ensures ((forall id :: id in ImagesOf(images, l) ==> MinInteger <= images[id].sortOrder)
             && TopSortOrder(images, l) + |ValidPhotos(photos)| <= MaxInteger) ==> SortOrdersFit(EditPhotos(images, l, photos))
  {
    SavedImagesFit(ValidPhotos(photos), l, TopSortOrder(images, l) + 1, PrimariesOf(images, l) != {});
  }

  /** Photos appended on edit sort strictly after every photo already there. */
  lemma AppendedAboveExisting(images: map<ImageId, Image>, l: ListingId, top: int,
                              valid: seq<Upload>, taken: bool, k: nat, id: ImageId)
    requires IsTopSortOrder(images, l, top)
    requires k < |SavedImages(valid, l, top + 1, taken)| && id in ImagesOf(images, l)
    ensures images[id].sortOrder < SavedImages(valid, l, top + 1, taken)[k].sortOrder
  {
    SavedImagesShape(valid, l, top + 1, taken);
  }

  /** The relationship of user u's listings: removing u removes them and
      their photos. */
  function CascadeUser(listings: map<ListingId, Listing>, u: UserId): (r: map<ListingId, Listing>)
    ensures forall l :: l in r <==> l in listings && listings[l].owner != u
    ensures forall l :: l in r ==> r[l] == listings[l]
  {
    map l | l in listings && listings[l].owner != u :: listings[l]
  }

  /** The photos whose listing is still present. */
  function CascadeImages(images: map<ImageId, Image>, listings: map<ListingId, Listing>): (r: map<ImageId, Image>)
    ensures forall id :: id in r <==> id in images && images[id].listing in listings
    ensures forall id :: id in r ==> r[id] == images[id]
  {
    map id | id in images && images[id].listing in listings :: images[id]
  }

  /** Some stored user already has this email address. */
  predicate EmailInUse(users: map<UserId, User>, email: string)
  {
    exists u :: u in users && users[u].email == email
  }

  /** The first registration check that fails, on the stripped name and
      email; None when the account can be created. */
  function RegisterRefusal(naam: string, email: string, password: string, confirm: string, inUse: bool): (r: Option<RegisterResult>)
    ensures r.None? <==> naam != "" && email != "" && password != "" && password == confirm && |password| >= 6 && !inUse
    ensures r.Some? ==> !r.value.Registered?
    ensures r == Some(FieldsRequired) <==> naam == "" || email == "" || password == "" || confirm == ""
    ensures r == Some(PasswordsDiffer) <==> naam != "" && email != "" && password != "" && confirm != "" && password != confirm
    ensures r == Some(PasswordTooShort) <==>
      naam != "" && email != "" && password != "" && password == confirm && |password| < 6
    ensures r == Some(EmailTaken) <==>
      naam != "" && email != "" && password != "" && password == confirm && |password| >= 6 && inUse
  {
    if naam == "" || email == "" || password == "" || confirm == "" then Some(FieldsRequired)
    else if password != confirm then Some(PasswordsDiffer)
    else if |password| < 6 then Some(PasswordTooShort)
    else if inUse then Some(EmailTaken)
    else None
  }

  // ---------------------------------------------------------------------
  // The tables
  // ---------------------------------------------------------------------

  ghost predicate TablesValid(users: map<UserId, User>, listings: map<ListingId, Listing>,
                              images: map<ImageId, Image>, nextUserId: nat, nextListingId: nat, nextImageId: nat)
  {
    && (forall id :: id in images ==> id < nextImageId && images[id].listing in listings)
    && (forall l :: l in listings ==> l < nextListingId)
    && (forall u :: u in users ==> 0 < u < nextUserId)
    && 0 < nextUserId
    && EmailsUnique(users)
    && AtMostOnePrimary(images)
  }

  /** The photos after set_primary_image: the listing's flags are cleared in
      bulk, then the chosen photo is flagged. */
  function SinglePrimary(images: map<ImageId, Image>, imageId: ImageId): map<ImageId, Image>
    requires imageId in images
  {
    var l := images[imageId].listing;
    var cleared := map id | id in images :: if images[id].listing == l then images[id].(isPrimary := false) else images[id];
    cleared[imageId := cleared[imageId].(isPrimary := true)]
  }

  /** The chosen photo becomes its listing's only primary, nothing but
      primary flags changes, other listings are untouched, and the tables
      stay valid. */
  lemma SinglePrimaryFacts(users: map<UserId, User>, listings: map<ListingId, Listing>,
                           images: map<ImageId, Image>, nu: nat, nl: nat, ni: nat, imageId: ImageId)
    requires TablesValid(users, listings, images, nu, nl, ni) && imageId in images
    ensures var r := SinglePrimary(images, imageId);
      && TablesValid(users, listings, r, nu, nl, ni)
      && r.Keys == images.Keys
      && PrimariesOf(r, images[imageId].listing) == {imageId}
      && (forall id :: id in r ==> r[id].(isPrimary := images[id].isPrimary) == images[id])
      && (forall id :: id in r && r[id].listing != images[imageId].listing ==> r[id] == images[id])
  {
    var r := SinglePrimary(images, imageId);
    assert PrimariesOf(r, images[imageId].listing) == {imageId};
  }

  /** Inserting a photo under a fresh id keeps the tables valid, provided a
      primary photo goes to a listing that has none. */
  lemma InsertImageValid(users: map<UserId, User>, listings: map<ListingId, Listing>,
                         images: map<ImageId, Image>, nu: nat, nl: nat, ni: nat, img: Image)
    requires TablesValid(users, listings, images, nu, nl, ni)
    requires img.listing in listings
    requires img.isPrimary ==> NoPrimary(images, img.listing)
    ensures TablesValid(users, listings, images[ni := img], nu, nl, ni + 1)
  {
  }

  /** Listing l has no primary photo. */
  ghost predicate NoPrimary(images: map<ImageId, Image>, l: ListingId)
  {
    forall id :: id in images && images[id].listing == l ==> !images[id].isPrimary
  }

  lemma NoPrimaryIff(images: map<ImageId, Image>, l: ListingId)
    ensures NoPrimary(images, l) <==> PrimariesOf(images, l) == {}
  {
    if !NoPrimary(images, l) {
      var id :| id in images && images[id].listing == l && images[id].isPrimary;
      assert id in PrimariesOf(images, l);
    }
  }

  /** The state of the upload loop after idx uploads: added holds the
      committed photos plus the records saved so far under consecutive ids,
      and hasPrimary tells whether the listing has a primary photo yet. */
  ghost predicate SaveProgress(users: map<UserId, User>, listings: map<ListingId, Listing>,
                               images: map<ImageId, Image>, nu: nat, nl: nat, ni: nat,
                               l: ListingId, valid: seq<Upload>, base: int, taken: bool,
                               idx: nat, added: map<ImageId, Image>, nextId: nat, hasPrimary: bool, saved: seq<Image>)
  {
    && idx <= |valid|
    && saved == SavedImages(valid[..idx], l, base, taken)
    && nextId == ni + |saved|
    && added == images + Placed(saved, ni)
    && (hasPrimary <==> taken || saved != [])
    && (!hasPrimary ==> NoPrimary(added, l))
    && TablesValid(users, listings, added, nu, nl, nextId)
  }

  /** One pass of the upload loop keeps SaveProgress. */
  lemma SaveStep(users: map<UserId, User>, listings: map<ListingId, Listing>,
                 images: map<ImageId, Image>, nu: nat, nl: nat, ni: nat,
                 l: ListingId, valid: seq<Upload>, base: int, taken: bool,
                 idx: nat, added: map<ImageId, Image>, nextId: nat, hasPrimary: bool, saved: seq<Image>)
    requires SaveProgress(users, listings, images, nu, nl, ni, l, valid, base, taken, idx, added, nextId, hasPrimary, saved)
    requires idx < |valid| && l in listings
    requires TablesValid(users, listings, images, nu, nl, ni)
    ensures var img := Image(l, !hasPrimary, base + idx);
      if valid[idx].saves then
        SaveProgress(users, listings, images, nu, nl, ni, l, valid, base, taken,
                     idx + 1, added[nextId := img], nextId + 1, true, saved + [img])
      else
        SaveProgress(users, listings, images, nu, nl, ni, l, valid, base, taken,
                     idx + 1, added, nextId, hasPrimary, saved)
  {
    SavedImagesStep(valid, idx, l, base, taken);
    if valid[idx].saves {
      var img := Image(l, !hasPrimary, base + idx);
      PlacedSnoc(saved, img, ni);
      UnionUpdate(images, Placed(saved, ni), nextId, img);
      InsertImageValid(users, listings, added, nu, nl, nextId, img);
    }
  }

  /** One more upload extends the saved records by at most one. */
  lemma SavedImagesStep(valid: seq<Upload>, idx: nat, l: ListingId, base: int, taken: bool)
    requires idx < |valid|
    ensures var prev := SavedImages(valid[..idx], l, base, taken);
      SavedImages(valid[..idx + 1], l, base, taken)
      == if valid[idx].saves then prev + [Image(l, !(taken || prev != []), base + idx)] else prev
  {
    assert valid[..idx + 1][..idx] == valid[..idx];
  }

  lemma UnionUpdate(a: map<ImageId, Image>, p: map<ImageId, Image>, k: ImageId, v: Image)
    requires k !in a
    ensures (a + p)[k := v] == a + p[k := v]
  {
  }

  /** The user, property and property_images tables. Ids come from
      counters, so a new row's id is always fresh. */
  class Site {
    var users: map<UserId, User>
    var listings: map<ListingId, Listing>
    var images: map<ImageId, Image>
    var nextUserId: nat
    var nextListingId: nat
    var nextImageId: nat

    /** Every photo belongs to a stored listing, ids are below their
        counters, emails are unique and no listing has two primaries. */
    ghost predicate Valid()
      reads this
    {
      TablesValid(users, listings, images, nextUserId, nextListingId, nextImageId)
    }

    constructor ()
      ensures Valid()
      ensures users == map[] && listings == map[] && images == map[]
    {
      users, listings, images := map[], map[], map[];
      nextUserId, nextListingId, nextImageId := 1, 1, 1;
    }

    /** POST /add_property. */
    method AddListing(user: Option<UserId>, form: ListingForm, photos: seq<Upload>) returns (res: AddResult)
      requires Valid()
      modifies this
      ensures Valid()
      ensures users == old(users)
      ensures !LoggedIn(user) ==> res == NotLoggedIn
      ensures LoggedIn(user) && !RequiredPresent(form) ==> res == MissingFields
      ensures LoggedIn(user) && RequiredPresent(form) && !PriceAccepted(form.prijs) ==> res == InvalidPrice
      ensures (LoggedIn(user) && RequiredPresent(form) && PriceAccepted(form.prijs)
               && |ValidPhotos(photos)| > MaxPhotosPerProperty) ==> res == TooManyPhotos
      ensures !res.Created? ==> listings == old(listings) && images == old(images)
      ensures res.Created? ==>
        && LoggedIn(user) && RequiredPresent(form) && PriceAccepted(form.prijs)
        && |ValidPhotos(photos)| <= MaxPhotosPerProperty
        && res.id !in old(listings)
        && listings == old(listings)[res.id := NewListing(user.value, form)]
        && images == old(images) + Placed(SavedImages(ValidPhotos(photos), res.id, 0, false), old(nextImageId))
    {
      if !LoggedIn(user) { return NotLoggedIn; }
      if !RequiredPresent(form) { return MissingFields; }
      if !PriceAccepted(form.prijs) { return InvalidPrice; }
      var l := nextListingId;
      nextListingId := nextListingId + 1;
      var rec := NewListing(user.value, form);
      var valid := ValidPhotos(photos);
      if |valid| > MaxPhotosPerProperty {
        // The listing is committed, then deleted again.
        return TooManyPhotos;
      }
      listings := listings[l := rec];
      SavePhotos(l, valid, 0, false);
      return Created(l);
    }

    /** The upload loop shared by the new-listing and edit routes: each
        upload that saves becomes a record of listing l, at the sort order
        base + its position, primary while no primary exists yet. */
    method SavePhotos(l: ListingId, valid: seq<Upload>, base: int, taken: bool)
      requires Valid() && l in listings
      requires taken <==> PrimariesOf(images, l) != {}
      modifies this
      ensures Valid()
      ensures users == old(users) && listings == old(listings)
      ensures nextUserId == old(nextUserId) && nextListingId == old(nextListingId)
      ensures images == old(images) + Placed(SavedImages(valid, l, base, taken), old(nextImageId))
    {
      // The records are added to the session one by one and committed together.
      var added, nextId := images, nextImageId;
      NoPrimaryIff(images, l);
      var hasPrimary := taken;
      ghost var saved: seq<Image> := [];
      var idx := 0;
      while idx < |valid|
        invariant SaveProgress(users, listings, images, nextUserId, nextListingId, nextImageId,
                               l, valid, base, taken, idx, added, nextId, hasPrimary, saved)
        modifies {}
      {
        SaveStep(users, listings, images, nextUserId, nextListingId, nextImageId,
                 l, valid, base, taken, idx, added, nextId, hasPrimary, saved);
        if valid[idx].saves {
          var img := Image(l, !hasPrimary, base + idx);
          added := added[nextId := img];
          nextId := nextId + 1;
          hasPrimary := true;
          saved := saved + [img];
        }
        idx := idx + 1;
      }
      assert valid[..idx] == valid;
      images, nextImageId := added, nextId;
    }

    /** POST /property/<id>/edit. */
    method EditListing(user: Option<UserId>, l: ListingId, form: EditForm, photos: seq<Upload>) returns (res: EditResult)
      requires Valid()
      modifies this
      ensures Valid()
      ensures users == old(users)
      ensures l !in old(listings) ==> res == ListingNotFound
      ensures l in old(listings) && !Owns(old(listings), user, l) ==> res == Forbidden
      ensures Owns(old(listings), user, l) && Strip(form.titel) == "" ==> res == MissingTitle
      ensures Owns(old(listings), user, l) && Strip(form.titel) != "" && form.prijs.Missing? ==> res == PriceTypeError
      ensures (Owns(old(listings), user, l) && Strip(form.titel) != "" && !form.prijs.Missing?
               && !PriceAccepted(form.prijs)) ==> res == InvalidEditPrice
      ensures (Owns(old(listings), user, l) && Strip(form.titel) != "" && PriceAccepted(form.prijs)
               && |ImagesOf(old(images), l)| + |ValidPhotos(photos)| > MaxPhotosPerProperty) ==> res == TooManyForEdit
      ensures (Owns(old(listings), user, l) && Strip(form.titel) != "" && PriceAccepted(form.prijs)
               && |ImagesOf(old(images), l)| + |ValidPhotos(photos)| <= MaxPhotosPerProperty
               && !SortOrdersFit(EditPhotos(old(images), l, photos))) ==> res == CommitFailed
      ensures res != Updated ==> listings == old(listings) && images == old(images)
      ensures res == Updated ==>
        && Owns(old(listings), user, l) && Strip(form.titel) != "" && PriceAccepted(form.prijs)
        && |ImagesOf(old(images), l)| + |ValidPhotos(photos)| <= MaxPhotosPerProperty
        && SortOrdersFit(EditPhotos(old(images), l, photos))
        && listings == old(listings)[l := EditedListing(old(listings)[l], form)]
        && images == old(images) + Placed(EditPhotos(old(images), l, photos), old(nextImageId))
    {
      if l !in listings { return ListingNotFound; }
      if !Owns(listings, user, l) { return Forbidden; }
      if Strip(form.titel) == "" { return MissingTitle; }
      if form.prijs.Missing? { return PriceTypeError; }
      if !PriceAccepted(form.prijs) { return InvalidEditPrice; }
      var rec := EditedListing(listings[l], form);
      var existing := |ImagesOf(images, l)|;
      var valid := ValidPhotos(photos);
      if existing + |valid| > MaxPhotosPerProperty {
        // The assigned fields are never committed.
        return TooManyForEdit;
      }
      var top := MaxSortOrder(images, l);
      TopSortOrderUnique(images, l, top);
      if !SortOrdersFit(SavedImages(valid, l, top + 1, PrimariesOf(images, l) != {})) {
        // The commit raises and the session is rolled back.
        return CommitFailed;
      }
      ApplyEdit(l, rec, valid);
      return Updated;
    }

    /** The committed part of a valid edit: the new field values, then the
        new photos after the current highest sort order. */
    method ApplyEdit(l: ListingId, rec: Listing, valid: seq<Upload>)
      requires Valid() && l in listings
      modifies this
      ensures Valid()
      ensures users == old(users) && listings == old(listings)[l := rec]
      ensures images == old(images) + Placed(SavedImages(valid, l, TopSortOrder(old(images), l) + 1,
                                                         PrimariesOf(old(images), l) != {}),
                                             old(nextImageId))
    {
      var taken := PrimariesOf(images, l) != {};
      var top := MaxSortOrder(images, l);
      TopSortOrderUnique(images, l, top);
      listings := listings[l := rec];
      SavePhotos(l, valid, top + 1, taken);
    }

    /** POST /property/image/<id>/delete. */
    method DeleteImage(user: Option<UserId>, imageId: ImageId) returns (res: DeleteImageResult)
      requires Valid()
      modifies this
      ensures Valid()
      ensures users == old(users) && listings == old(listings)
      ensures imageId !in old(images) ==> res == ImageNotFound
      ensures imageId in old(images) && !Owns(old(listings), user, old(images)[imageId].listing) ==> res == NotOwner
      ensures !res.ImageDeleted? ==> images == old(images)
      ensures res.ImageDeleted? ==>
        imageId in old(images) && Owns(old(listings), user, old(images)[imageId].listing) &&
        var l := old(images)[imageId].listing;
        var rest := old(images) - {imageId};
        if !old(images)[imageId].isPrimary then
          res.newPrimary == None && images == rest
        else if ImagesOf(rest, l) == {} then
          res.newPrimary == None && images == rest
        else
          res.newPrimary.Some? && res.newPrimary.value in ImagesOf(rest, l)
          && LowestSortOrder(rest, l, res.newPrimary.value)
          && images == rest[res.newPrimary.value := rest[res.newPrimary.value].(isPrimary := true)]
    {
      if imageId !in images { return ImageNotFound; }
      var img := images[imageId];
      if !Owns(listings, user, img.listing) { return NotOwner; }
      images := images - {imageId};
      if !img.isPrimary { return ImageDeleted(None); }
      var next := FirstBySortOrder(images, img.listing);
      if next.Some? {
        assert forall id :: id in images && images[id].listing == img.listing ==> !images[id].isPrimary;
        images := images[next.value := images[next.value].(isPrimary := true)];
      }
      return ImageDeleted(next);
    }

    /** POST /property/image/<id>/set-primary. */
    method SetPrimary(user: Option<UserId>, imageId: ImageId) returns (res: SetPrimaryResult)
      requires Valid()
      modifies this
      ensures Valid()
      ensures users == old(users) && listings == old(listings)
      ensures imageId !in old(images) ==> res == PrimaryImageNotFound
      ensures imageId in old(images) && !Owns(old(listings), user, old(images)[imageId].listing) ==> res == PrimaryNotOwner
      ensures !res.PrimarySet? ==> images == old(images)
      ensures res.PrimarySet? ==>
        && res.id == imageId && imageId in old(images)
        && Owns(old(listings), user, old(images)[imageId].listing)
        && images.Keys == old(images).Keys
        && PrimariesOf(images, old(images)[imageId].listing) == {imageId}
        && (forall id :: id in images ==> images[id].(isPrimary := old(images)[id].isPrimary) == old(images)[id])
        && (forall id :: id in images && images[id].listing != old(images)[imageId].listing ==> images[id] == old(images)[id])
    {
      if imageId !in images { return PrimaryImageNotFound; }
      var l := images[imageId].listing;
      if !Owns(listings, user, l) { return PrimaryNotOwner; }
      SinglePrimaryFacts(users, listings, images, nextUserId, nextListingId, nextImageId, imageId);
      images := SinglePrimary(images, imageId);
      return PrimarySet(imageId);
    }

    /** POST /property/image/reorder. */
    method Reorder(user: Option<UserId>, body: ReorderBody) returns (res: ReorderResult)
      requires Valid()
      modifies this
      ensures Valid()
      ensures users == old(users) && listings == old(listings)
      ensures !body.Order? ==> res == BadRequest && images == old(images)
      ensures body.Order? && ApplyOrder(old(images), listings, user, body.items).None? ==>
                res == ReorderFailed && images == old(images)
      ensures body.Order? && ApplyOrder(old(images), listings, user, body.items).Some? ==>
                res == Reordered && images == ApplyOrder(old(images), listings, user, body.items).value
    {
      if !body.Order? { return BadRequest; }
      var items := body.items;
      var pending := PendingOrder(images, listings, user, items);
      if pending.None? {
        // The session is rolled back.
        return ReorderFailed;
      }
      ApplyOrderKeepsTablesValid(users, listings, images, nextUserId, nextListingId, nextImageId, user, items);
      images := pending.value;
      return Reordered;
    }

    /** POST /property/<id>/toggle_status. */
    method ToggleListingStatus(user: Option<UserId>, l: ListingId) returns (res: ListingRouteResult)
      requires Valid()
      modifies this
      ensures Valid()
      ensures users == old(users) && images == old(images)
      ensures l !in old(listings) ==> res == RouteNotFound
      ensures l in old(listings) && !Owns(old(listings), user, l) ==> res == RouteForbidden
      ensures res != Done ==> listings == old(listings)
      ensures res == Done ==>
        && Owns(old(listings), user, l)
        && listings == old(listings)[l := old(listings)[l].(status := Filters.ToggleStatus(old(listings)[l].status))]
    {
      if l !in listings { return RouteNotFound; }
      if !Owns(listings, user, l) { return RouteForbidden; }
      listings := listings[l := listings[l].(status := Filters.ToggleStatus(listings[l].status))];
      return Done;
    }

    /** POST /property/<id>/delete: the listing goes, and its photos with it. */
    method DeleteListing(user: Option<UserId>, l: ListingId) returns (res: ListingRouteResult)
      requires Valid()
      modifies this
      ensures Valid()
      ensures users == old(users)
      ensures l !in old(listings) ==> res == RouteNotFound
      ensures l in old(listings) && !Owns(old(listings), user, l) ==> res == RouteForbidden
      ensures res != Done ==> listings == old(listings) && images == old(images)
      ensures res == Done ==>
        && Owns(old(listings), user, l)
        && listings == old(listings) - {l}
        && images == CascadeImages(old(images), listings)
    {
      if l !in listings { return RouteNotFound; }
      if !Owns(listings, user, l) { return RouteForbidden; }
      listings := listings - {l};
      images := CascadeImages(images, listings);
      return Done;
    }

    /** Deleting a user row: its listings and their photos go with it. */
    method DeleteUser(u: UserId)
      requires Valid()
      modifies this
      ensures Valid()
      ensures users == old(users) - {u}
      ensures listings == CascadeUser(old(listings), u)
      ensures images == CascadeImages(old(images), listings)
    {
      users := users - {u};
      listings := CascadeUser(listings, u);
      images := CascadeImages(images, listings);
    }

    /** POST /register. */
    method Register(naam: string, email: string, password: string, confirm: string) returns (res: RegisterResult)
      requires Valid()
      modifies this
      ensures Valid()
      ensures listings == old(listings) && images == old(images)
      ensures var refused := RegisterRefusal(Strip(naam), Strip(email), password, confirm, EmailInUse(old(users), Strip(email)));
        && (refused.Some? ==> res == refused.value && users == old(users))
        && (refused.None? ==>
              && res.Registered? && res.id !in old(users) && res.id != 0
              && users == old(users)[res.id := User(Strip(naam), Strip(email))])
    {
      var n, e := Strip(naam), Strip(email);
      var refused := RegisterRefusal(n, e, password, confirm, EmailInUse(users, e));
      if refused.Some? { return refused.value; }
      var id := nextUserId;
      users := users[id := User(n, e)];
      nextUserId := nextUserId + 1;
      return Registered(id);
    }
  }
}
