/** The records of the listing site (users, listings, listing photos) and the
    order in which a listing's photos are read back. */
module Models {

  type UserId = nat
  type ListingId = nat
  type ImageId = nat

  /** Upper bound on a listing's photos. */
  const MaxPhotosPerProperty: nat := 10

  /** The range of an SQLite INTEGER column: the database driver refuses to
      bind an integer outside it, and the statement raises. */
  const MinInteger: int := -0x8000_0000_0000_0000
  const MaxInteger: int := 0x7FFF_FFFF_FFFF_FFFF

  predicate FitsInteger(x: int)
  {
    MinInteger <= x <= MaxInteger
  }

  /** Currency a listing gets when the form sends none. */
  const DefaultValuta: string := "SRD"

  datatype User = User(naam: string, email: string)

  /** A Property row, without its descriptive and floating-point columns. */
  datatype Listing = Listing(
    owner: UserId,
    titel: string,
    typeObject: string,
    status: string,
    prijs: int,
    valuta: string,
    district: string)

  /** A PropertyImage row, without its file path. */
  datatype Image = Image(listing: ListingId, isPrimary: bool, sortOrder: int)

  /** No two users share an email address. */
  ghost predicate EmailsUnique(users: map<UserId, User>)
  {
    forall a, b :: (a in users && b in users && users[a].email == users[b].email) ==> a == b
  }

  /** The photos that belong to listing l. */
  function ImagesOf(images: map<ImageId, Image>, l: ListingId): (r: set<ImageId>)
    ensures forall id :: id in r <==> id in images && images[id].listing == l
  {
    set id | id in images && images[id].listing == l
  }

  /** The photos of listing l that carry the primary flag. */
  function PrimariesOf(images: map<ImageId, Image>, l: ListingId): (r: set<ImageId>)
    ensures forall id :: id in r <==> id in images && images[id].listing == l && images[id].isPrimary
  {
    set id | id in images && images[id].listing == l && images[id].isPrimary
  }

  /** No listing has two primary photos. */
  ghost predicate AtMostOnePrimary(images: map<ImageId, Image>)
  {
    forall a, b ::
      (a in images && b in images && images[a].isPrimary && images[b].isPrimary
       && images[a].listing == images[b].listing) ==> a == b
  }

  lemma AtMostOnePrimaryCount(images: map<ImageId, Image>, l: ListingId)
    requires AtMostOnePrimary(images)
    ensures |PrimariesOf(images, l)| <= 1
  {
    var p := PrimariesOf(images, l);
    if p != {} {
      var a :| a in p;
      assert p == {a};
    }
  }

  // ---------------------------------------------------------------------
  // The order of Property.images: primary first, then ascending
  // sort_order, then ascending id.
  // ---------------------------------------------------------------------

  /** Photo a comes before photo b in the relationship's order. */
  predicate Before(images: map<ImageId, Image>, a: ImageId, b: ImageId)
  {
    a in images && b in images &&
    var x, y := images[a], images[b];
    (x.isPrimary && !y.isPrimary)
    || (x.isPrimary == y.isPrimary
        && (x.sortOrder < y.sortOrder || (x.sortOrder == y.sortOrder && a < b)))
  }

  /** Because the id breaks every tie, Before is a strict total order on the
      photos. */
  lemma BeforeIsStrictTotalOrder(images: map<ImageId, Image>)
    ensures forall a :: !Before(images, a, a)
    ensures forall a, b :: Before(images, a, b) ==> !Before(images, b, a)
    ensures forall a, b, c :: Before(images, a, b) && Before(images, b, c) ==> Before(images, a, c)
    ensures forall a, b :: a in images && b in images && a != b ==> Before(images, a, b) || Before(images, b, a)
  {
  }

  /** ids lists exactly the photos of listing l, each once, in the
      relationship's order. */
  ghost predicate InRelationshipOrder(images: map<ImageId, Image>, l: ListingId, ids: seq<ImageId>)
  {
    && (forall i, j :: 0 <= i < j < |ids| ==> Before(images, ids[i], ids[j]))
    && (forall i :: 0 <= i < |ids| ==> ids[i] in images && images[ids[i]].listing == l)
    && (forall id :: id in images && images[id].listing == l ==> id in ids)
  }

  /** The relationship's order is fully determined: two lists in that order
      over the same photos are equal. */
  lemma {:induction false} RelationshipOrderUnique(
    images: map<ImageId, Image>, l: ListingId, s: seq<ImageId>, t: seq<ImageId>)
    requires InRelationshipOrder(images, l, s) && InRelationshipOrder(images, l, t)
    ensures s == t
  {
    SortedSameElementsEqual(images, s, t);
  }

  /** The head of a sorted list comes before every other element of it. */
  lemma HeadLeast(images: map<ImageId, Image>, s: seq<ImageId>, x: ImageId)
    requires forall i, j :: 0 <= i < j < |s| ==> Before(images, s[i], s[j])
    requires x in s
    ensures x == s[0] || Before(images, s[0], x)
  {
    var k :| 0 <= k < |s| && s[k] == x;
    if k > 0 { assert Before(images, s[0], s[k]); }
  }

  lemma EmptyTogether(s: seq<ImageId>, t: seq<ImageId>)
    requires forall x :: x in s <==> x in t
    ensures s == [] <==> t == []
  {
    if s != [] { assert s[0] in t; }
    if t != [] { assert t[0] in s; }
  }

  lemma {:induction false} SortedSameElementsEqual(images: map<ImageId, Image>, s: seq<ImageId>, t: seq<ImageId>)
    requires forall i, j :: 0 <= i < j < |s| ==> Before(images, s[i], s[j])
    requires forall i, j :: 0 <= i < j < |t| ==> Before(images, t[i], t[j])
    requires forall x :: x in s <==> x in t
    ensures s == t
    decreases |s| + |t|
  {
    EmptyTogether(s, t);
    if s != [] {
      HeadLeast(images, s, t[0]);
      HeadLeast(images, t, s[0]);
      assert s[0] == t[0];
      assert s == [s[0]] + s[1..] && t == [t[0]] + t[1..];
      forall x ensures x in s[1..] <==> x in t[1..] {
        if x in s[1..] {
          var i :| 0 <= i < |s[1..]| && s[1..][i] == x;
          assert s[i + 1] == x;
          assert Before(images, s[0], x);
          assert x in t && x != t[0];
        }
        if x in t[1..] {
          var i :| 0 <= i < |t[1..]| && t[1..][i] == x;
          assert t[i + 1] == x;
          assert Before(images, t[0], x);
          assert x in s && x != s[0];
        }
      }
      SortedSameElementsEqual(images, s[1..], t[1..]);
    }
  }

  /** When a listing has a primary photo, the relationship lists it first. */
  lemma {:induction false} PrimaryComesFirst(
    images: map<ImageId, Image>, l: ListingId, ids: seq<ImageId>, p: ImageId)
    requires InRelationshipOrder(images, l, ids)
    requires AtMostOnePrimary(images)
    requires p in PrimariesOf(images, l)
    ensures |ids| > 0 && ids[0] == p
  {
    HeadLeast(images, ids, p);
    assert images[ids[0]].isPrimary && images[ids[0]].listing == l;
  }
}
