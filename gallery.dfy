/** The photo gallery of a listing's detail page: the main photo, the row
    of thumbnails, keyboard navigation along the row and touch swipes on
    the main photo. */
module Gallery {
  import opened Wrappers

  /** One .thumbnail image; alt is None when the attribute is absent. */
  datatype Thumb = Thumb(src: string, alt: Option<string>, active: bool, ariaSelected: bool)

  /** The #mainPhoto image. */
  datatype MainPhoto = MainPhoto(src: string, alt: string)

  /** What a key pressed on a thumbnail does. */
  datatype KeyEffect = Focus(index: nat) | Activate | Ignore

  const DefaultAlt: string := "Property photo"

  /** Pixels a touch has to travel to count as a swipe. */
  const SwipeThreshold: int := 50

  /** The alt text the main photo takes over; an empty alt is falsy too. */
  function AltOf(t: Thumb): (r: string)
    ensures r != []
    ensures t.alt.Some? && t.alt.value != [] ==> r == t.alt.value
  {
    if t.alt.Some? && t.alt.value != [] then t.alt.value else DefaultAlt
  }

  /** The thumbnails once el is the selected one. */
  function Selected(thumbs: seq<Thumb>, el: nat): (r: seq<Thumb>)
    requires el < |thumbs|
    ensures |r| == |thumbs|
  {
    seq(|thumbs|, j requires 0 <= j < |thumbs| => thumbs[j].(active := j == el, ariaSelected := j == el))
  }

  /** Exactly el is active and aria-selected; sources and alts are kept, and
      selecting the same thumbnail again changes nothing. */
  lemma SelectedExactlyOne(thumbs: seq<Thumb>, el: nat)
    requires el < |thumbs|
    ensures var r := Selected(thumbs, el);
      && (forall j :: 0 <= j < |r| ==> (r[j].active <==> j == el) && (r[j].ariaSelected <==> j == el))
      && (forall j :: 0 <= j < |r| ==> r[j].src == thumbs[j].src && r[j].alt == thumbs[j].alt)
      && Selected(r, el) == r
  {
  }

  /** The keydown switch for the thumbnail at index i of n. */
  function KeyDown(i: nat, n: nat, key: string): (r: KeyEffect)
    requires i < n
    ensures r.Focus? ==> r.index < n
    ensures (key == "Enter" || key == " ") <==> r.Activate?
    ensures r.Ignore? <==> key !in {"ArrowRight", "ArrowLeft", "Home", "End", "Enter", " "}
  {
    if key == "ArrowRight" then Focus((i + 1) % n)
    else if key == "ArrowLeft" then Focus((i - 1 + n) % n)
    else if key == "Home" then Focus(0)
    else if key == "End" then Focus(n - 1)
    else if key == "Enter" || key == " " then Activate
    else Ignore
  }

  /** Home and End jump to the ends; the arrows step to the neighbour and
      wrap around at either end. */
  lemma KeyDownTargets(i: nat, n: nat)
    requires i < n
    ensures KeyDown(i, n, "Home") == Focus(0)
    ensures KeyDown(i, n, "End") == Focus(n - 1)
    ensures KeyDown(i, n, "ArrowRight") == Focus(if i + 1 == n then 0 else i + 1)
    ensures KeyDown(i, n, "ArrowLeft") == Focus(if i == 0 then n - 1 else i - 1)
  {
    if i + 1 == n { WrapOnce(i + 1, n); } else { BelowModulus(i + 1, n); }
    if i == 0 { BelowModulus(n - 1, n); } else { WrapOnce(i - 1 + n, n); }
  }

  lemma BelowModulus(a: nat, n: nat)
    requires a < n
    ensures a % n == a
  {
  }

  lemma WrapOnce(a: nat, n: nat)
    requires n <= a < 2 * n
    ensures a % n == a - n
  {
  }

  /** ArrowRight then ArrowLeft, or the other way round, returns to i. */
  lemma KeyDownRightLeft(i: nat, n: nat)
    requires i < n
    ensures KeyDown(KeyDown(i, n, "ArrowRight").index, n, "ArrowLeft") == Focus(i)
    ensures KeyDown(KeyDown(i, n, "ArrowLeft").index, n, "ArrowRight") == Focus(i)
  {
    KeyDownTargets(i, n);
    var r := if i + 1 == n then 0 else i + 1;
    var l := if i == 0 then n - 1 else i - 1;
    KeyDownTargets(r, n);
    KeyDownTargets(l, n);
  }

  /** Where k presses of ArrowRight from i lead. */
  function RightPresses(i: nat, n: nat, k: nat): (r: nat)
    requires i < n
    ensures r < n
  {
    if k == 0 then i else KeyDown(RightPresses(i, n, k - 1), n, "ArrowRight").index
  }

  /** ArrowRight walks the row cyclically: k presses (k <= n) move k places
      modulo n, so n presses come back to the start. */
  lemma {:induction false} RightPressesCycle(i: nat, n: nat, k: nat)
    requires i < n && k <= n
    ensures RightPresses(i, n, k) == (i + k) % n
    ensures RightPresses(i, n, k) == if i + k < n then i + k else i + k - n
  {
    if k > 0 {
      RightPressesCycle(i, n, k - 1);
      KeyDownTargets(RightPresses(i, n, k - 1), n);
    }
    if i + k < n { BelowModulus(i + k, n); } else { WrapOnce(i + k, n); }
  }

  /** The thumbnail a touch from start to end selects, given the index of the
      active thumbnail (None when none is active) among n thumbnails. */
  function SwipeTarget(start: int, end: int, active: Option<nat>, n: nat): (r: Option<nat>)
    requires active.Some? ==> active.value < n
    ensures r.Some? ==> r.value < n
    ensures -SwipeThreshold < start - end < SwipeThreshold ==> r.None?
    ensures active.None? ==> r.None?
    ensures (start - end >= SwipeThreshold || start - end <= -SwipeThreshold) && active.Some? ==> r.Some?
  {
    var diff := start - end;
    if -SwipeThreshold < diff < SwipeThreshold then None
    else if active.None? || n == 0 then None
    else if diff > 0 then Some((active.value + 1) % n)
    else Some((active.value - 1 + n) % n)
  }

  /** A swipe to the left shows the next photo, a swipe to the right the
      previous one, cyclically, exactly as the arrow keys do. */
  lemma SwipeLikeArrows(start: int, end: int, a: nat, n: nat)
    requires a < n
    ensures start - end >= SwipeThreshold ==>
      SwipeTarget(start, end, Some(a), n) == Some(KeyDown(a, n, "ArrowRight").index)
    ensures start - end <= -SwipeThreshold ==>
      SwipeTarget(start, end, Some(a), n) == Some(KeyDown(a, n, "ArrowLeft").index)
  {
  }

  lemma SwipeThresholdExample()
    ensures SwipeTarget(100, 50, Some(0), 3) == Some(1)
    ensures SwipeTarget(100, 51, Some(0), 3) == None
    ensures SwipeTarget(50, 100, Some(0), 3) == Some(2)
  {
  }

  /** document.querySelector(".thumbnail.active") as an index. */
  method FirstActive(thumbs: seq<Thumb>) returns (r: Option<nat>)
    ensures r.None? <==> forall j :: 0 <= j < |thumbs| ==> !thumbs[j].active
    ensures r.Some? ==>
      && r.value < |thumbs| && thumbs[r.value].active
      && forall j :: 0 <= j < r.value ==> !thumbs[j].active
  {
    var i := 0;
    while i < |thumbs|
      invariant 0 <= i <= |thumbs|
      invariant forall j :: 0 <= j < i ==> !thumbs[j].active
    {
      if thumbs[i].active { return Some(i); }
      i := i + 1;
    }
    return None;
  }

  class Page {
    /** The #mainPhoto element, None when the page has none. */
    var main: Option<MainPhoto>
    var thumbs: seq<Thumb>
    var touchStartX: int
    var touchEndX: int

    constructor (main0: Option<MainPhoto>, thumbs0: seq<Thumb>)
      ensures main == main0 && thumbs == thumbs0 && touchStartX == 0 && touchEndX == 0
    {
      main := main0;
      thumbs := thumbs0;
      touchStartX := 0;
      touchEndX := 0;
    }

    /** changePhoto(el), el being a thumbnail's index or null. */
    method ChangePhoto(el: Option<nat>)
      requires el.Some? ==> el.value < |thumbs|
      modifies this
      ensures touchStartX == old(touchStartX) && touchEndX == old(touchEndX)
      ensures old(main).None? || el.None? ==> main == old(main) && thumbs == old(thumbs)
      ensures old(main).Some? && el.Some? ==>
        && main == Some(MainPhoto(old(thumbs)[el.value].src, AltOf(old(thumbs)[el.value])))
        && thumbs == Selected(old(thumbs), el.value)
    {
      if main.None? || el.None? {
        return;
      }
      var e := el.value;
      main := Some(MainPhoto(thumbs[e].src, AltOf(thumbs[e])));
      var t := thumbs;
      var j := 0;
      while j < |t|
        invariant 0 <= j <= |t| && |t| == |thumbs|
        invariant forall i :: 0 <= i < j ==> t[i] == thumbs[i].(active := false, ariaSelected := false)
        invariant forall i :: j <= i < |t| ==> t[i] == thumbs[i]
      {
        t := t[j := t[j].(active := false, ariaSelected := false)];
        j := j + 1;
      }
      t := t[e := t[e].(active := true, ariaSelected := true)];
      thumbs := t;
    }

    /** keydown on the thumbnail at index i; returns the index to focus. */
    method KeyPressed(i: nat, key: string) returns (focus: Option<nat>)
      requires i < |thumbs|
      modifies this
      ensures touchStartX == old(touchStartX) && touchEndX == old(touchEndX)
      ensures KeyDown(i, |old(thumbs)|, key).Focus? ==>
        focus == Some(KeyDown(i, |old(thumbs)|, key).index) && main == old(main) && thumbs == old(thumbs)
      ensures KeyDown(i, |old(thumbs)|, key).Ignore? ==>
        focus == None && main == old(main) && thumbs == old(thumbs)
      ensures KeyDown(i, |old(thumbs)|, key).Activate? ==>
        focus == None
        && (old(main).None? ==> main == old(main) && thumbs == old(thumbs))
        && (old(main).Some? ==> main == Some(MainPhoto(old(thumbs)[i].src, AltOf(old(thumbs)[i])))
                                && thumbs == Selected(old(thumbs), i))
    {
      var effect := KeyDown(i, |thumbs|, key);
      match effect {
        case Focus(t) => focus := Some(t);
        case Activate =>
          ChangePhoto(Some(i));
          focus := None;
        case Ignore => focus := None;
      }
    }

    method TouchStart(x: int)
      modifies this
      ensures touchStartX == x
      ensures touchEndX == old(touchEndX) && main == old(main) && thumbs == old(thumbs)
    {
      touchStartX := x;
    }

    /** touchend at x, followed by handleSwipe. */
    method TouchEnd(x: int)
      modifies this
      ensures touchEndX == x && touchStartX == old(touchStartX)
      ensures forall a :: (0 <= a < |old(thumbs)| && old(thumbs)[a].active
                           && forall j :: 0 <= j < a ==> !old(thumbs)[j].active) ==>
        var target := SwipeTarget(touchStartX, x, Some(a), |old(thumbs)|);
        if target.None? || old(main).None? then main == old(main) && thumbs == old(thumbs)
        else main == Some(MainPhoto(old(thumbs)[target.value].src, AltOf(old(thumbs)[target.value])))
             && thumbs == Selected(old(thumbs), target.value)
      ensures (forall j :: 0 <= j < |old(thumbs)| ==> !old(thumbs)[j].active) ==>
        main == old(main) && thumbs == old(thumbs)
    {
      touchEndX := x;
      var active := FirstActive(thumbs);
      var target := SwipeTarget(touchStartX, touchEndX, active, |thumbs|);
      if target.Some? {
        ChangePhoto(target);
      }
    }
  }
}
