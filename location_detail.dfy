/**
 * public/js/location_detail.js: the lightbox of a location's photo page.
 * The page's details are the public projection of the photos
 * (`Store.PublicDetail`), or bare URL strings in older data, which the page
 * first turns into `{ src }` objects. The lightbox shows one detail at a
 * time, with an `i / n` counter, and moves between details with the arrow
 * keys, a horizontal swipe or a mouse drag, wrapping round at both ends.
 */
module LocationDetail {
  import opened Wrappers
  import opened Text
  import opened Store

  /** An element of `item.details`: a bare URL string or a detail object. */
  datatype RawDetail = Plain(url: string) | Record(detail: PublicDetail)

  /** `typeof d === 'string' ? { src: d } : d`. */
  function Normalise(d: RawDetail): (r: PublicDetail)
    ensures d.Plain? ==> r.src == d.url && r.title.None? && r.desc.None?
    ensures d.Record? ==> r == d.detail
  {
    match d
    case Plain(url) => PublicDetail(url, None, None)
    case Record(detail) => detail
  }

  /** `item.details.map(...)`: one detail object per element, in order. */
  function NormaliseAll(ds: seq<RawDetail>): (r: seq<PublicDetail>)
    ensures |r| == |ds|
    ensures forall i :: 0 <= i < |ds| ==> r[i] == Normalise(ds[i])
  {
    if ds == [] then [] else [Normalise(ds[0])] + NormaliseAll(ds[1..])
  }

  /** `value || ''` for a detail's optional title or description. */
  function TextOf(v: Option<string>): (s: string)
    ensures v.Some? ==> s == v.value
    ensures v.None? ==> s == ""
  {
    if v.Some? then v.value else ""
  }

  /** `(title || desc) ? '' : 'none'`: whether the caption footer is displayed. */
  function FooterShown(d: PublicDetail): (shown: bool)
    ensures shown <==> TextOf(d.title) != "" || TextOf(d.desc) != ""
  {
    var title := TextOf(d.title);
    var desc := TextOf(d.desc);
    title != "" || desc != ""
  }

  /**
   * A footer is hidden exactly when the detail has neither a title nor a
   * description; in particular every bare URL detail has no footer.
   */
  lemma FooterHiddenIff(d: RawDetail)
    ensures !FooterShown(Normalise(d)) <==>
      (Normalise(d).title.None? || Normalise(d).title == Some("")) &&
      (Normalise(d).desc.None? || Normalise(d).desc == Some(""))
    ensures d.Plain? ==> !FooterShown(Normalise(d))
  {
  }

  /** `(currentIndex + 1) + ' / ' + currentDetails.length`. */
  function CounterText(index: int, count: int): (r: string)
    ensures var k := |IntToString(index + 1)|;
            k + 3 <= |r| && r[..k] == IntToString(index + 1) && r[k..k + 3] == " / " && r[k + 3..] == IntToString(count)
  {
    IntToString(index + 1) + " / " + IntToString(count)
  }

  /**
   * The counter is readable: `parseInt` of it gives the one-based position,
   * and the text after `" / "` is the number of details.
   */
  lemma CounterReadBack(index: int, count: int)
    ensures var c := CounterText(index, count);
            var k := |IntToString(index + 1)|;
            k + 3 <= |c| && c[k..k + 3] == " / " &&
            ParseInt10(c) == Some(index + 1) &&
            ParseInt10(c[k + 3..]) == Some(count)
  {
    var head := IntToString(index + 1);
    var total := IntToString(count);
    var c := CounterText(index, count);
    assert c == head + (" / " + total);
    ParseIntOfIntToString(index + 1, " / " + total);
    assert c[|head| + 3..] == total;
    assert total + [] == total;
    ParseIntOfIntToString(count, []);
  }

  // ----- navigation -----

  /** The index `gotoNext` switches to: the next one, or the first after the last. */
  function NextIndex(current: int, count: int): (r: int)
    ensures 0 <= current < count ==> 0 <= r < count && r == (current + 1) % count
  {
    if current < count - 1 then current + 1 else 0
  }

  /** The index `gotoPrev` switches to: the previous one, or the last before the first. */
  function PrevIndex(current: int, count: int): (r: int)
    ensures 0 <= current < count ==> 0 <= r < count && r == (current - 1 + count) % count
  {
    if current > 0 then current - 1 else count - 1
  }

  /** Going forward then back, or back then forward, returns to the same photo. */
  lemma PrevNextInverse(current: int, count: int)
    requires 0 <= current < count
    ensures PrevIndex(NextIndex(current, count), count) == current
    ensures NextIndex(PrevIndex(current, count), count) == current
  {
  }

  /** The photo reached after `k` presses of the right arrow. */
  function Advance(current: int, count: int, k: nat): (r: int)
    requires 0 <= current < count
    ensures 0 <= r < count
  {
    if k == 0 then current else NextIndex(Advance(current, count, k - 1), count)
  }

  /**
   * The right arrow walks the photos as a ring: after `k` presses the
   * lightbox shows photo `(current + k) mod count`, so `count` presses bring
   * it back to where it started and every photo is reached.
   */
  lemma {:induction false} AdvanceIsModular(current: int, count: int, k: nat)
    requires 0 <= current < count
    ensures Advance(current, count, k) == (current + k) % count
  {
    if k > 0 {
      AdvanceIsModular(current, count, k - 1);
      NextOfRemainder(current + k - 1, count);
    }
  }

  /** One step of `gotoNext` from `a mod n` lands on `(a + 1) mod n`. */
  lemma NextOfRemainder(a: int, n: int)
    requires n > 0
    ensures NextIndex(a % n, n) == (a + 1) % n
  {
    var p := a % n;
    var q := a / n;
    assert a == q * n + p;
    if p < n - 1 {
      ModUnique(a + 1, n, q, p + 1);
    } else {
      assert a + 1 == (q + 1) * n + 0;
      ModUnique(a + 1, n, q + 1, 0);
    }
  }

  /** Euclidean division has one remainder: `a == q * n + r` with `0 <= r < n` fixes `a % n`. */
  lemma ModUnique(a: int, n: int, q: int, r: int)
    requires 0 <= r < n && a == q * n + r
    ensures a % n == r
  {
    var q' := a / n;
    var d := q - q';
    assert d * n == a % n - r by {
      assert a == q' * n + a % n;
      assert d * n == q * n - q' * n;
    }
    if d > 0 {
      MulAtLeast(d, n);
    } else if d < 0 {
      MulAtLeast(-d, n);
    }
  }

  lemma MulAtLeast(d: int, n: int)
    requires d >= 1 && n > 0
    ensures d * n >= n
  {
    assert d * n == (d - 1) * n + n;
  }

  /** Every photo is reached from any other by pressing the right arrow. */
  lemma EveryPhotoReached(current: int, count: int, target: int)
    requires 0 <= current < count && 0 <= target < count
    ensures Advance(current, count, (target - current) % count) == target
  {
    var k := (target - current) % count;
    AdvanceIsModular(current, count, k);
    ShiftRemainder(current, count, target);
  }

  /** `target` is `(target - current) mod count` steps after `current`, modulo `count`. */
  lemma ShiftRemainder(current: int, count: int, target: int)
    requires 0 <= current < count && 0 <= target < count
    ensures (current + (target - current) % count) % count == target
  {
    var k := (target - current) % count;
    var q := (target - current) / count;
    assert target - current == q * count + k;
    assert (-q) * count == -(q * count);
    ModUnique(current + k, count, -q, target);
  }

  // ----- swipes -----

  /** What a swipe does: go to the next photo, the previous one, or nothing. */
  datatype Swipe = SwipeNext | SwipePrev | NoSwipe

  function Abs(x: int): nat {
    if x < 0 then -x else x
  }

  /**
   * `handleSwipe`: a move of more than 50 pixels that is more horizontal
   * than vertical; towards the left shows the next photo.
   */
  function SwipeOf(dx: int, dy: int): (s: Swipe)
    ensures s != NoSwipe <==> Abs(dx) > 50 && Abs(dx) > Abs(dy)
    ensures s == SwipeNext ==> dx < 0
    ensures s == SwipePrev ==> dx > 0
  {
    if Abs(dx) > 50 && Abs(dx) > Abs(dy) then
      if dx < 0 then SwipeNext else SwipePrev
    else NoSwipe
  }

  function Mirror(s: Swipe): Swipe {
    match s
    case SwipeNext => SwipePrev
    case SwipePrev => SwipeNext
    case NoSwipe => NoSwipe
  }

  /**
   * The gesture is symmetric: the mirrored move goes the other way, and a
   * move whose horizontal and vertical extents are swapped never fires in
   * both orientations.
   */
  lemma SwipeMirror(dx: int, dy: int)
    ensures SwipeOf(-dx, dy) == Mirror(SwipeOf(dx, dy))
    ensures SwipeOf(dx, dy) == NoSwipe || SwipeOf(dy, dx) == NoSwipe
  {
  }

  /** The index after a swipe of the given kind. */
  function AfterSwipe(current: int, count: int, s: Swipe): int {
    match s
    case SwipeNext => NextIndex(current, count)
    case SwipePrev => PrevIndex(current, count)
    case NoSwipe => current
  }

  /**
   * The mouse-up rule: a release over the backdrop (not the photo) that did
   * not swipe closes the lightbox when the pointer moved less than 5 pixels
   * each way.
   */
  function ClickCloses(s: Swipe, onBackdrop: bool, dx: int, dy: int): (closes: bool)
    ensures closes ==> s == NoSwipe && onBackdrop
  {
    s == NoSwipe && onBackdrop && Abs(dx) < 5 && Abs(dy) < 5
  }

  /** A release at the press point over the backdrop always closes, never navigates. */
  lemma ClickInPlaceCloses(onBackdrop: bool)
    requires onBackdrop
    ensures SwipeOf(0, 0) == NoSwipe && ClickCloses(SwipeOf(0, 0), onBackdrop, 0, 0)
  {
  }

  /**
   * The lightbox's state: the details of the open page, the shown index
   * (-1 when closed) and what is on display, plus the start point of a
   * touch or mouse drag.
   */
  class Lightbox {
    var details: seq<PublicDetail>
    var currentIndex: int
    var active: bool
    var imgSrc: string
    var title: string
    var footerShown: bool
    var counter: string
    var startX: int
    var startY: int
    var swiping: bool

    /** The display matches detail `i`. */
    predicate Shows(i: int)
      reads this
      requires 0 <= i < |details|
    {
      imgSrc == details[i].src && title == TextOf(details[i].title) &&
      footerShown == FooterShown(details[i]) && counter == CounterText(i, |details|)
    }

    predicate Valid()
      reads this
    {
      -1 <= currentIndex < |details| &&
      (active <==> currentIndex >= 0) &&
      (currentIndex >= 0 ==> Shows(currentIndex))
    }

    constructor ()
      ensures Valid() && currentIndex == -1 && details == [] && !swiping
    {
      details := [];
      currentIndex := -1;
      active := false;
      imgSrc, title, footerShown, counter := "", "", false, "";
      startX, startY, swiping := 0, 0, false;
    }

    /** `updateLightboxInfo` and `updateCounter` for detail `i`. */
    method Display(i: int)
      requires 0 <= i < |details|
      modifies this`imgSrc, this`title, this`footerShown, this`counter
      ensures Shows(i)
    {
      imgSrc := details[i].src;
      title := TextOf(details[i].title);
      footerShown := title != "" || TextOf(details[i].desc) != "";
      counter := IntToString(i + 1) + " / " + IntToString(|details|);
    }

    /** `openLightbox(index, details)`, called for a photo card of the page. */
    method Open(index: int, ds: seq<PublicDetail>)
      requires 0 <= index < |ds|
      modifies this
      ensures Valid() && details == ds && currentIndex == index && active
      ensures swiping == old(swiping) && startX == old(startX) && startY == old(startY)
    {
      currentIndex := index;
      details := ds;
      Display(index);
      active := true;
    }

    /** `switchTo(index)`: an index out of range is ignored. */
    method SwitchTo(index: int)
      requires Valid() && currentIndex >= 0
      modifies this`currentIndex, this`imgSrc, this`title, this`footerShown, this`counter
      ensures Valid()
      ensures 0 <= index < |details| ==> currentIndex == index
      ensures !(0 <= index < |details|) ==>
        currentIndex == old(currentIndex) && imgSrc == old(imgSrc) &&
        title == old(title) && footerShown == old(footerShown) && counter == old(counter)
    {
      if index < 0 || index >= |details| {
        return;
      }
      currentIndex := index;
      Display(index);
    }

    /** `gotoPrev()`. */
    method GotoPrev()
      requires Valid() && currentIndex >= 0
      modifies this`currentIndex, this`imgSrc, this`title, this`footerShown, this`counter
      ensures Valid() && currentIndex == PrevIndex(old(currentIndex), |details|)
    {
      if currentIndex > 0 {
        SwitchTo(currentIndex - 1);
      } else {
        SwitchTo(|details| - 1);
      }
    }

    /** `gotoNext()`. */
    method GotoNext()
      requires Valid() && currentIndex >= 0
      modifies this`currentIndex, this`imgSrc, this`title, this`footerShown, this`counter
      ensures Valid() && currentIndex == NextIndex(old(currentIndex), |details|)
    {
      if currentIndex < |details| - 1 {
        SwitchTo(currentIndex + 1);
      } else {
        SwitchTo(0);
      }
    }

    /**
     * `closeLightbox()`. The image, title and description are cleared by a
     * one-second timer, which is not modelled; the details stay.
     */
    method Close()
      requires Valid()
      modifies this`currentIndex, this`active
      ensures Valid() && currentIndex == -1 && !active
    {
      active := false;
      currentIndex := -1;
    }

    /** The `keydown` listener: Escape closes, the arrows navigate, only while open. */
    method KeyDown(key: string)
      requires Valid()
      modifies this`currentIndex, this`active, this`imgSrc, this`title, this`footerShown, this`counter
      ensures Valid()
      ensures old(currentIndex) < 0 || (key != "Escape" && key != "ArrowLeft" && key != "ArrowRight") ==>
        currentIndex == old(currentIndex) && active == old(active) &&
        imgSrc == old(imgSrc) && title == old(title) && footerShown == old(footerShown) && counter == old(counter)
      ensures old(currentIndex) >= 0 && key == "Escape" ==>
        currentIndex == -1 && !active &&
        imgSrc == old(imgSrc) && title == old(title) && footerShown == old(footerShown) && counter == old(counter)
      ensures old(currentIndex) >= 0 && key == "ArrowLeft" ==> currentIndex == PrevIndex(old(currentIndex), |details|)
      ensures old(currentIndex) >= 0 && key == "ArrowRight" ==> currentIndex == NextIndex(old(currentIndex), |details|)
    {
      if currentIndex < 0 {
        return;
      }
      if key == "Escape" {
        Close();
      } else if key == "ArrowLeft" {
        GotoPrev();
      } else if key == "ArrowRight" {
        GotoNext();
      }
    }

    /** `handleSwipe(endX, endY)`: navigates on a swipe and says whether one happened. */
    method HandleSwipe(endX: int, endY: int) returns (fired: bool)
      requires Valid() && currentIndex >= 0
      modifies this`currentIndex, this`imgSrc, this`title, this`footerShown, this`counter
      ensures Valid()
      ensures fired <==> SwipeOf(endX - startX, endY - startY) != NoSwipe
      ensures currentIndex == AfterSwipe(old(currentIndex), |details|, SwipeOf(endX - startX, endY - startY))
    {
      var dx := endX - startX;
      var dy := endY - startY;
      if Abs(dx) > 50 && Abs(dx) > Abs(dy) {
        if dx < 0 {
          GotoNext();
        } else {
          GotoPrev();
        }
        return true;
      }
      return false;
    }

    /** The `touchstart` listener: records the start point while open. */
    method TouchStart(x: int, y: int)
      modifies this`startX, this`startY, this`swiping
      ensures currentIndex < 0 ==> startX == old(startX) && startY == old(startY) && swiping == old(swiping)
      ensures currentIndex >= 0 ==> startX == x && startY == y && swiping
    {
      if currentIndex < 0 {
        return;
      }
      startX, startY := x, y;
      swiping := true;
    }

    /** The `mousedown` listener: the same start of a drag as a touch. */
    method MouseDown(x: int, y: int)
      modifies this`startX, this`startY, this`swiping
      ensures currentIndex < 0 ==> startX == old(startX) && startY == old(startY) && swiping == old(swiping)
      ensures currentIndex >= 0 ==> startX == x && startY == y && swiping
    {
      TouchStart(x, y);
    }

    /** The `touchend` listener: ends a drag and swipes when it was long enough. */
    method TouchEnd(x: int, y: int)
      requires Valid()
      modifies this`currentIndex, this`imgSrc, this`title, this`footerShown, this`counter, this`swiping
      ensures Valid()
      ensures !old(swiping) || old(currentIndex) < 0 ==> currentIndex == old(currentIndex) && swiping == old(swiping)
      ensures old(swiping) && old(currentIndex) >= 0 ==>
        !swiping && currentIndex == AfterSwipe(old(currentIndex), |details|, SwipeOf(x - startX, y - startY))
    {
      if !swiping || currentIndex < 0 {
        return;
      }
      swiping := false;
      var _ := HandleSwipe(x, y);
    }

    /**
     * The `mouseup` listener: ends a drag; a drag that did not swipe and
     * was released over the backdrop within 5 pixels of its start closes
     * the lightbox.
     */
    method MouseUp(x: int, y: int, onBackdrop: bool)
      requires Valid()
      modifies this`currentIndex, this`active, this`imgSrc, this`title, this`footerShown, this`counter, this`swiping
      ensures Valid()
      ensures !old(swiping) || old(currentIndex) < 0 ==> currentIndex == old(currentIndex) && swiping == old(swiping)
      ensures old(swiping) && old(currentIndex) >= 0 ==>
        (var s := SwipeOf(x - startX, y - startY);
         !swiping &&
         if ClickCloses(s, onBackdrop, x - startX, y - startY) then currentIndex == -1 && !active
         else currentIndex == AfterSwipe(old(currentIndex), |details|, s) && active)
    {
      if !swiping || currentIndex < 0 {
        return;
      }
      swiping := false;
      var triggered := HandleSwipe(x, y);
      if !triggered && onBackdrop {
        var dx := Abs(x - startX);
        var dy := Abs(y - startY);
        if dx < 5 && dy < 5 {
          Close();
        }
      }
    }
  }
}
