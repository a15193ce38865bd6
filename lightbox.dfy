/**
 * The image overlay of the media page in scripts/main.js: a flat list of
 * image paths collected from the design items, an index into it that wraps
 * at both ends, and prev/next buttons hidden when there is nothing to step
 * through.
 *
 * A `data-image` attribute is `Option<string>` (`None` for a missing
 * attribute); the image's `src` is `None` when it was set from `undefined`
 * or `null`.
 */
module Lightbox {
  import opened Wrappers
  import Navigator

  /** JavaScript truthiness of an attribute value: present and non-empty. */
  predicate Truthy(path: Option<string>)
  {
    path.Some? && path.value != ""
  }

  /**
   * The paths `imageArray` collects from the design items' `data-image`
   * attributes: the truthy ones, in document order.
   */
  function ImagePaths(items: seq<Option<string>>): (r: seq<string>)
    ensures |r| <= |items|
    ensures forall p :: p in r <==> Some(p) in items && p != ""
  {
    if items == [] then []
    else
      var last := items[|items| - 1];
      ImagePaths(items[..|items| - 1]) + if Truthy(last) then [last.value] else []
  }

  /**
   * The paths keep document order and multiplicity: the paths of two runs
   * of items are the paths of the first followed by those of the second.
   */
  lemma {:induction false} ImagePathsAppend(a: seq<Option<string>>, b: seq<Option<string>>)
    ensures ImagePaths(a + b) == ImagePaths(a) + ImagePaths(b)
    decreases |b|
  {
    if b == [] {
      assert a + b == a;
    } else {
      var n := |b| - 1;
      var tail := if Truthy(b[n]) then [b[n].value] else [];
      assert (a + b)[..|a + b| - 1] == a + b[..n] && (a + b)[|a + b| - 1] == b[n];
      assert ImagePaths(a + b) == ImagePaths(a + b[..n]) + tail;
      assert ImagePaths(b) == ImagePaths(b[..n]) + tail;
      ImagePathsAppend(a, b[..n]);
    }
  }

  /** One design item contributes its path exactly when the path is truthy. */
  lemma ImagePathsOfOne(item: Option<string>)
    ensures ImagePaths([item]) == if Truthy(item) then [item.value] else []
  {
    assert [item][..0] == [];
  }

  /** Building `imageArray` with `push` inside the `forEach` over the design items. */
  method BuildImageArray(items: seq<Option<string>>) returns (imageArray: seq<string>)
    ensures imageArray == ImagePaths(items)
  {
    imageArray := [];
    var k := 0;
    while k < |items|
      invariant 0 <= k <= |items|
      invariant imageArray == ImagePaths(items[..k])
    {
      assert items[..k + 1][..k] == items[..k];
      var imagePath := items[k];
      if imagePath.Some? && imagePath.value != "" {
        imageArray := imageArray + [imagePath.value];
      }
      k := k + 1;
    }
    assert items[..k] == items;
  }

  /** `navigateImageNext` on the index: one on, or back to 0 from the last index or beyond. */
  function NextImageIndex(index: int, length: nat): (r: int)
    ensures length > 0 && 0 <= index < length ==> r == (index + 1) % length
    ensures length > 0 && index >= -1 ==> 0 <= r < length
  {
    if index < length - 1 then index + 1 else 0
  }

  /** `navigateImagePrev` on the index: one back, or to the last index from 0 or below. */
  function PrevImageIndex(index: int, length: nat): (r: int)
    ensures 0 <= index < length ==> r == (index - 1) % length && 0 <= r < length
    ensures index <= 0 ==> r == length - 1
  {
    if index > 0 then index - 1 else length - 1
  }

  /** Next then previous, and previous then next, give back an index in range. */
  lemma ImageRoundTrip(index: int, length: nat)
    requires 0 <= index < length
    ensures PrevImageIndex(NextImageIndex(index, length), length) == index
    ensures NextImageIndex(PrevImageIndex(index, length), length) == index
  {
  }

  /** `k` presses of the next button, starting from `index`. */
  function NextImageN(index: int, length: nat, k: nat): int
  {
    if k == 0 then index else NextImageIndex(NextImageN(index, length, k - 1), length)
  }

  /** After `k` presses, for `k` up to one full turn, the index `k` places on, cyclically. */
  lemma {:induction false} NextImageNAdvances(index: int, length: nat, k: nat)
    requires 0 <= index < length && k <= length
    ensures NextImageN(index, length, k) == if index + k < length then index + k else index + k - length
  {
    if k > 0 {
      NextImageNAdvances(index, length, k - 1);
    }
  }

  /** Pressing next as many times as there are images comes back to the same image. */
  lemma NextImageCycleReturns(index: int, length: nat)
    requires 0 <= index < length
    ensures NextImageN(index, length, length) == index
  {
    NextImageNAdvances(index, length, length);
  }

  /** The path at an index of `imageArray`, `None` where JavaScript reads `undefined`. */
  function PathAt(images: seq<string>, index: int): Option<string>
  {
    if 0 <= index < |images| then Some(images[index]) else None
  }

  /**
   * The overlay as a value: `index` is `currentImageIndex`, `src` the
   * overlay image's source, `active` the overlay's `active` class,
   * `navHidden` whether the prev/next buttons carry `hidden`.
   */
  datatype View = View(index: int, src: Option<string>, active: bool, navHidden: bool)

  /**
   * A click on the view button at `button` of a design item whose
   * `data-image` is `imagePath`: the index is set to the button's position,
   * the image shown, and the buttons hidden exactly when there is at most
   * one image.
   */
  function ViewImage(images: seq<string>, v: View, button: nat, imagePath: Option<string>): (r: View)
    ensures r.active && (button < |images| && imagePath == Some(images[button]) ==> Showing(images, r))
  {
    View(button, imagePath, true, |images| <= 1)
  }

  /** `closeImageOverlay`: only the `active` class goes. */
  function CloseImage(v: View): (r: View)
    ensures !r.active && forall images :: Showing(images, v) ==> Showing(images, r)
  {
    v.(active := false)
  }

  /** `navigateImageNext`. */
  function NavigateImageNext(images: seq<string>, v: View): (r: View)
    ensures Showing(images, v) ==> Showing(images, r)
    ensures |images| > 0 && v.index >= -1 ==> 0 <= r.index < |images| && r.src == Some(images[r.index])
  {
    var i := NextImageIndex(v.index, |images|);
    v.(index := i, src := PathAt(images, i))
  }

  /** `navigateImagePrev`. */
  function NavigateImagePrev(images: seq<string>, v: View): (r: View)
    ensures Showing(images, v) ==> Showing(images, r)
    ensures |images| > 0 && v.index <= |images| ==> 0 <= r.index < |images| && r.src == Some(images[r.index])
  {
    var i := PrevImageIndex(v.index, |images|);
    v.(index := i, src := PathAt(images, i))
  }

  /** The document keydown handler of the image overlay, which acts only while it is active. */
  function ImageKeyDown(images: seq<string>, v: View, key: Navigator.Key): (r: View)
    ensures Showing(images, v) ==> Showing(images, r)
    ensures !v.active ==> r == v
  {
    if !v.active then v
    else match key
      case Escape => CloseImage(v)
      case ArrowRight => NavigateImageNext(images, v)
      case ArrowLeft => NavigateImagePrev(images, v)
      case OtherKey => v
  }

  /**
   * Once the overlay has been opened on an index in range, the index stays
   * in range, the image shown is the one at the index, and the buttons are
   * hidden exactly when there is at most one image.
   */
  ghost predicate Showing(images: seq<string>, v: View)
  {
    0 <= v.index < |images| && v.src == Some(images[v.index]) && (v.navHidden <==> |images| <= 1)
  }

  /** Opening from a view button whose item's path is the one at its position shows that image. */
  lemma ViewImageShows(images: seq<string>, v: View, button: nat)
    requires button < |images|
    ensures Showing(images, ViewImage(images, v, button, Some(images[button])))
    ensures ViewImage(images, v, button, Some(images[button])).active
  {
  }

  /** Next, previous, keys and closing keep the overlay showing the image at an index in range. */
  lemma NavigationKeepsShowing(images: seq<string>, v: View, key: Navigator.Key)
    requires Showing(images, v)
    ensures Showing(images, NavigateImageNext(images, v))
    ensures Showing(images, NavigateImagePrev(images, v))
    ensures Showing(images, CloseImage(v))
    ensures Showing(images, ImageKeyDown(images, v, key))
  {
  }

  /** With at least one image, next always lands in range, even from an index past the end. */
  lemma NextRecoversIndex(images: seq<string>, v: View)
    requires |images| > 0 && v.index >= 0
    ensures 0 <= NavigateImageNext(images, v).index < |images|
    ensures v.index >= |images| - 1 ==> NavigateImageNext(images, v).index == 0
  {
  }

  /** While the overlay is inactive, no key does anything; while active, the three keys map to their actions. */
  lemma ImageKeysOnlyWhileActive(images: seq<string>, v: View, key: Navigator.Key)
    ensures !v.active ==> ImageKeyDown(images, v, key) == v
    ensures v.active ==>
              && ImageKeyDown(images, v, Navigator.Escape) == CloseImage(v)
              && ImageKeyDown(images, v, Navigator.ArrowRight) == NavigateImageNext(images, v)
              && ImageKeyDown(images, v, Navigator.ArrowLeft) == NavigateImagePrev(images, v)
              && ImageKeyDown(images, v, Navigator.OtherKey) == v
  {
  }

  /**
   * The image overlay of the media page: the collected paths and the
   * overlay's index, image source, `active` class and button visibility.
   */
  class ImageLightbox {
    const imageArray: seq<string>
    var currentImageIndex: int
    var src: Option<string>
    var active: bool
    var navHidden: bool

    /** The overlay's state as a value. */
    function State(): View
      reads this
    {
      View(currentImageIndex, src, active, navHidden)
    }

    /** Page load: the paths of the design items collected, index 0, overlay closed, buttons not hidden. */
    constructor(designItems: seq<Option<string>>)
      ensures imageArray == ImagePaths(designItems)
      ensures State() == View(0, None, false, false)
    {
      var paths := BuildImageArray(designItems);
      imageArray := paths;
      currentImageIndex := 0;
      src := None;
      active := false;
      navHidden := false;
    }

    /** `updateImageNavButtons`. */
    method UpdateImageNavButtons()
      modifies this
      ensures State() == old(State()).(navHidden := |imageArray| <= 1)
    {
      if |imageArray| <= 1 {
        navHidden := true;
      } else {
        navHidden := false;
      }
    }

    /** `openImageOverlay(imagePath)`. */
    method OpenImageOverlay(imagePath: Option<string>)
      modifies this
      ensures State() == View(old(currentImageIndex), imagePath, true, |imageArray| <= 1)
    {
      src := imagePath;
      active := true;
      UpdateImageNavButtons();
    }

    /** The click listener of the view button at position `button`. */
    method ClickViewButton(button: nat, imagePath: Option<string>)
      modifies this
      ensures State() == ViewImage(imageArray, old(State()), button, imagePath)
    {
      currentImageIndex := button;
      OpenImageOverlay(imagePath);
    }

    /** `closeImageOverlay()`. */
    method CloseImageOverlay()
      modifies this
      ensures State() == CloseImage(old(State()))
    {
      active := false;
    }

    /** `navigateImageNext()`. */
    method NavigateNext()
      modifies this
      ensures State() == NavigateImageNext(imageArray, old(State()))
    {
      if currentImageIndex < |imageArray| - 1 {
        currentImageIndex := currentImageIndex + 1;
      } else {
        currentImageIndex := 0;
      }
      src := PathAt(imageArray, currentImageIndex);
    }

    /** `navigateImagePrev()`. */
    method NavigatePrev()
      modifies this
      ensures State() == NavigateImagePrev(imageArray, old(State()))
    {
      if currentImageIndex > 0 {
        currentImageIndex := currentImageIndex - 1;
      } else {
        currentImageIndex := |imageArray| - 1;
      }
      src := PathAt(imageArray, currentImageIndex);
    }

    /** The document `keydown` listener of the image overlay. */
    method KeyPressed(key: Navigator.Key)
      modifies this
      ensures State() == ImageKeyDown(imageArray, old(State()), key)
    {
      if active {
        match key
        case Escape => CloseImageOverlay();
        case ArrowRight => NavigateNext();
        case ArrowLeft => NavigatePrev();
        case OtherKey =>
      }
    }
  }
}
