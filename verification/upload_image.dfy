/** The list logic of the image-upload component. The component keeps two
    parallel lists, the picked files (`images`) and their preview URLs
    (`showImages`), plus two flags. Each React setter is read as
    "new state = f(old state)". */
module UploadImage {
  import opened Wrappers
  import opened JsArray

  /** `MAX_IMAGE_COUNT`, the value the component's modal announces. */
  const MaxImageCount: nat := 5

  /** One entry of the input's file list together with the preview URL that
      `URL.createObjectURL` produced for it. */
  datatype Picked<F> = Picked(file: F, url: string)

  /** The component's state: the files, their preview URLs, the overflow
      flag and the flag that opens the "too many images" modal. */
  datatype Gallery<F> = Gallery(images: seq<F>, showImages: seq<string>, imageOverflow: bool, isClick: bool)

  /** Files and preview URLs are in one-to-one correspondence. */
  predicate Aligned<F>(g: Gallery<F>) {
    |g.images| == |g.showImages|
  }

  /** The files of the picked entries, in pick order. */
  function Files<F>(items: seq<Picked<F>>): (r: seq<F>)
    ensures |r| == |items|
    ensures forall k :: 0 <= k < |items| ==> r[k] == items[k].file
  {
    seq(|items|, k requires 0 <= k < |items| => items[k].file)
  }

  /** The preview URLs of the picked entries, in pick order. */
  function Urls<F>(items: seq<Picked<F>>): (r: seq<string>)
    ensures |r| == |items|
    ensures forall k :: 0 <= k < |items| ==> r[k] == items[k].url
  {
    seq(|items|, k requires 0 <= k < |items| => items[k].url)
  }

  /** `handleAddImages`: `picked` is the input's file list, `None` when the
      browser reports none. The new entries are appended to both lists, cut
      back so that the total does not pass the cap. */
  function AddImages<F>(g: Gallery<F>, picked: Option<seq<Picked<F>>>): (g': Gallery<F>)
    ensures picked.None? ==> g' == g
    ensures g.images <= g'.images && g.showImages <= g'.showImages
    ensures |g'.images| - |g.images| == |g'.showImages| - |g.showImages|
    ensures picked.Some? ==> |g'.showImages| - |g.showImages| <= |picked.value|
    ensures picked.Some? ==>
              forall k :: |g.images| <= k < |g'.images| ==> g'.images[k] == picked.value[k - |g.images|].file
    ensures picked.Some? ==>
              forall k :: |g.showImages| <= k < |g'.showImages| ==> g'.showImages[k] == picked.value[k - |g.showImages|].url
    ensures picked.Some? && |g.showImages| + |picked.value| <= MaxImageCount ==>
              && |g'.showImages| == |g.showImages| + |picked.value|
              && g'.imageOverflow == g.imageOverflow
              && g'.isClick == g.isClick
    ensures picked.Some? && |g.showImages| + |picked.value| > MaxImageCount ==>
              g'.imageOverflow && g'.isClick
    ensures picked.Some? && |g.showImages| <= MaxImageCount < |g.showImages| + |picked.value| ==>
              |g'.showImages| == MaxImageCount
    ensures |g.showImages| <= MaxImageCount ==> |g'.showImages| <= MaxImageCount
    ensures Aligned(g) ==> Aligned(g')
  {
    match picked
    case None => g
    case Some(items) =>
      var newImages := Files(items);
      var newImageUrls := Urls(items);
      if |newImages| + |g.showImages| > MaxImageCount then
        var diff := |g.showImages| + |newImages| - MaxImageCount;
        g.(images := g.images + SliceTo(newImages, |newImages| - diff),
           showImages := g.showImages + SliceTo(newImageUrls, |newImageUrls| - diff),
           imageOverflow := true,
           isClick := true)
      else
        g.(images := g.images + newImages, showImages := g.showImages + newImageUrls)
  }

  /** The handler as written: one loop pushes every file and its URL, then
      both lists are cut by the same `diff` and appended. */
  method HandleAddImages<F>(g: Gallery<F>, picked: Option<seq<Picked<F>>>) returns (g': Gallery<F>)
    ensures g' == AddImages(g, picked)
  {
    if picked.None? {
      return g;
    }
    var items := picked.value;
    var newImages: seq<F> := [];
    var newImageUrls: seq<string> := [];
    var i := 0;
    while i < |items|
      invariant 0 <= i <= |items|
      invariant |newImages| == i && |newImageUrls| == i
      invariant forall k :: 0 <= k < i ==> newImages[k] == items[k].file && newImageUrls[k] == items[k].url
    {
      newImages := newImages + [items[i].file];
      newImageUrls := newImageUrls + [items[i].url];
      i := i + 1;
    }
    assert newImages == Files(items);
    assert newImageUrls == Urls(items);
    g' := g;
    if |newImages| + |g.showImages| > MaxImageCount {
      g' := g'.(imageOverflow := true, isClick := true);
      var diff := |g.showImages| + |newImages| - MaxImageCount;
      newImages := SliceTo(newImages, |newImages| - diff);
      newImageUrls := SliceTo(newImageUrls, |newImageUrls| - diff);
    }
    g' := g'.(images := g.images + newImages, showImages := g.showImages + newImageUrls);
  }

  /** `handleDeleteImage(index)`: the URL list drops position `index` by a
      filter, the file list by `splice(index, 1)`. */
  function DeleteImage<F>(g: Gallery<F>, index: int): (g': Gallery<F>)
    ensures 0 <= index < |g.showImages| ==> RemovedAt(g.showImages, g'.showImages, index)
    ensures 0 <= index < |g.images| ==> RemovedAt(g.images, g'.images, index)
    ensures !(0 <= index < |g.showImages|) ==> g'.showImages == g.showImages
    ensures |g'.showImages| <= |g.showImages|
    ensures 0 <= index && Aligned(g) ==> Aligned(g')
    ensures g'.imageOverflow == g.imageOverflow && g'.isClick == g.isClick
  {
    g.(showImages := WithoutIndex(g.showImages, index), images := SpliceOne(g.images, index))
  }

  /** The effect that runs whenever `showImages` changes: it recomputes the
      overflow flag and nothing else. The `slice` it calls has its result
      dropped, so no list is shortened here. */
  function OverflowEffect<F>(g: Gallery<F>): (g': Gallery<F>)
    ensures g'.images == g.images && g'.showImages == g.showImages && g'.isClick == g.isClick
    ensures g'.imageOverflow <==> |g.showImages| > MaxImageCount
  {
    if |g.showImages| > MaxImageCount then g.(imageOverflow := true) else g.(imageOverflow := false)
  }

  /** The modal's close button. */
  function CloseModal<F>(g: Gallery<F>): (g': Gallery<F>)
    ensures !g'.isClick
    ensures g'.images == g.images && g'.showImages == g.showImages && g'.imageOverflow == g.imageOverflow
  {
    g.(isClick := false)
  }
}
