/** The image collection of the archived demo's `MultiViewStereo`
    (archive/demo/multiviewstereo.cpp): images of one common size, fixed by
    the first image added to an empty collection. */
module MultiViewStereo {
  import opened Wrappers

  /** A `QImage`, as far as the collection looks at it. */
  datatype Image = Image(width: int, height: int)

  class Collection {
    var width: int
    var height: int
    var images: seq<Image>

    /** Every image has the collection's size, except images of size 0x0
        added while the size was still unset. */
    predicate Valid()
      reads this
    {
      forall i :: 0 <= i < |images| ==>
        (images[i].width == width && images[i].height == height)
        || (images[i].width == 0 && images[i].height == 0)
    }

    /** The constructor clears the collection. */
    constructor()
      ensures Valid() && width == 0 && height == 0 && images == []
    {
      width, height := 0, 0;
      images := [];
    }

    /** `addImage`: an image added while both dimensions are 0 fixes the
        size; later images must match it or are refused with
        `invalid_argument`, leaving the collection as it was. */
    method AddImage(image: Image) returns (st: Status)
      requires Valid()
      modifies this
      ensures Valid()
      ensures st == Done <==>
                (old(width) == 0 && old(height) == 0) || (image.width == old(width) && image.height == old(height))
      ensures st != Done ==> st == Raised(InvalidArgument)
      ensures st == Done ==> images == old(images) + [image]
      ensures st == Done ==> image.width == width && image.height == height
      ensures st != Done ==> images == old(images) && width == old(width) && height == old(height)
      ensures (old(width) != 0 || old(height) != 0) ==> width == old(width) && height == old(height)
    {
      if !(width != 0 || height != 0) {
        width := image.width;
        height := image.height;
      } else if image.width != width || image.height != height {
        return Raised(InvalidArgument);
      }
      images := images + [image];
      st := Done;
    }

    /** `clearImages`. */
    method ClearImages()
      modifies this
      ensures Valid() && width == 0 && height == 0 && images == []
    {
      width, height := 0, 0;
      images := [];
    }

    /** The guard that opens `getTrackedFeatures`: an empty collection is a
        `runtime_error`; otherwise one feature list per image is set up
        (the tracking itself is not part of this model). */
    function TrackedFeatureLists(): (r: Result<nat>)
      reads this
      ensures r.Fail? <==> |images| == 0
      ensures r.Fail? ==> r.error == RuntimeError
      ensures r.Ok? ==> r.value == |images| && r.value > 0
    {
      if |images| == 0 then Fail(RuntimeError) else Ok(|images|)
    }
  }

  /** Once an image with a nonzero dimension is in, all later additions
      that succeed have exactly its size. */
  method SizeIsFixed(first: Image, second: Image) returns (st1: Status, st2: Status)
    requires first.width != 0
    ensures st1 == Done
    ensures st2 == Done <==> second == first
  {
    var c := new Collection();
    st1 := c.AddImage(first);
    st2 := c.AddImage(second);
  }
}
