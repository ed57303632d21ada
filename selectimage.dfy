/** The selection state of `selectImage` (src/vois/vuetify/selectImage.py):
  * a list of image descriptions, each numbered and completed with default
  * sizes, and the index of the chosen one (-1 for none). The `onchange`
  * callback is a call count. */
module SelectImage {
  import opened Wrappers
  import opened PyStrings

  /** An image description: the keys the widget reads or fills in, and the
    * image source, which it passes through. */
  datatype Image = Image(index: Option<int>, name: Option<string>, maxWidth: Option<string>,
                         maxHeight: Option<string>, margins: Option<string>, image: Option<string>)

  /** What the widget shows as chosen: `None`, the `''` the setter stores for
    * an invalid index, or an image. */
  datatype Selection = NoSelection | EmptySelection | Chosen(img: Image)

  /** A Python value given to the `value` setter: `isinstance(v, int)` holds
    * for integers and for booleans, which count as 0 and 1. */
  datatype Arg = IntArg(i: int) | BoolArg(b: bool) | OtherArg

  function AsInt(v: Arg): Option<int> {
    match v
    case IntArg(i) => Some(i)
    case BoolArg(b) => Some(if b then 1 else 0)
    case OtherArg => None
  }

  /** The description as numbered and completed by the loop over images. */
  function Completed(img: Image, i: int, maxWidth: int, maxHeight: int, margins: string): (r: Image)
  {
    img.(index := Some(i),
         name := if img.name.None? then Some("") else img.name,
         maxWidth := if img.maxWidth.None? then Some(IntToString(maxWidth)) else img.maxWidth,
         maxHeight := if img.maxHeight.None? then Some(IntToString(maxHeight)) else img.maxHeight,
         margins := if img.margins.None? then Some(margins) else img.margins)
  }

  /** Every image numbered by its position and completed. */
  function AllCompleted(images: seq<Image>, maxWidth: int, maxHeight: int, margins: string): (r: seq<Image>)
    ensures |r| == |images|
  {
    seq(|images|, i requires 0 <= i < |images| => Completed(images[i], i, maxWidth, maxHeight, margins))
  }

  /** After completion each image carries its position as index and every
    * key; a key that was present keeps its value, a missing one gets the
    * default, and the image source is untouched. */
  lemma AllCompletedSpec(images: seq<Image>, maxWidth: int, maxHeight: int, margins: string, i: int)
    requires 0 <= i < |images|
    ensures var r := AllCompleted(images, maxWidth, maxHeight, margins)[i];
      && r.index == Some(i)
      && r.name.Some? && r.maxWidth.Some? && r.maxHeight.Some? && r.margins.Some?
      && (images[i].name.Some? ==> r.name == images[i].name)
      && (images[i].name.None? ==> r.name == Some(""))
      && (images[i].maxWidth.Some? ==> r.maxWidth == images[i].maxWidth)
      && (images[i].maxWidth.None? ==> r.maxWidth == Some(IntToString(maxWidth)))
      && (images[i].maxHeight.Some? ==> r.maxHeight == images[i].maxHeight)
      && (images[i].maxHeight.None? ==> r.maxHeight == Some(IntToString(maxHeight)))
      && (images[i].margins.Some? ==> r.margins == images[i].margins)
      && (images[i].margins.None? ==> r.margins == Some(margins))
      && r.image == images[i].image
  {
  }

  /** Completing twice changes nothing more. */
  lemma AllCompletedIdempotent(images: seq<Image>, maxWidth: int, maxHeight: int, margins: string)
    ensures var r := AllCompleted(images, maxWidth, maxHeight, margins);
      AllCompleted(r, maxWidth, maxHeight, margins) == r
  {
  }

  /** The numbering loop shared by the constructor and `setImages`. */
  method Complete(images: seq<Image>, maxWidth: int, maxHeight: int, margins: string) returns (r: seq<Image>)
    ensures r == AllCompleted(images, maxWidth, maxHeight, margins)
  {
    r := images;
    var i := 0;
    for k := 0 to |images|
      invariant i == k && |r| == |images|
      invariant forall j :: 0 <= j < |r| ==> r[j] == if j < k then Completed(images[j], j, maxWidth, maxHeight, margins) else images[j]
    {
      var img := r[k].(index := Some(i));
      i := i + 1;
      if img.name.None? {
        img := img.(name := Some(""));
      }
      if img.maxWidth.None? {
        img := img.(maxWidth := Some(IntToString(maxWidth)));
      }
      if img.maxHeight.None? {
        img := img.(maxHeight := Some(IntToString(maxHeight)));
      }
      if img.margins.None? {
        img := img.(margins := Some(margins));
      }
      r := r[k := img];
    }
  }

  class SelectImage {
    const maxWidth: int
    const maxHeight: int
    const margins: string
    const hasOnchange: bool
    var images: seq<Image>
    /** `_value`. */
    var value: int
    var selection: Selection
    var changes: nat

    /** The chosen index is -1 or an existing image, and the selection shows
      * that image (or none). */
    ghost predicate Consistent()
      reads this
    {
      (value == -1 && (selection == NoSelection || selection == EmptySelection)) ||
      (0 <= value < |images| && selection == Chosen(images[value]))
    }

    /** `selectImage(images, selection=..., max_width=..., ...)`: the images
      * are numbered and completed; the initial selection is kept only when
      * it is an integer index of an image. */
    constructor(images: seq<Image>, selection: Arg, maxWidth: int, maxHeight: int, margins: string, hasOnchange: bool)
      ensures this.maxWidth == maxWidth && this.maxHeight == maxHeight && this.margins == margins
      ensures this.hasOnchange == hasOnchange && changes == 0
      ensures this.images == AllCompleted(images, maxWidth, maxHeight, margins)
      ensures var s := AsInt(selection);
        s.Some? && 0 <= s.value < |images| ==> value == s.value && this.selection == Chosen(this.images[value])
      ensures var s := AsInt(selection);
        !(s.Some? && 0 <= s.value < |images|) ==> value == -1 && this.selection == NoSelection
      ensures Consistent()
    {
      this.maxWidth := maxWidth;
      this.maxHeight := maxHeight;
      this.margins := margins;
      this.hasOnchange := hasOnchange;
      changes := 0;
      var completed := Complete(images, maxWidth, maxHeight, margins);
      this.images := completed;
      value := -1;
      this.selection := NoSelection;
      new;
      var s := AsInt(selection);
      if s.Some? && 0 <= s.value < |this.images| {
        value := s.value;
        this.selection := Chosen(this.images[s.value]);
      }
    }

    /** `vue_input`: the index the widget sends is taken as is (-1 when the
      * event carries none), without checking it, and reported. */
    method OnInput(index: Option<int>)
      modifies this`value, this`changes
      ensures value == (if index.Some? then index.value else -1)
      ensures changes == old(changes) + (if hasOnchange then 1 else 0)
    {
      if index.Some? {
        value := index.value;
      } else {
        value := -1;
      }
      if hasOnchange {
        changes := changes + 1;
      }
    }

    /** The `value` setter: an integer index of an image selects it, anything
      * else selects none (-1, shown as `''`); the callback fires either way. */
    method SetValue(v: Arg)
      modifies this`value, this`selection, this`changes
      ensures var s := AsInt(v);
        s.Some? && 0 <= s.value < |images| ==> value == s.value && selection == Chosen(images[value])
      ensures var s := AsInt(v);
        !(s.Some? && 0 <= s.value < |images|) ==> value == -1 && selection == EmptySelection
      ensures changes == old(changes) + (if hasOnchange then 1 else 0)
      ensures Consistent()
    {
      var s := AsInt(v);
      if s.Some? && 0 <= s.value < |images| {
        value := s.value;
        selection := Chosen(images[s.value]);
      } else {
        value := -1;
        selection := EmptySelection;
      }
      if hasOnchange {
        changes := changes + 1;
      }
    }

    /** `setImages`: the new images numbered and completed, the selection
      * cleared, no callback. */
    method SetImages(newImages: seq<Image>)
      modifies this`images, this`value, this`selection
      ensures images == AllCompleted(newImages, maxWidth, maxHeight, margins)
      ensures value == -1 && selection == NoSelection
      ensures Consistent()
    {
      images := Complete(newImages, maxWidth, maxHeight, margins);
      value := -1;
      selection := NoSelection;
    }
  }
}
