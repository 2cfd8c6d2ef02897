/** The image gallery component: a thumbnail of the first image that opens a
    modal carousel. What is modelled is the normalisation of the `images`
    prop, the URL each image is loaded from, what the thumbnail shows, and
    the carousel's index, open flag and failed-image set. */
module ImageViewer {
  import opened Util

  /** One entry of the prop: a file name (or URL) string, or a stored image
      record whose `filename` may be missing */
  datatype Image = Named(name: string) | Stored(filename: Option<string>)

  /** The `images` prop: an array, a single non-array value, or a falsy one
      (null, undefined) */
  datatype ImagesProp = Many(items: seq<Image>) | One(image: Image) | Absent

  /** JavaScript truthiness of a single value: only the empty string is falsy */
  predicate Truthy(image: Image) {
    image.Named? ==> image.name != ""
  }

  /** `imageList`: the array itself, a truthy single value wrapped in a list,
      otherwise nothing */
  function ImageList(images: ImagesProp): (list: seq<Image>)
    ensures images.Many? ==> list == images.items
    ensures images.One? ==> (list == [images.image] <==> Truthy(images.image))
    ensures !images.Many? ==> |list| <= 1
    ensures images.Absent? ==> list == []
  {
    match images
    case Many(items) => items
    case One(image) => if Truthy(image) then [image] else []
    case Absent => []
  }

  /** The name an image is loaded by, "" when there is none */
  function FilenameOf(image: Image): string {
    match image
    case Named(name) => name
    case Stored(filename) => if filename.Some? then filename.value else ""
  }

  const ImagesRoute := "/api/images/"

  /** `getImageUrl(image)`: `null` without a name; an absolute "http..." name
      as it is; otherwise the name under the API's image route, on the
      configured API base (`apiUrl`, "" when unset) */
  function GetImageUrl(image: Image, apiUrl: string): (url: Option<string>)
    ensures url.None? <==> FilenameOf(image) == ""
    ensures url.Some? && StartsWith(FilenameOf(image), "http") ==> url.value == FilenameOf(image)
    ensures url.Some? && !StartsWith(FilenameOf(image), "http") ==>
              StartsWith(url.value, apiUrl + ImagesRoute)
  {
    var filename := FilenameOf(image);
    if filename == "" then None
    else if StartsWith(filename, "http") then Some(filename)
    else Some(apiUrl + ImagesRoute + filename)
  }

  /** Every URL ends with the image's own name. */
  lemma UrlEndsWithName(image: Image, apiUrl: string)
    requires GetImageUrl(image, apiUrl).Some?
    ensures var url := GetImageUrl(image, apiUrl).value;
            |FilenameOf(image)| <= |url| && url[|url| - |FilenameOf(image)|..] == FilenameOf(image)
  {
  }

  /** What the component renders in place of the gallery */
  datatype Thumbnail = NoImage | ErrorPlaceholder | Picture(url: string)

  /** "Sin imagen" for an empty list, "Error" when the first image has no URL
      or failed to load, otherwise the first image's picture */
  function ThumbnailOf(list: seq<Image>, apiUrl: string, imageErrors: set<int>): (t: Thumbnail)
    ensures t == NoImage <==> list == []
    ensures t == ErrorPlaceholder <==>
              list != [] && (GetImageUrl(list[0], apiUrl).None? || 0 in imageErrors)
    ensures t.Picture? ==> Some(t.url) == GetImageUrl(list[0], apiUrl)
  {
    if list == [] then NoImage
    else
      var url := GetImageUrl(list[0], apiUrl);
      if url.None? || 0 in imageErrors then ErrorPlaceholder else Picture(url.value)
  }

  /** A failure of the first image turns the thumbnail into the error
      placeholder; a failure of any other image leaves it as it was. */
  lemma ErrorOnFirstImage(list: seq<Image>, apiUrl: string, imageErrors: set<int>, index: int)
    requires list != []
    ensures index == 0 ==> ThumbnailOf(list, apiUrl, imageErrors + {index}) == ErrorPlaceholder
    ensures index != 0 ==> ThumbnailOf(list, apiUrl, imageErrors + {index}) == ThumbnailOf(list, apiUrl, imageErrors)
  {
  }

  /** `goToNext`: the following index, wrapping to the first */
  function Next(i: int, n: int): (j: int)
    requires 0 <= i < n
    ensures 0 <= j < n
    ensures i < n - 1 ==> j == i + 1
    ensures i == n - 1 ==> j == 0
  {
    (i + 1) % n
  }

  /** `goToPrev`: the preceding index, wrapping to the last */
  function Prev(i: int, n: int): (j: int)
    requires 0 <= i < n
    ensures 0 <= j < n
    ensures i > 0 ==> j == i - 1
    ensures i == 0 ==> j == n - 1
  {
    (i - 1 + n) % n
  }

  /** Going back after going forward, or forward after going back, returns to
      the same image. */
  lemma PrevNext(i: int, n: int)
    requires 0 <= i < n
    ensures Prev(Next(i, n), n) == i
    ensures Next(Prev(i, n), n) == i
  {
  }

  /** The index reached after `k` presses of the next button */
  function Advance(i: int, n: int, k: nat): (j: int)
    requires 0 <= i < n
    ensures 0 <= j < n
  {
    if k == 0 then i else Next(Advance(i, n, k - 1), n)
  }

  /** Position `m` of an endless walk round a ring of `n` places */
  function Wrap(m: nat, n: nat): (j: nat)
    requires n > 0
    ensures j < n
  {
    if m < n then m else Wrap(m - n, n)
  }

  lemma {:induction false} WrapStep(m: nat, n: nat)
    requires n > 0
    ensures Next(Wrap(m, n), n) == Wrap(m + 1, n)
  {
    if m >= n {
      WrapStep(m - n, n);
    }
  }

  /** `k` presses of the next button move `k` places round the ring. */
  lemma {:induction false} AdvanceWraps(i: int, n: int, k: nat)
    requires 0 <= i < n
    ensures Advance(i, n, k) == Wrap(i + k, n)
  {
    if k > 0 {
      AdvanceWraps(i, n, k - 1);
      WrapStep(i + k - 1, n);
    }
  }

  /** `n` presses of the next button come back to the start. */
  lemma FullCircle(i: int, n: int)
    requires 0 <= i < n
    ensures Advance(i, n, n) == i
  {
    AdvanceWraps(i, n, n);
  }

  /** The component's state over an image list of `count` entries */
  class Gallery {
    const count: nat
    var isOpen: bool
    var currentIndex: int
    var imageErrors: set<int>

    /** The index is always a position of the list. */
    predicate Valid()
      reads this
    {
      0 <= currentIndex < count
    }

    /** The state of a freshly rendered, non-empty gallery */
    constructor(count: nat)
      requires count > 0
      ensures this.count == count && Valid()
      ensures !isOpen && currentIndex == 0 && imageErrors == {}
    {
      this.count := count;
      isOpen := false;
      currentIndex := 0;
      imageErrors := {};
    }

    /** A click on the thumbnail: back to the first image, modal open */
    method OpenFromThumbnail()
      requires Valid()
      modifies this
      ensures Valid() && currentIndex == 0 && isOpen
      ensures imageErrors == old(imageErrors)
    {
      currentIndex := 0;
      isOpen := true;
    }

    /** The modal's close handler */
    method Close()
      modifies this
      ensures !isOpen && currentIndex == old(currentIndex) && imageErrors == old(imageErrors)
    {
      isOpen := false;
    }

    method GoToNext()
      requires Valid()
      modifies this
      ensures Valid() && currentIndex == Next(old(currentIndex), count)
      ensures isOpen == old(isOpen) && imageErrors == old(imageErrors)
    {
      currentIndex := (currentIndex + 1) % count;
    }

    method GoToPrev()
      requires Valid()
      modifies this
      ensures Valid() && currentIndex == Prev(old(currentIndex), count)
      ensures isOpen == old(isOpen) && imageErrors == old(imageErrors)
    {
      currentIndex := (currentIndex - 1 + count) % count;
    }

    /** A click on an indicator or on a thumbnail inside the modal; both
        only offer positions of the list */
    method Select(index: int)
      requires Valid() && 0 <= index < count
      modifies this
      ensures Valid() && currentIndex == index
      ensures isOpen == old(isOpen) && imageErrors == old(imageErrors)
    {
      currentIndex := index;
    }

    /** `handleImageError(index)`: marks that image as failed and keeps the
        marks already made */
    method HandleImageError(index: int)
      modifies this
      ensures imageErrors == old(imageErrors) + {index}
      ensures isOpen == old(isOpen) && currentIndex == old(currentIndex)
    {
      imageErrors := imageErrors + {index};
    }
  }
}
