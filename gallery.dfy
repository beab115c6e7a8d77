/**
 * The image gallery of an activity and the choice of its cover image: adding an uploaded
 * image, removing one, and choosing the cover among the images.
 */
module Gallery {
  import opened Common
  import opened ActivitySchema
  import opened Lifecycle
  import Sequences
  import Activities

  /** Where an uploaded file is served from. */
  const ImageDirectory: string := "/images/activities/"

  /** `images.findIndex(img => img._id == imageId)`. */
  function ImageIndex(images: seq<Image>, imageId: ImageId): (r: int)
    ensures -1 <= r < |images|
    ensures r >= 0 ==> images[r].id == imageId && forall k :: 0 <= k < r ==> images[k].id != imageId
    ensures r == -1 <==> forall k :: 0 <= k < |images| ==> images[k].id != imageId
  {
    Sequences.FirstIndex(images, (img: Image) => img.id == imageId)
  }

  /** The cover is the default picture or the url of one of the images. */
  predicate CoverInGallery(a: Activity) {
    a.coverImage == DefaultCover || exists k :: 0 <= k < |a.images| && a.images[k].url == a.coverImage
  }

  /**
   * Appending an uploaded image: it becomes the cover when the form says `isCover` is the
   * string "true" or when it is now the only image; otherwise the cover stays.
   */
  function AddImage(a: Activity, img: Image, isCover: Option<string>): (b: Activity)
    ensures b.images == a.images + [img]
    ensures b.coverImage == if isCover == Some("true") || |a.images| == 0 then img.url else a.coverImage
    ensures AgreeOutside(a, b, {"images", "coverImage"})
    ensures CoverInGallery(a) ==> CoverInGallery(b)
    ensures SchemaValid(a) && img.url != "" ==> SchemaValid(b)
  {
    var images := a.images + [img];
    var b := a.(images := images, coverImage := if isCover == Some("true") || |images| == 1 then img.url else a.coverImage);
    assert b.images[|a.images|].url == img.url;
    AppendKeepsUrls(a.images, img);
    b
  }

  lemma AppendKeepsUrls(images: seq<Image>, img: Image)
    ensures forall k :: 0 <= k < |images| ==> (images + [img])[k].url == images[k].url
  {
  }

  /**
   * Removing the first image with id `imageId`. When its url was the cover, the cover becomes
   * the first remaining image's url, or the default picture when none remain.
   */
  function RemoveImage(a: Activity, imageId: ImageId): (r: Result<Activity, Failure>)
    ensures r.Err? <==> ImageIndex(a.images, imageId) == -1
    ensures r.Err? ==> r.error == ImageNotFound
    ensures r.Ok? ==>
      var k := ImageIndex(a.images, imageId);
      var removed := a.images[k];
      r.value.images == a.images[..k] + a.images[k + 1..] &&
      r.value.coverImage == (if a.coverImage != removed.url then a.coverImage
                             else if |r.value.images| > 0 then r.value.images[0].url
                             else DefaultCover) &&
      AgreeOutside(a, r.value, {"images", "coverImage"})
  {
    var k := ImageIndex(a.images, imageId);
    if k == -1 then Err(ImageNotFound)
    else
      var removed := a.images[k];
      var rest := Sequences.RemoveAt(a.images, k);
      var cover := if a.coverImage == removed.url && |rest| > 0 then rest[0].url
                   else if a.coverImage == removed.url then DefaultCover
                   else a.coverImage;
      Ok(a.(images := rest, coverImage := cover))
  }

  /** After a removal the cover is still the default picture or one of the remaining images. */
  lemma RemoveImageKeepsCover(a: Activity, imageId: ImageId)
    requires RemoveImage(a, imageId).Ok? && CoverInGallery(a)
    ensures CoverInGallery(RemoveImage(a, imageId).value)
  {
    RemovalKeepsOtherUrls(a.images, ImageIndex(a.images, imageId));
  }

  /** A removal keeps an activity that satisfied the schema valid. */
  lemma RemoveImageKeepsSchema(a: Activity, imageId: ImageId)
    requires RemoveImage(a, imageId).Ok? && SchemaValid(a)
    ensures SchemaValid(RemoveImage(a, imageId).value)
  {
  }

  lemma RemovalKeepsOtherUrls(images: seq<Image>, k: nat)
    requires k < |images|
    ensures forall j :: 0 <= j < |images| && images[j].url != images[k].url ==>
      exists i :: 0 <= i < |images| - 1 && Sequences.RemoveAt(images, k)[i].url == images[j].url
  {
    var rest := Sequences.RemoveAt(images, k);
    forall j | 0 <= j < |images| && images[j].url != images[k].url
      ensures exists i :: 0 <= i < |images| - 1 && rest[i].url == images[j].url
    {
      if j < k { assert rest[j] == images[j]; } else { assert rest[j - 1] == images[j]; }
    }
  }

  /** Choosing the cover: the url of the first image with id `imageId`. */
  function ChooseCover(a: Activity, imageId: ImageId): (r: Result<Activity, Failure>)
    ensures r.Err? <==> ImageIndex(a.images, imageId) == -1
    ensures r.Err? ==> r.error == ImageNotFound
    ensures r.Ok? ==> (r.value.coverImage == a.images[ImageIndex(a.images, imageId)].url &&
                       AgreeOutside(a, r.value, {"coverImage"}))
    ensures r.Ok? ==> CoverInGallery(r.value)
    ensures r.Ok? && SchemaValid(a) ==> SchemaValid(r.value)
  {
    var k := ImageIndex(a.images, imageId);
    if k == -1 then Err(ImageNotFound) else Ok(a.(coverImage := a.images[k].url))
  }

  /**
   * `uploadActivityImage`: a request without a file is refused before the lookup; the stored
   * image gets `imageId`, the served url of the file and the form's description or "".
   */
  method UploadActivityImage(store: Activities.ActivityStore, id: ActivityId, filename: Option<string>,
                             description: Option<string>, isCover: Option<string>, imageId: ImageId, now: Time)
    returns (r: Result<Image, Failure>)
    requires store.Valid()
    modifies store
    ensures store.Valid()
    ensures filename.None? ==> r == Err(NoFile)
    ensures filename.Some? && id !in old(store.activities) ==> r == Err(NotFound)
    ensures r.Ok? <==> filename.Some? && id in old(store.activities)
    ensures r.Err? ==> unchanged(store)
    ensures r.Ok? ==>
      filename.Some? && id in old(store.activities) &&
      r.value == Image(imageId, ImageDirectory + filename.value, if Truthy(description) then description.value else "", now) &&
      store.activities == old(store.activities)[id := AddImage(old(store.activities)[id], r.value, isCover)] &&
      store.enrollments == old(store.enrollments) && store.nextId == old(store.nextId)
  {
    if filename.None? {
      return Err(NoFile);
    }
    if id !in store.activities {
      return Err(NotFound);
    }
    var img := Image(imageId, ImageDirectory + filename.value, if Truthy(description) then description.value else "", now);
    var a := store.activities[id];
    assert img.url[..|ImageDirectory|] == ImageDirectory;
    var b := AddImage(a, img, isCover);
    Activities.ReplaceKeepsStore(store.activities, store.enrollments, store.nextId, id, b);
    store.activities := store.activities[id := b];
    r := Ok(img);
  }

  /** `deleteActivityImage` (the file on disk is not part of this model). */
  method DeleteActivityImage(store: Activities.ActivityStore, id: ActivityId, imageId: ImageId)
    returns (r: Result<(), Failure>)
    requires store.Valid()
    modifies store
    ensures store.Valid()
    ensures id !in old(store.activities) ==> r == Err(NotFound)
    ensures id in old(store.activities) && RemoveImage(old(store.activities)[id], imageId).Err? ==> r == Err(ImageNotFound)
    ensures r.Ok? <==> id in old(store.activities) && RemoveImage(old(store.activities)[id], imageId).Ok?
    ensures r.Err? ==> unchanged(store)
    ensures r.Ok? ==>
      id in old(store.activities) && RemoveImage(old(store.activities)[id], imageId).Ok? &&
      store.activities == old(store.activities)[id := RemoveImage(old(store.activities)[id], imageId).value] &&
      store.enrollments == old(store.enrollments) && store.nextId == old(store.nextId)
  {
    if id !in store.activities {
      return Err(NotFound);
    }
    match RemoveImage(store.activities[id], imageId)
    case Err(e) =>
      r := Err(e);
    case Ok(b) =>
      RemoveImageKeepsSchema(store.activities[id], imageId);
      Activities.ReplaceKeepsStore(store.activities, store.enrollments, store.nextId, id, b);
      store.activities := store.activities[id := b];
      r := Ok(());
  }

  /** `setActivityCover`. */
  method SetActivityCover(store: Activities.ActivityStore, id: ActivityId, imageId: ImageId)
    returns (r: Result<string, Failure>)
    requires store.Valid()
    modifies store
    ensures store.Valid()
    ensures id !in old(store.activities) ==> r == Err(NotFound)
    ensures id in old(store.activities) && ChooseCover(old(store.activities)[id], imageId).Err? ==> r == Err(ImageNotFound)
    ensures r.Ok? <==> id in old(store.activities) && ChooseCover(old(store.activities)[id], imageId).Ok?
    ensures r.Err? ==> unchanged(store)
    ensures r.Ok? ==>
      id in old(store.activities) && ChooseCover(old(store.activities)[id], imageId).Ok? &&
      store.activities == old(store.activities)[id := ChooseCover(old(store.activities)[id], imageId).value] &&
      r.value == store.activities[id].coverImage &&
      store.enrollments == old(store.enrollments) && store.nextId == old(store.nextId)
  {
    if id !in store.activities {
      return Err(NotFound);
    }
    match ChooseCover(store.activities[id], imageId)
    case Err(e) =>
      r := Err(e);
    case Ok(b) =>
      Activities.ReplaceKeepsStore(store.activities, store.enrollments, store.nextId, id, b);
      store.activities := store.activities[id := b];
      r := Ok(b.coverImage);
  }
}
