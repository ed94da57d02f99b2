/**
 * The hike creation page (src/pages/HikeNew.tsx): its validation schema,
 * the picture and GPX state its handlers keep, and the writes of `onSubmit`.
 */
module HikeNew {
  import opened Wrappers
  import opened Seqs
  import opened HikeDocs
  import opened HikeStore
  import opened HomeSearch
  import opened FeatureTiles

  /** The `schema` of the creation form, with the picked files as `images`. */
  predicate SchemaAccepts(f: HikeForm, images: seq<File>) {
    && |f.title| >= 3
    && |f.description| >= 10
    && |f.region| >= 1
    && (f.difficulty == Easy || f.difficulty == Moderate || f.difficulty == Hard)
    && f.distanceKm > 0.0
    && f.elevationGainM >= 0.0
    && |images| >= 1
    && |f.itinerary| >= 1
    && forall i :: 0 <= i < |f.itinerary| ==> |f.itinerary[i].title| >= 1 && |f.itinerary[i].description| >= 1
  }

  /** The form's default values: one blank step, 0.1 km, 0 m; the text fields start empty. */
  function DefaultForm(): (f: HikeForm)
    ensures f.itinerary == [Step("", "")] && f.distanceKm == 0.1 && f.elevationGainM == 0.0
  {
    HikeForm("", "", "", "", 0.1, 0.0, [Step("", "")])
  }

  /**
   * A form the schema accepts has at least one picture, so its submit
   * always stores at least one picture URL, the first picked file's.
   */
  lemma AcceptedFormHasPictures(f: HikeForm, images: seq<File>, uid: string, hikeId: string, url: string -> string)
    requires SchemaAccepts(f, images)
    ensures |Uploads(uid, hikeId, images, url)| >= 1
    ensures Uploads(uid, hikeId, images, url)[0] == url(ImagePath(uid, hikeId, images[0]))
  {
  }

  /** The blank default step alone fails the schema: the user must fill in every step. */
  lemma DefaultStepRejected(f: HikeForm, images: seq<File>)
    requires f.itinerary == DefaultForm().itinerary
    ensures !SchemaAccepts(f, images)
  {
    assert |f.itinerary[0].title| == 0;
  }

  /** The document `addDoc` creates: the form's values, no GPX path, no pictures, the author. */
  function CreatedDoc(uid: string, f: HikeForm): (d: HikeDoc)
    ensures d.title == f.title && d.description == f.description && d.region == f.region
    ensures d.difficulty == f.difficulty && d.distanceKm == f.distanceKm && d.elevationGainM == f.elevationGainM
    ensures d.itinerary == Some(f.itinerary) && d.createdBy == Some(uid)
    ensures d.gpxPath.None? && d.imageUrls == Some([]) && d.image.None?
  {
    HikeDoc(f.title, f.description, f.region, f.difficulty, f.distanceKm, f.elevationGainM,
            Some(f.itinerary), Some([]), None, Some(uid), None)
  }

  /** The GPX path of a new hike: the chosen file's, or the default track's. */
  function NewGpxPath(uid: string, hikeId: string, gpxFile: Option<File>): string {
    if gpxFile.Some? then GpxPath(uid, hikeId) else DefaultGpxPath(uid, hikeId)
  }

  /** The writes of a signed-in submit, in the order they are sent. */
  function SubmitOps(uid: string, f: HikeForm, hikeId: string, gpxFile: Option<File>, files: seq<File>,
                     url: string -> string): seq<StoreOp>
  {
    var gpx := NewGpxPath(uid, hikeId, gpxFile);
    var urls := Uploads(uid, hikeId, files, url);
    [CreateHike(hikeId, CreatedDoc(uid, f)), UploadFile(gpx), SetGpxPath(hikeId, gpx)]
    + ImageUploadOps(uid, hikeId, files)
    + (if |urls| > 0 then [SetImageUrls(hikeId, urls)] else [])
  }

  /**
   * After a signed-in submit the new document holds the form's values, the
   * GPX path of the chosen file (or of the default track), and the URLs of
   * the uploaded pictures in file order; no other document changes.
   */
  lemma SubmitStoresHike(store: map<string, HikeDoc>, uid: string, f: HikeForm, hikeId: string,
                         gpxFile: Option<File>, files: seq<File>, url: string -> string)
    ensures var after := ApplyAll(store, SubmitOps(uid, f, hikeId, gpxFile, files, url));
            && hikeId in after
            && after[hikeId] == CreatedDoc(uid, f).(gpxPath := Some(NewGpxPath(uid, hikeId, gpxFile)),
                                                    imageUrls := Some(Uploads(uid, hikeId, files, url)))
            && (forall k :: k in store && k != hikeId ==> k in after && after[k] == store[k])
            && after.Keys == store.Keys + {hikeId}
  {
    var gpx := NewGpxPath(uid, hikeId, gpxFile);
    var urls := Uploads(uid, hikeId, files, url);
    var head := [CreateHike(hikeId, CreatedDoc(uid, f)), UploadFile(gpx), SetGpxPath(hikeId, gpx)];
    var uploads := ImageUploadOps(uid, hikeId, files);
    var tail: seq<StoreOp> := if |urls| > 0 then [SetImageUrls(hikeId, urls)] else [];
    ApplyAllAppend(store, head + uploads, tail);
    ApplyAllAppend(store, head, uploads);
    var s1 := ApplyAll(store, head);
    var h0 := store[hikeId := CreatedDoc(uid, f)];
    assert s1 == ApplyAll(h0, [UploadFile(gpx), SetGpxPath(hikeId, gpx)]) by {
      assert head[1..] == [UploadFile(gpx), SetGpxPath(hikeId, gpx)];
    }
    assert s1 == ApplyAll(h0, [SetGpxPath(hikeId, gpx)]) by {
      assert [UploadFile(gpx), SetGpxPath(hikeId, gpx)][1..] == [SetGpxPath(hikeId, gpx)];
    }
    var h1 := ApplyOp(h0, SetGpxPath(hikeId, gpx));
    assert s1 == h1 by {
      var last := [SetGpxPath(hikeId, gpx)];
      assert last[0] == SetGpxPath(hikeId, gpx) && last[1..] == [];
      assert ApplyAll(h0, last) == ApplyAll(h1, []);
    }
    assert h1 == h0[hikeId := CreatedDoc(uid, f).(gpxPath := Some(gpx))];
    assert h1 == store[hikeId := CreatedDoc(uid, f).(gpxPath := Some(gpx))];
    UploadsKeepDocs(s1, uid, hikeId, files);
    if |urls| == 0 {
      assert urls == [];
    }
  }

  /**
   * The home page never shows the pictures of a hike created here: the
   * stored document has `imageUrls` but no `image`, and the home card reads
   * `image` only.
   */
  lemma CreatedHikeHasDefaultHomeCard(store: map<string, HikeDoc>, uid: string, f: HikeForm, hikeId: string,
                                      gpxFile: Option<File>, files: seq<File>, url: string -> string)
    ensures var after := ApplyAll(store, SubmitOps(uid, f, hikeId, gpxFile, files, url));
            hikeId in after && HomeCardImage(RowOf(HikeSnapshot(hikeId, after[hikeId]))) == DefaultCardImage
  {
    SubmitStoresHike(store, uid, f, hikeId, gpxFile, files, url);
  }

  datatype ImageChange = NoSelection | TooMany | Added

  /** The component state of the creation page that its handlers update. */
  class NewForm {
    var imageFiles: seq<File>
    var imagePreviews: seq<Preview>
    var gpxFile: Option<File>
    var region: string
    var showCustomRegion: bool

    /** At most five pictures, and one preview per picture, in the same order. */
    ghost predicate Valid()
      reads this
    {
      |imageFiles| <= MaxImages && imagePreviews == Map(LocalPreview, imageFiles)
    }

    constructor ()
      ensures Valid()
      ensures imageFiles == [] && imagePreviews == [] && gpxFile.None? && region == "" && !showCustomRegion
    {
      imageFiles := [];
      imagePreviews := [];
      gpxFile := None;
      region := "";
      showCustomRegion := false;
    }

    /**
     * `handleImageChange`: a selection that would bring the pictures above
     * five is refused with nothing changed; otherwise the picked files are
     * appended after the current ones and the previews rebuilt.
     */
    method HandleImageChange(selected: Option<seq<File>>) returns (outcome: ImageChange)
      requires Valid()
      modifies this
      ensures Valid()
      ensures outcome == (if selected.None? then NoSelection
                          else if |old(imageFiles)| + |selected.value| > MaxImages then TooMany
                          else Added)
      ensures outcome == Added ==> imageFiles == old(imageFiles) + selected.value
      ensures outcome != Added ==> imageFiles == old(imageFiles) && imagePreviews == old(imagePreviews)
      ensures gpxFile == old(gpxFile) && region == old(region) && showCustomRegion == old(showCustomRegion)
    {
      if selected.None? {
        return NoSelection;
      }
      var files := selected.value;
      var totalFiles := |imageFiles| + |files|;
      if totalFiles > MaxImages {
        return TooMany;
      }
      var newFiles := imageFiles + files;
      imageFiles := newFiles;
      imagePreviews := Map(LocalPreview, newFiles);
      outcome := Added;
    }

    /** `removeImage(index)`: drops the picture at `index` (none when out of range) and rebuilds the previews. */
    method RemoveImage(index: int)
      requires Valid()
      modifies this
      ensures Valid()
      ensures imageFiles == RemoveAt(old(imageFiles), index)
      ensures gpxFile == old(gpxFile) && region == old(region) && showCustomRegion == old(showCustomRegion)
    {
      var newFiles := RemoveAt(imageFiles, index);
      imageFiles := newFiles;
      imagePreviews := Map(LocalPreview, newFiles);
    }

    /** `handleGpxChange`: the first picked file becomes the track; no file, no change. */
    method HandleGpxChange(first: Option<File>)
      modifies this`gpxFile
      ensures gpxFile == if first.Some? then first else old(gpxFile)
    {
      if first.Some? {
        gpxFile := first;
      }
    }

    /** `removeGpx`: the picked track is forgotten, so the submit uploads the default one. */
    method RemoveGpx()
      modifies this`gpxFile
      ensures gpxFile.None?
    {
      gpxFile := None;
    }

    /** The region select's `onChange`. */
    method OnRegionSelect(value: string)
      modifies this`region, this`showCustomRegion
      ensures (region, showCustomRegion) == SelectRegion(value)
    {
      region := value;
      if value != Other {
        showCustomRegion := false;
      } else {
        showCustomRegion := true;
        region := "";
      }
    }

    /** The picture loop of `onSubmit`: each picked file uploaded in order, its URL collected. */
    method UploadPictures(uid: string, hikeId: string, url: string -> string) returns (ops: seq<StoreOp>, imageUrls: seq<string>)
      ensures ops == ImageUploadOps(uid, hikeId, imageFiles)
      ensures imageUrls == Uploads(uid, hikeId, imageFiles, url)
    {
      ops := [];
      imageUrls := [];
      var i := 0;
      while i < |imageFiles|
        invariant 0 <= i <= |imageFiles|
        invariant imageUrls == Uploads(uid, hikeId, imageFiles[..i], url)
        invariant ops == ImageUploadOps(uid, hikeId, imageFiles[..i])
      {
        var path := ImagePath(uid, hikeId, imageFiles[i]);
        UploadsStep(uid, hikeId, imageFiles, i, url);
        ops := ops + [UploadFile(path)];
        imageUrls := imageUrls + [url(path)];
        i := i + 1;
      }
      assert imageFiles[..|imageFiles|] == imageFiles;
    }

    /**
     * `onSubmit`: without a user nothing is written; otherwise the hike is
     * created, its GPX track uploaded and recorded, each picture uploaded in
     * order, and the URLs recorded when there is at least one.
     */
    method Submit(user: Option<string>, f: HikeForm, hikeId: string, url: string -> string) returns (ops: seq<StoreOp>)
      ensures user.None? ==> ops == []
      ensures user.Some? ==> ops == SubmitOps(user.value, f, hikeId, gpxFile, imageFiles, url)
    {
      if user.None? {
        return [];
      }
      var uid := user.value;
      var finalGpxPath;
      if gpxFile.Some? {
        finalGpxPath := GpxPath(uid, hikeId);
      } else {
        finalGpxPath := DefaultGpxPath(uid, hikeId);
      }
      ops := [CreateHike(hikeId, CreatedDoc(uid, f)), UploadFile(finalGpxPath), SetGpxPath(hikeId, finalGpxPath)];
      var uploadOps, imageUrls := UploadPictures(uid, hikeId, url);
      ops := ops + uploadOps;
      if |imageUrls| > 0 {
        ops := ops + [SetImageUrls(hikeId, imageUrls)];
      }
    }
  }
}
