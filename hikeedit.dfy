/**
 * The hike edit page (src/pages/HikeEdit.tsx): its schema, the load of the
 * stored hike into the form, the picture and GPX state its handlers keep,
 * and the writes of `onSubmit`.
 *
 * The picture state is three lists: the picked files, the thumbnails shown
 * and the stored URLs still kept.  The handlers are modelled as written
 * (`AddAsWritten`, `RemoveAsWritten`, `ImageOps`); the intended handlers,
 * which keep the thumbnails equal to the kept URLs followed by the picked
 * files, are `AddIntended`, `RemoveIntended` and `ImageOpsIntended`.
 */
module HikeEdit {
  import opened Wrappers
  import opened Seqs
  import opened HikeDocs
  import opened HikeStore
  import HikeNew

  /** The `schema` of the edit form: pictures are optional and the itinerary may be empty. */
  predicate SchemaAccepts(f: HikeForm) {
    && |f.title| >= 3
    && |f.description| >= 10
    && |f.region| >= 2
    && (f.difficulty == Easy || f.difficulty == Moderate || f.difficulty == Hard)
    && f.distanceKm > 0.0
    && f.elevationGainM >= 0.0
    && forall i :: 0 <= i < |f.itinerary| ==> |f.itinerary[i].title| >= 1 && |f.itinerary[i].description| >= 1
  }

  /** A form the creation page accepts passes the edit schema too, unless its region has one letter. */
  lemma CreatedFormsPassEdit(f: HikeForm, images: seq<File>)
    requires HikeNew.SchemaAccepts(f, images)
    ensures SchemaAccepts(f) <==> |f.region| >= 2
  {
  }

  /** The edit schema accepts a hike with no step, which the creation schema refuses. */
  lemma EditAllowsEmptyItinerary(f: HikeForm, images: seq<File>)
    requires SchemaAccepts(f) && f.itinerary == []
    ensures !HikeNew.SchemaAccepts(f, images)
  {
  }

  /** The itinerary put in the form on load: the stored steps, or one blank step when there are none. */
  function LoadedItinerary(stored: Option<seq<Step>>): (r: seq<Step>)
    ensures |r| >= 1
    ensures stored.Some? && |stored.value| > 0 ==> r == stored.value
    ensures stored.None? || |stored.value| == 0 ==> r == [Step("", "")]
  {
    if stored.Some? && |stored.value| > 0 then stored.value else [Step("", "")]
  }

  /** The form values `reset` puts in place. */
  function LoadedForm(d: HikeDoc): HikeForm {
    HikeForm(d.title, d.description, d.region, d.difficulty, d.distanceKm, d.elevationGainM, LoadedItinerary(d.itinerary))
  }

  /** A region the select does not list switches the page to the free-text region field. */
  predicate IsCustomRegion(region: string) {
    region != "" && region !in PredefinedRegions
  }

  // ---------------------------------------------------------------------------
  // The picture state and its handlers
  // ---------------------------------------------------------------------------

  /** `imageFiles`, `imagePreviews` and `existingImageUrls`. */
  datatype Images = Images(files: seq<File>, previews: seq<Preview>, existing: seq<string>)

  /** `existingImageUrls.includes(p)`: only a stored URL can be among the kept URLs. */
  predicate IsKept(existing: seq<string>, p: Preview) {
    p.Remote? && p.url in existing
  }

  function KeptFn(existing: seq<string>): Preview -> bool {
    p => IsKept(existing, p)
  }

  function DropUrl(existing: seq<string>, url: string): seq<string> {
    Filter((u: string) => u != url, existing)
  }

  /** The intended shape of the state: the kept URLs' thumbnails, then the picked files' thumbnails. */
  predicate Consistent(im: Images) {
    im.previews == Map(RemotePreview, im.existing) + Map(LocalPreview, im.files)
  }

  /** The state right after the load: the stored URLs, shown in order, and no picked file. */
  function LoadedImages(d: HikeDoc): (im: Images)
    ensures im.files == [] && im.existing == d.imageUrls.GetOr([])
    ensures Consistent(im)
  {
    var urls := d.imageUrls.GetOr([]);
    assert Map(LocalPreview, []) == [];
    Images([], Map(RemotePreview, urls), urls)
  }

  /**
   * `handleImageChange` as written: the limit counts the picked files only;
   * an accepted selection is appended to the files, and the thumbnails
   * become those of kept URLs followed by the files picked in this call.
   */
  function AddAsWritten(im: Images, selected: seq<File>): Images {
    if |im.files| + |selected| > MaxImages then im
    else Images(im.files + selected, Filter(KeptFn(im.existing), im.previews) + Map(LocalPreview, selected), im.existing)
  }

  /**
   * `removeImage(index)` as written: a kept URL shown at `index` is dropped
   * from the kept URLs (every copy of it) and its deletion requested; then
   * position `index` is dropped from both the thumbnails and the files.
   */
  function RemoveAsWritten(im: Images, index: int): Images {
    var existing :=
      if 0 <= index < |im.previews| && IsKept(im.existing, im.previews[index])
      then DropUrl(im.existing, im.previews[index].url)
      else im.existing;
    Images(RemoveAt(im.files, index), RemoveAt(im.previews, index), existing)
  }

  /** The storage deletion `removeImage(index)` asks for, if any. */
  function RemovedUrl(im: Images, index: int): (r: Option<string>)
    ensures r.Some? <==> 0 <= index < |im.previews| && IsKept(im.existing, im.previews[index])
    ensures r.Some? ==> r.value in im.existing && im.previews[index] == Remote(r.value)
  {
    if 0 <= index < |im.previews| && IsKept(im.existing, im.previews[index]) then Some(im.previews[index].url) else None
  }

  /** As written, the handlers keep at most five picked files. */
  lemma AsWrittenKeepsFileBound(im: Images, selected: seq<File>, index: int)
    requires |im.files| <= MaxImages
    ensures |AddAsWritten(im, selected).files| <= MaxImages
    ensures |RemoveAsWritten(im, index).files| <= MaxImages
    ensures |AddAsWritten(im, selected).files| == |im.files| + |selected| || AddAsWritten(im, selected) == im
  {
  }

  /**
   * Removing a kept URL drops it from the thumbnails and the kept URLs;
   * removing out of range changes nothing.
   */
  lemma RemoveAsWrittenDropsKeptUrl(im: Images, index: int)
    requires 0 <= index < |im.previews| && IsKept(im.existing, im.previews[index])
    ensures var r := RemoveAsWritten(im, index);
            im.previews[index].url !in r.existing && |r.previews| == |im.previews| - 1
  {
    var u := im.previews[index].url;
    FilterMembership((x: string) => x != u, im.existing, u);
  }

  /** Finding: picking twice keeps both files but shows only the second pick's thumbnails. */
  lemma AddAsWrittenLosesEarlierThumbnails(f1: File, f2: File)
    requires f1 != f2
    ensures var once := AddAsWritten(Images([], [], []), [f1]);
            var twice := AddAsWritten(once, [f2]);
            twice.files == [f1, f2] && twice.previews == [Local(f2)] && !Consistent(twice)
  {
    var once := AddAsWritten(Images([], [], []), [f1]);
    assert once.previews == [Local(f1)];
    assert !IsKept([], Local(f1));
    assert Filter(KeptFn([]), [Local(f1)]) == [];
  }

  /** Finding: four stored pictures and a pick of three leave seven pictures on the page. */
  lemma AddAsWrittenExceedsLimit(u: seq<string>, picked: seq<File>)
    requires |u| == 4 && |picked| == 3
    ensures var r := AddAsWritten(LoadedImages(HikeDoc("t", "d", "r", Easy, 1.0, 0.0, None, Some(u), None, None, None)), picked);
            |r.existing| + |r.files| == 7
  {
  }

  /** Finding: removing a picked file's thumbnail after a stored picture keeps that file. */
  lemma RemoveAsWrittenKeepsFile(u: string, f: File)
    ensures var im := Images([f], [Remote(u), Local(f)], [u]);
            var r := RemoveAsWritten(im, 1);
            Consistent(im) && r.files == [f] && r.previews == [Remote(u)] && !Consistent(r)
  {
    var im := Images([f], [Remote(u), Local(f)], [u]);
    assert Map(RemotePreview, [u]) == [Remote(u)];
    assert Map(LocalPreview, [f]) == [Local(f)];
    assert !IsKept([u], Local(f));
    var r := RemoveAsWritten(im, 1);
    assert r.previews == [Remote(u)];
  }

  /** The intended `handleImageChange`: the limit counts every picture shown, and earlier thumbnails stay. */
  function AddIntended(im: Images, selected: seq<File>): Images {
    if |im.existing| + |im.files| + |selected| > MaxImages then im
    else Images(im.files + selected, im.previews + Map(LocalPreview, selected), im.existing)
  }

  /**
   * The intended `removeImage(index)`: a thumbnail below the number of kept
   * URLs is a kept URL and drops that URL; above it, it drops the matching
   * picked file.
   */
  function RemoveIntended(im: Images, index: int): Images {
    var k := |im.existing|;
    if 0 <= index < k then Images(im.files, RemoveAt(im.previews, index), RemoveAt(im.existing, index))
    else if k <= index < |im.previews| then Images(RemoveAt(im.files, index - k), RemoveAt(im.previews, index), im.existing)
    else im
  }

  lemma MapAppend<T, U>(f: T -> U, s: seq<T>, t: seq<T>)
    ensures Map(f, s + t) == Map(f, s) + Map(f, t)
  {
    assert |Map(f, s + t)| == |Map(f, s) + Map(f, t)|;
    forall i | 0 <= i < |s + t| ensures Map(f, s + t)[i] == (Map(f, s) + Map(f, t))[i] {
      if i >= |s| {
        assert (s + t)[i] == t[i - |s|];
      }
    }
  }

  lemma MapRemoveAt<T, U>(f: T -> U, s: seq<T>, i: int)
    requires 0 <= i < |s|
    ensures Map(f, RemoveAt(s, i)) == RemoveAt(Map(f, s), i)
  {
    var l, r := Map(f, RemoveAt(s, i)), RemoveAt(Map(f, s), i);
    assert |l| == |r|;
    forall j | 0 <= j < |l| ensures l[j] == r[j] {
      if j >= i {
        assert RemoveAt(s, i)[j] == s[j + 1];
      }
    }
  }

  lemma AppendAssoc<T>(s: seq<T>, t: seq<T>, u: seq<T>)
    ensures (s + t) + u == s + (t + u)
  {
  }

  lemma RemoveAtAppend<T>(s: seq<T>, t: seq<T>, i: int)
    ensures 0 <= i < |s| ==> RemoveAt(s + t, i) == RemoveAt(s, i) + t
    ensures |s| <= i < |s| + |t| ==> RemoveAt(s + t, i) == s + RemoveAt(t, i - |s|)
  {
    if 0 <= i < |s| {
      assert (s + t)[..i] == s[..i];
      assert (s + t)[i + 1..] == s[i + 1..] + t;
    } else if |s| <= i < |s| + |t| {
      assert (s + t)[..i] == s + t[..i - |s|];
      assert (s + t)[i + 1..] == t[i - |s| + 1..];
    }
  }

  /** The intended `handleImageChange` keeps the thumbnails in step and the total at most five. */
  lemma AddIntendedKeepsConsistent(im: Images, selected: seq<File>)
    requires Consistent(im) && |im.existing| + |im.files| <= MaxImages
    ensures var a := AddIntended(im, selected);
            Consistent(a) && |a.existing| + |a.files| <= MaxImages
  {
    var a := AddIntended(im, selected);
    if |im.existing| + |im.files| + |selected| <= MaxImages {
      assert a.files == im.files + selected && a.previews == im.previews + Map(LocalPreview, selected);
      MapAppend(LocalPreview, im.files, selected);
      AppendAssoc(Map(RemotePreview, im.existing), Map(LocalPreview, im.files), Map(LocalPreview, selected));
    } else {
      assert a == im;
    }
  }

  /**
   * The intended `removeImage` keeps the thumbnails in step, and drops
   * exactly the thumbnail at `index`: the kept URL or the picked file it shows.
   */
  lemma RemoveIntendedKeepsConsistent(im: Images, index: int)
    requires Consistent(im) && |im.existing| + |im.files| <= MaxImages
    ensures var r := RemoveIntended(im, index);
            Consistent(r) && |r.existing| + |r.files| <= MaxImages && r.previews == RemoveAt(im.previews, index)
  {
    var rem, loc := Map(RemotePreview, im.existing), Map(LocalPreview, im.files);
    RemoveAtAppend(rem, loc, index);
    var k := |im.existing|;
    if 0 <= index < k {
      MapRemoveAt(RemotePreview, im.existing, index);
    } else if k <= index < |im.previews| {
      MapRemoveAt(LocalPreview, im.files, index - k);
    }
  }

  // ---------------------------------------------------------------------------
  // The writes of `onSubmit`
  // ---------------------------------------------------------------------------

  /** `!existingGpxPath`: no stored path, or an empty one. */
  predicate NoPath(p: Option<string>) {
    p.None? || p.value == ""
  }

  /** `finalGpxPath`: a picked file's path, the default track's when there is no stored path, else the stored one. */
  function FinalGpxPath(uid: string, hikeId: string, gpxFile: Option<File>, existing: Option<string>): (p: Option<string>)
    ensures gpxFile.Some? ==> p == Some(GpxPath(uid, hikeId))
    ensures gpxFile.None? && NoPath(existing) ==> p == Some(DefaultGpxPath(uid, hikeId))
    ensures gpxFile.None? && !NoPath(existing) ==> p == existing
  {
    if gpxFile.Some? then Some(GpxPath(uid, hikeId))
    else if NoPath(existing) then Some(DefaultGpxPath(uid, hikeId))
    else existing
  }

  /** The GPX writes: the upload of a picked file or of the default track, then the path when it changed. */
  function GpxOps(uid: string, hikeId: string, gpxFile: Option<File>, existing: Option<string>): seq<StoreOp> {
    var upload := if gpxFile.Some? then [UploadFile(GpxPath(uid, hikeId))]
                  else if NoPath(existing) then [UploadFile(DefaultGpxPath(uid, hikeId))]
                  else [];
    var p := FinalGpxPath(uid, hikeId, gpxFile, existing);
    upload + (if p != existing then [SetGpxPath(hikeId, p.value)] else [])
  }

  /** A stored track with no newly picked file is left alone: nothing is uploaded or written. */
  lemma KeptTrackWritesNothing(uid: string, hikeId: string, existing: Option<string>)
    requires !NoPath(existing)
    ensures GpxOps(uid, hikeId, None, existing) == []
  {
  }

  /** The picture writes as written: uploads in file order, then the list when its length changed or a file was picked. */
  function ImageOps(uid: string, hikeId: string, existing: seq<string>, files: seq<File>, url: string -> string): seq<StoreOp> {
    var newImageUrls := existing + Uploads(uid, hikeId, files, url);
    ImageUploadOps(uid, hikeId, files)
    + (if |newImageUrls| != |existing| || |files| > 0 then [SetImageUrls(hikeId, newImageUrls)] else [])
  }

  /** As written, the picture list is written iff a file was picked: the length test adds nothing. */
  lemma ImageListWrittenIffFilesPicked(uid: string, hikeId: string, existing: seq<string>, files: seq<File>, url: string -> string)
    ensures (exists i :: 0 <= i < |ImageOps(uid, hikeId, existing, files, url)|
                         && ImageOps(uid, hikeId, existing, files, url)[i].SetImageUrls?)
            <==> |files| > 0
  {
    var ops := ImageOps(uid, hikeId, existing, files, url);
    var ups := ImageUploadOps(uid, hikeId, files);
    if |files| > 0 {
      assert ops[|ups|].SetImageUrls?;
    } else {
      assert ops == [];
    }
  }

  /** The writes of a submit with a user and an id, in the order they are sent. */
  function SubmitOps(uid: string, hikeId: string, f: HikeForm, gpxFile: Option<File>, existingGpx: Option<string>,
                     existing: seq<string>, files: seq<File>, url: string -> string): seq<StoreOp>
  {
    [UpdateHike(hikeId, f)] + GpxOps(uid, hikeId, gpxFile, existingGpx) + ImageOps(uid, hikeId, existing, files, url)
  }

  /** The `imageUrls` a document ends with after some writes that set only pictures. */
  lemma {:induction false} PicturesAfterUploads(store: map<string, HikeDoc>, uid: string, hikeId: string, files: seq<File>, tail: seq<StoreOp>)
    ensures ApplyAll(store, ImageUploadOps(uid, hikeId, files) + tail) == ApplyAll(store, tail)
  {
    ApplyAllAppend(store, ImageUploadOps(uid, hikeId, files), tail);
    UploadsKeepDocs(store, uid, hikeId, files);
  }

  /**
   * Finding: a removal-only edit is never saved.  A hike stored with two
   * pictures, whose first picture is removed on the page, keeps both in the
   * store after the submit, though the page asked to delete the first one.
   */
  lemma RemovalOnlyEditNotSaved(store: map<string, HikeDoc>, uid: string, hikeId: string, u1: string, u2: string,
                                url: string -> string)
    requires u1 != u2 && hikeId in store && store[hikeId].imageUrls == Some([u1, u2])
    ensures var im := RemoveAsWritten(LoadedImages(store[hikeId]), 0);
            var after := ApplyAll(store, ImageOps(uid, hikeId, im.existing, im.files, url));
            RemovedUrl(LoadedImages(store[hikeId]), 0) == Some(u1)
            && im.existing == [u2]
            && after[hikeId].imageUrls == Some([u1, u2])
  {
    var im0 := LoadedImages(store[hikeId]);
    assert im0.previews == [Remote(u1), Remote(u2)];
    var im := RemoveAsWritten(im0, 0);
    assert DropUrl([u1, u2], u1) == [u2] by {
      var keep := (x: string) => x != u1;
      assert [u1, u2][0] == u1 && [u1, u2][1..] == [u2];
      assert Filter(keep, [u1, u2]) == Filter(keep, [u2]);
      assert [u2][0] == u2 && [u2][1..] == [];
      assert Filter(keep, [u2]) == [u2] + Filter(keep, []);
    }
    assert im.files == [];
    assert ImageOps(uid, hikeId, im.existing, im.files, url) == [];
  }

  /** The intended picture writes: the list is written when it differs from the one loaded. */
  function ImageOpsIntended(uid: string, hikeId: string, loaded: seq<string>, existing: seq<string>, files: seq<File>,
                            url: string -> string): seq<StoreOp> {
    var newImageUrls := existing + Uploads(uid, hikeId, files, url);
    ImageUploadOps(uid, hikeId, files)
    + (if newImageUrls != loaded then [SetImageUrls(hikeId, newImageUrls)] else [])
  }

  /**
   * With the intended writes, the stored pictures after a submit are exactly
   * the kept URLs followed by the uploads, whatever was removed.
   */
  lemma IntendedSubmitStoresShownPictures(store: map<string, HikeDoc>, uid: string, hikeId: string,
                                          loaded: seq<string>, existing: seq<string>, files: seq<File>, url: string -> string)
    requires hikeId in store && store[hikeId].imageUrls.GetOr([]) == loaded
    ensures var after := ApplyAll(store, ImageOpsIntended(uid, hikeId, loaded, existing, files, url));
            hikeId in after && after[hikeId].imageUrls.GetOr([]) == existing + Uploads(uid, hikeId, files, url)
  {
    var newImageUrls := existing + Uploads(uid, hikeId, files, url);
    var tail: seq<StoreOp> := if newImageUrls != loaded then [SetImageUrls(hikeId, newImageUrls)] else [];
    PicturesAfterUploads(store, uid, hikeId, files, tail);
    if newImageUrls != loaded {
      var last := [SetImageUrls(hikeId, newImageUrls)];
      assert last[0] == SetImageUrls(hikeId, newImageUrls) && last[1..] == [];
      assert ApplyAll(store, last) == ApplyAll(ApplyOp(store, last[0]), []);
    } else {
      assert ApplyAll(store, []) == store;
    }
  }

  datatype ImageChange = NoSelection | TooMany | Added

  /** The component state of the edit page that its handlers update. */
  class EditForm {
    var form: HikeForm
    var imageFiles: seq<File>
    var imagePreviews: seq<Preview>
    var existingImageUrls: seq<string>
    var gpxFile: Option<File>
    var existingGpxPath: Option<string>
    var showCustomRegion: bool

    function Pictures(): Images
      reads this
    {
      Images(imageFiles, imagePreviews, existingImageUrls)
    }

    /** As written, the handlers keep at most five picked files. */
    ghost predicate Valid()
      reads this
    {
      |imageFiles| <= MaxImages
    }

    /** The page before the load: the form's default values, no picture and no track. */
    constructor ()
      ensures Valid()
      ensures form == HikeForm("", "", "", "", 0.0, 0.0, [Step("", "")])
      ensures Pictures() == Images([], [], []) && gpxFile.None? && existingGpxPath.None? && !showCustomRegion
    {
      form := HikeForm("", "", "", "", 0.0, 0.0, [Step("", "")]);
      imageFiles := [];
      imagePreviews := [];
      existingImageUrls := [];
      gpxFile := None;
      existingGpxPath := None;
      showCustomRegion := false;
    }

    /**
     * `fetchHike`: with no id or no document nothing changes; otherwise the
     * form is reset from the document, its URLs are kept and shown, a
     * non-empty stored track is remembered, and a region the select does not
     * list turns on the free-text field.
     */
    method Load(hikeId: string, stored: Option<HikeDoc>)
      requires Valid()
      modifies this
      ensures Valid()
      ensures hikeId == "" || stored.None? ==>
                form == old(form) && Pictures() == old(Pictures()) && existingGpxPath == old(existingGpxPath)
                && showCustomRegion == old(showCustomRegion)
      ensures hikeId != "" && stored.Some? ==>
                && form == LoadedForm(stored.value)
                && existingImageUrls == stored.value.imageUrls.GetOr([])
                && imagePreviews == Map(RemotePreview, existingImageUrls)
                && imageFiles == old(imageFiles)
                && existingGpxPath == (if NoPath(stored.value.gpxPath) then old(existingGpxPath) else stored.value.gpxPath)
                && showCustomRegion == (old(showCustomRegion) || IsCustomRegion(stored.value.region))
      ensures gpxFile == old(gpxFile)
    {
      if hikeId == "" || stored.None? {
        return;
      }
      var data := stored.value;
      form := LoadedForm(data);
      var urls := data.imageUrls.GetOr([]);
      existingImageUrls := urls;
      imagePreviews := Map(RemotePreview, urls);
      if !NoPath(data.gpxPath) {
        existingGpxPath := data.gpxPath;
      }
      if data.region != "" && data.region !in PredefinedRegions {
        showCustomRegion := true;
      }
    }

    /** `handleImageChange`, as written. */
    method HandleImageChange(selected: Option<seq<File>>) returns (outcome: ImageChange)
      requires Valid()
      modifies this
      ensures Valid()
      ensures selected.None? ==> outcome == NoSelection && Pictures() == old(Pictures())
      ensures selected.Some? ==> Pictures() == AddAsWritten(old(Pictures()), selected.value)
      ensures selected.Some? ==> (outcome == TooMany <==> |old(imageFiles)| + |selected.value| > MaxImages)
      ensures form == old(form) && gpxFile == old(gpxFile) && existingGpxPath == old(existingGpxPath)
      ensures showCustomRegion == old(showCustomRegion)
    {
      if selected.None? {
        return NoSelection;
      }
      var files := selected.value;
      var totalFiles := |imageFiles| + |files|;
      if totalFiles > MaxImages {
        return TooMany;
      }
      var newFiles := imageFiles + files;
      var newPreviews := Filter(KeptFn(existingImageUrls), imagePreviews) + Map(LocalPreview, files);
      imageFiles := newFiles;
      imagePreviews := newPreviews;
      outcome := Added;
    }

    /** `removeImage(index)`, as written; `deleted` is the stored picture whose deletion is requested. */
    method RemoveImage(index: int) returns (deleted: Option<string>)
      requires Valid()
      modifies this
      ensures Valid()
      ensures Pictures() == RemoveAsWritten(old(Pictures()), index)
      ensures deleted == RemovedUrl(old(Pictures()), index)
      ensures form == old(form) && gpxFile == old(gpxFile) && existingGpxPath == old(existingGpxPath)
      ensures showCustomRegion == old(showCustomRegion)
    {
      deleted := None;
      if 0 <= index < |imagePreviews| {
        var preview := imagePreviews[index];
        if preview.Remote? && preview.url in existingImageUrls {
          deleted := Some(preview.url);
          existingImageUrls := DropUrl(existingImageUrls, preview.url);
        }
      }
      var newFiles := RemoveAt(imageFiles, index);
      var newPreviews := RemoveAt(imagePreviews, index);
      imageFiles := newFiles;
      imagePreviews := newPreviews;
    }

    /** `handleGpxChange`: the first picked file becomes the track; no file, no change. */
    method HandleGpxChange(first: Option<File>)
      modifies this`gpxFile
      ensures gpxFile == if first.Some? then first else old(gpxFile)
    {
      if first.Some? {
        gpxFile := first;
      }
    }

    /** `removeGpx`: forgets the picked file only; a stored track stays and is kept by the next submit. */
    method RemoveGpx()
      modifies this`gpxFile
      ensures gpxFile.None? && existingGpxPath == old(existingGpxPath)
    {
      gpxFile := None;
    }

    /** The region select's `onChange`. */
    method OnRegionSelect(value: string)
      modifies this`form, this`showCustomRegion
      ensures (form.region, showCustomRegion) == SelectRegion(value)
      ensures form == old(form).(region := form.region)
    {
      form := form.(region := value);
      if value == Other {
        showCustomRegion := true;
        form := form.(region := "");
      } else {
        showCustomRegion := false;
      }
    }

    /** The GPX part of `onSubmit`: the upload, then the path when it changed. */
    method GpxWrites(uid: string, hikeId: string) returns (ops: seq<StoreOp>)
      ensures ops == GpxOps(uid, hikeId, gpxFile, existingGpxPath)
    {
      ops := [];
      var finalGpxPath := existingGpxPath;
      if gpxFile.Some? {
        finalGpxPath := Some(GpxPath(uid, hikeId));
        ops := [UploadFile(finalGpxPath.value)];
      } else if existingGpxPath.None? || existingGpxPath.value == "" {
        finalGpxPath := Some(DefaultGpxPath(uid, hikeId));
        ops := [UploadFile(finalGpxPath.value)];
      }
      if finalGpxPath != existingGpxPath {
        ops := ops + [SetGpxPath(hikeId, finalGpxPath.value)];
      }
    }

    /** The picture loop of `onSubmit`: each picked file uploaded in order, its URL appended to the kept ones. */
    method UploadPictures(uid: string, hikeId: string, url: string -> string) returns (ops: seq<StoreOp>, newImageUrls: seq<string>)
      ensures ops == ImageUploadOps(uid, hikeId, imageFiles)
      ensures newImageUrls == existingImageUrls + Uploads(uid, hikeId, imageFiles, url)
    {
      ops := [];
      newImageUrls := existingImageUrls;
      var i := 0;
      while i < |imageFiles|
        invariant 0 <= i <= |imageFiles|
        invariant newImageUrls == existingImageUrls + Uploads(uid, hikeId, imageFiles[..i], url)
        invariant ops == ImageUploadOps(uid, hikeId, imageFiles[..i])
      {
        var path := ImagePath(uid, hikeId, imageFiles[i]);
        UploadsStep(uid, hikeId, imageFiles, i, url);
        ops := ops + [UploadFile(path)];
        newImageUrls := newImageUrls + [url(path)];
        i := i + 1;
      }
      assert imageFiles[..|imageFiles|] == imageFiles;
    }

    /**
     * `onSubmit`: without a user or an id nothing is written; otherwise the
     * form's values, the GPX writes and the picture writes, in that order.
     */
    method Submit(user: Option<string>, hikeId: string, f: HikeForm, url: string -> string) returns (ops: seq<StoreOp>)
      ensures user.None? || hikeId == "" ==> ops == []
      ensures user.Some? && hikeId != "" ==>
                ops == SubmitOps(user.value, hikeId, f, gpxFile, existingGpxPath, existingImageUrls, imageFiles, url)
    {
      if user.None? || hikeId == "" {
        return [];
      }
      var uid := user.value;
      var gpxOps := GpxWrites(uid, hikeId);
      var uploadOps, newImageUrls := UploadPictures(uid, hikeId, url);
      ops := [UpdateHike(hikeId, f)] + gpxOps + uploadOps;
      if |newImageUrls| != |existingImageUrls| || |imageFiles| > 0 {
        ops := ops + [SetImageUrls(hikeId, newImageUrls)];
      }
      assert ops == [UpdateHike(hikeId, f)] + gpxOps + ImageOps(uid, hikeId, existingImageUrls, imageFiles, url);
    }
  }
}
