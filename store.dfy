/**
 * The writes the two hike forms send, as values, and their effect on the
 * `hikes` collection.  Storage uploads and deletions are recorded in the
 * write log but do not change a document.
 */
module HikeStore {
  import opened Wrappers
  import opened HikeDocs

  /** Files picked in a file input: their name (part of the storage path) and an identity. */
  datatype File = File(name: string, handle: nat)

  /** The values a form submits (what `data` carries besides the files). */
  datatype HikeForm = HikeForm(
    title: string,
    description: string,
    region: string,
    difficulty: string,
    distanceKm: real,
    elevationGainM: real,
    itinerary: seq<Step>)

  /** A thumbnail: a stored picture's URL, or an object URL made for a picked file. */
  datatype Preview = Remote(url: string) | Local(file: File)

  function LocalPreview(f: File): Preview { Local(f) }
  function RemotePreview(url: string): Preview { Remote(url) }

  /** Most pictures a form accepts. */
  const MaxImages: nat := 5

  /** The select value that opens the free-text region field. */
  const Other: string := "other"

  /** The regions of the select, as the edit page lists them to recognise a custom region. */
  const PredefinedRegions: seq<string> := [
    "Chamonix", "Vercors", "Chartreuse", "Belledonne", "Bauges", "Queyras", "\U{C9}crins", "Vanoise",
    "Maurienne", "Tarentaise", "Oisans", "Brian\U{E7}onnais", "Val d\U{2019}Aran", "Pyr\U{E9}n\U{E9}es Centrales",
    "Corse", "Massif Central", "Jura", "Vosges"]

  /**
   * The region select's handler in both forms: choosing `other` clears the
   * region and shows the free-text field; any other choice becomes the
   * region and hides it.
   */
  function SelectRegion(value: string): (r: (string, bool))
    ensures r.1 <==> value == Other
    ensures r.0 == (if value == Other then "" else value)
  {
    if value != Other then (value, false) else ("", true)
  }

  datatype StoreOp =
    | CreateHike(id: string, doc: HikeDoc)
    | UpdateHike(id: string, form: HikeForm)
    | SetGpxPath(id: string, path: string)
    | SetImageUrls(id: string, urls: seq<string>)
    | UploadFile(path: string)
    | DeleteFile(url: string)

  /** The storage path of a chosen GPX file. */
  function GpxPath(uid: string, hikeId: string): string {
    "uploads/gpx/" + uid + "/" + hikeId + ".gpx"
  }

  /** The storage path of the default track uploaded when no file was chosen. */
  function DefaultGpxPath(uid: string, hikeId: string): string {
    "uploads/gpx/" + uid + "/" + hikeId + "-default.gpx"
  }

  /** The two GPX paths never coincide: a chosen file never overwrites the default track. */
  lemma GpxPathsDiffer(uid: string, hikeId: string)
    ensures GpxPath(uid, hikeId) != DefaultGpxPath(uid, hikeId)
  {
    var p, q := GpxPath(uid, hikeId), DefaultGpxPath(uid, hikeId);
    var k := |"uploads/gpx/" + uid + "/" + hikeId|;
    assert p[k] == '.';
    assert q[k] == '-';
  }

  function ImagePath(uid: string, hikeId: string, f: File): string {
    "uploads/images/" + uid + "/" + hikeId + "/" + f.name
  }

  /** The download URLs of the uploaded pictures, in file order (`url` stands for `getDownloadURL`). */
  function Uploads(uid: string, hikeId: string, files: seq<File>, url: string -> string): (r: seq<string>)
    ensures |r| == |files|
    ensures forall i :: 0 <= i < |files| ==> r[i] == url(ImagePath(uid, hikeId, files[i]))
  {
    if files == [] then []
    else Uploads(uid, hikeId, files[..|files| - 1], url) + [url(ImagePath(uid, hikeId, files[|files| - 1]))]
  }

  /** The storage uploads of the pictures, in file order. */
  function ImageUploadOps(uid: string, hikeId: string, files: seq<File>): (r: seq<StoreOp>)
    ensures |r| == |files|
    ensures forall i :: 0 <= i < |files| ==> r[i] == UploadFile(ImagePath(uid, hikeId, files[i]))
  {
    if files == [] then []
    else ImageUploadOps(uid, hikeId, files[..|files| - 1]) + [UploadFile(ImagePath(uid, hikeId, files[|files| - 1]))]
  }

  lemma UploadsStep(uid: string, hikeId: string, files: seq<File>, k: int, url: string -> string)
    requires 0 <= k < |files|
    ensures Uploads(uid, hikeId, files[..k + 1], url) == Uploads(uid, hikeId, files[..k], url) + [url(ImagePath(uid, hikeId, files[k]))]
    ensures ImageUploadOps(uid, hikeId, files[..k + 1]) == ImageUploadOps(uid, hikeId, files[..k]) + [UploadFile(ImagePath(uid, hikeId, files[k]))]
  {
    assert files[..k + 1][..k] == files[..k];
  }

  /** A write applied to the collection; writes to a missing document fail and change nothing. */
  function ApplyOp(store: map<string, HikeDoc>, op: StoreOp): map<string, HikeDoc> {
    match op
    case CreateHike(id, d) => store[id := d]
    case UpdateHike(id, f) =>
      if id in store then
        store[id := store[id].(title := f.title, description := f.description, region := f.region,
                               difficulty := f.difficulty, distanceKm := f.distanceKm,
                               elevationGainM := f.elevationGainM, itinerary := Some(f.itinerary))]
      else store
    case SetGpxPath(id, p) => if id in store then store[id := store[id].(gpxPath := Some(p))] else store
    case SetImageUrls(id, u) => if id in store then store[id := store[id].(imageUrls := Some(u))] else store
    case UploadFile(_) => store
    case DeleteFile(_) => store
  }

  function ApplyAll(store: map<string, HikeDoc>, ops: seq<StoreOp>): map<string, HikeDoc>
    decreases ops
  {
    if ops == [] then store else ApplyAll(ApplyOp(store, ops[0]), ops[1..])
  }

  lemma {:induction false} ApplyAllAppend(store: map<string, HikeDoc>, ops1: seq<StoreOp>, ops2: seq<StoreOp>)
    ensures ApplyAll(store, ops1 + ops2) == ApplyAll(ApplyAll(store, ops1), ops2)
    decreases ops1
  {
    if ops1 == [] {
      assert ops1 + ops2 == ops2;
    } else {
      assert (ops1 + ops2)[1..] == ops1[1..] + ops2;
      ApplyAllAppend(ApplyOp(store, ops1[0]), ops1[1..], ops2);
    }
  }

  /** Storage uploads leave every document as it was. */
  lemma {:induction false} UploadsKeepDocs(store: map<string, HikeDoc>, uid: string, hikeId: string, files: seq<File>)
    ensures ApplyAll(store, ImageUploadOps(uid, hikeId, files)) == store
  {
    if files != [] {
      var pre := files[..|files| - 1];
      UploadsKeepDocs(store, uid, hikeId, pre);
      ApplyAllAppend(store, ImageUploadOps(uid, hikeId, pre), [UploadFile(ImagePath(uid, hikeId, files[|files| - 1]))]);
    }
  }
}
