/**
 * Fetching one video in `modules/Classes.py`. `Get_Video_Info` takes the
 * first item of a `videos.list` response, keeps its JSON under
 * rotate-on-change and builds the `VideoClass` with the status the rotation
 * reports; `Get_Thumbnail` keeps the thumbnail image the same way. The API
 * response, the JSON serialiser and the image download are inputs.
 */
module Videos {
  import opened Wrappers
  import opened Values
  import Assets
  import Entities

  /** The files after the call, and the video (`None` for an empty listing) or the exception. */
  datatype Fetched = Fetched(files: Assets.Files, video: Result<Option<Entities.Video>, Failure>)

  /**
   * The first element of `response["items"]`, as `len(videos) > 0` and
   * `videos[0]` read it: `None` for an empty container.
   */
  function FirstItem(items: Value): (r: Result<Option<Value>, Failure>)
    ensures items.List? ==> r == Ok(if items.items == [] then None else Some(items.items[0]))
  {
    match items
    case List(xs) => Ok(if xs == [] then None else Some(xs[0]))
    case Str(s) => if s == "" then Ok(None) else Ok(Some(Str([s[0]])))
    case Dict(f) => if f == [] then Ok(None) else Err(KeyError("0"))
    case _ => Err(TypeError)
  }

  /** `Get_Video_Info(id)`: the video's JSON is written and rotated before `VideoClass` runs. */
  function VideoInfo(files: Assets.Files, response: Value, id: Value,
                     serialize: Value -> Assets.Bytes, hash: Assets.Bytes -> Assets.Digest): Fetched
  {
    match Subscript(response, "items")
    case Err(e) => Fetched(files, Err(e))
    case Ok(items) =>
      match FirstItem(items)
      case Err(e) => Fetched(files, Err(e))
      case Ok(None) => Fetched(files, Ok(None))
      case Ok(Some(item)) =>
        match Strip(item)
        case Err(e) => Fetched(files, Err(e))
        case Ok(video) =>
          var (after, status) := Assets.Rotate(files, Assets.Asset(Assets.VideoJson, id), serialize(video), hash);
          match Entities.NormalizeVideo(video, status)
          case Err(e) => Fetched(after, Err(e))
          case Ok(v) => Fetched(after, Ok(Some(v)))
  }

  method GetVideoInfo(files: Assets.Files, response: Value, id: Value,
                      serialize: Value -> Assets.Bytes, hash: Assets.Bytes -> Assets.Digest)
      returns (newFiles: Assets.Files, video: Result<Option<Entities.Video>, Failure>)
    ensures Fetched(newFiles, video) == VideoInfo(files, response, id, serialize, hash)
  {
    newFiles := files;
    var items := Subscript(response, "items");
    if items.Err? {
      return files, Err(items.error);
    }
    var first := FirstItem(items.value);
    if first.Err? {
      return files, Err(first.error);
    }
    if first.value.None? {
      return files, Ok(None);
    }
    var stripped := Strip(first.value.value);
    if stripped.Err? {
      return files, Err(stripped.error);
    }
    var status;
    newFiles, status := Assets.Commit(files, Assets.Asset(Assets.VideoJson, id), serialize(stripped.value), hash);
    var v := Entities.NormalizeVideo(stripped.value, status);
    if v.Err? {
      return newFiles, Err(v.error);
    }
    video := Ok(Some(v.value));
  }

  /**
   * A returned video carries the status of the rotation of its JSON: the
   * canonical file is the fresh JSON unless it was `Existing`, and no
   * temporary file is left.
   */
  lemma VideoInfoStatus(files: Assets.Files, response: Value, id: Value,
                        serialize: Value -> Assets.Bytes, hash: Assets.Bytes -> Assets.Digest)
    requires VideoInfo(files, response, id, serialize, hash).video.Ok?
    requires VideoInfo(files, response, id, serialize, hash).video.value.Some?
    ensures var f := VideoInfo(files, response, id, serialize, hash);
      var a := Assets.Asset(Assets.VideoJson, id);
      var video := Strip(FirstItem(Subscript(response, "items").value).value.value).value;
      && f.video.value.value.status == Assets.Rotate(files, a, serialize(video), hash).1
      && f.video.value.value.id == Field(video, "id")
      && Assets.Temp(a) !in f.files && Assets.Canonical(a) in f.files
      && (f.video.value.value.status != Assets.Existing ==> f.files[Assets.Canonical(a)] == serialize(video))
  {
    var video := Strip(FirstItem(Subscript(response, "items").value).value.value).value;
    Assets.TempNeverSurvives(files, Assets.Asset(Assets.VideoJson, id), serialize(video), hash);
  }

  /** Whatever the call returns or raises, every stored file but the temporary one survives. */
  lemma VideoInfoKeepsFiles(files: Assets.Files, response: Value, id: Value,
                            serialize: Value -> Assets.Bytes, hash: Assets.Bytes -> Assets.Digest, p: Assets.Path)
    requires p in files && p != Assets.Temp(Assets.Asset(Assets.VideoJson, id))
    ensures p in VideoInfo(files, response, id, serialize, hash).files
  {
    var items := Subscript(response, "items");
    if items.Ok? && FirstItem(items.value).Ok? && FirstItem(items.value).value.Some? {
      var stripped := Strip(FirstItem(items.value).value.value);
      if stripped.Ok? {
        Assets.NothingLost(files, Assets.Asset(Assets.VideoJson, id), serialize(stripped.value), hash, p);
      }
    }
  }

  /** An empty listing returns `None` and writes nothing. */
  lemma EmptyListing(files: Assets.Files, id: Value,
                     serialize: Value -> Assets.Bytes, hash: Assets.Bytes -> Assets.Digest)
    ensures VideoInfo(files, Dict([("items", List([]))]), id, serialize, hash) == Fetched(files, Ok(None))
  {
    assert Lookup([("items", List([]))], "items") == Some(List([]));
  }

  // ----- the thumbnail -----

  /**
   * `Get_Thumbnail`: an unset `thumbnail` attribute raises, a `None` URL
   * does nothing, any other URL is downloaded and rotated in.
   */
  function Thumbnail(files: Assets.Files, video: Entities.Video,
                     download: Value -> Assets.Bytes, hash: Assets.Bytes -> Assets.Digest): (r: Result<Assets.Files, Failure>)
    ensures video.thumbnail == Unset ==> r == Err(AttributeError("thumbnail"))
  {
    match video.thumbnail
    case Unset => Err(AttributeError("thumbnail"))
    case Set(url) =>
      if url == Null then Ok(files)
      else Ok(Assets.Rotate(files, Assets.Asset(Assets.Thumbnail, video.id), download(url), hash).0)
  }

  method GetThumbnail(files: Assets.Files, video: Entities.Video,
                      download: Value -> Assets.Bytes, hash: Assets.Bytes -> Assets.Digest)
      returns (r: Result<Assets.Files, Failure>)
    ensures r == Thumbnail(files, video, download, hash)
  {
    if video.thumbnail.Unset? {
      return Err(AttributeError("thumbnail"));
    }
    var url := video.thumbnail.value;
    if url == Null {
      return Ok(files);
    }
    var newFiles, _ := Assets.Commit(files, Assets.Asset(Assets.Thumbnail, video.id), download(url), hash);
    r := Ok(newFiles);
  }

  /** A video whose snippet has no `thumbnails` dictionary is built, but `Get_Thumbnail` on it raises. */
  lemma NoThumbnailsDict(files: Assets.Files, item: Value, status: Assets.Status,
                         download: Value -> Assets.Bytes, hash: Assets.Bytes -> Assets.Digest)
    requires Entities.NormalizeVideo(item, status).Ok?
    requires Field(Field(item, "snippet"), "thumbnails") == Null
    ensures Thumbnail(files, Entities.NormalizeVideo(item, status).value, download, hash) == Err(AttributeError("thumbnail"))
  {
  }
}
