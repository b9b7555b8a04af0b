/**
 * The older synchroniser in the root `Classes.py`, which `Main.py` drives.
 * Decoded JSON is first turned into attribute objects (`SimpleNamespace`);
 * videos are listed page by page and stored with their thumbnails, and a
 * video's chat is stored message by message, with the crash file
 * overwritten by the messages of this call alone.
 */
module Legacy {
  import opened Wrappers
  import opened Values
  import opened Store
  import Assets
  import Entities
  import Chat

  // ----- attribute objects -----

  /** What `_NamespaceConvert` builds: namespaces for dicts, lists for lists, anything else as it was. */
  datatype Obj =
    | Namespace(attrs: seq<(string, Obj)>)
    | Seq(items: seq<Obj>)
    | Scalar(v: Value)

  /** `_NamespaceConvert(json_input)`. */
  function Convert(v: Value): (o: Obj)
    ensures v.Dict? <==> o.Namespace?
    ensures v.List? <==> o.Seq?
    ensures !v.Dict? && !v.List? ==> o == Scalar(v)
  {
    match v
    case Dict(f) => Namespace(seq(|f|, i requires 0 <= i < |f| => (f[i].0, Convert(f[i].1))))
    case List(xs) => Seq(seq(|xs|, i requires 0 <= i < |xs| => Convert(xs[i])))
    case _ => Scalar(v)
  }

  /** The JSON value an object stands for (what `json.dumps` or a query parameter sees). */
  function Plain(o: Obj): Value {
    match o
    case Namespace(a) => Dict(seq(|a|, i requires 0 <= i < |a| => (a[i].0, Plain(a[i].1))))
    case Seq(xs) => List(seq(|xs|, i requires 0 <= i < |xs| => Plain(xs[i])))
    case Scalar(v) => v
  }

  /** The conversion keeps every key, every element and their order: it loses nothing. */
  lemma {:induction false} PlainConvert(v: Value)
    ensures Plain(Convert(v)) == v
  {
    match v
    case Dict(f) =>
      forall i | 0 <= i < |f|
        ensures Plain(Convert(f[i].1)) == f[i].1
      {
        PlainConvert(f[i].1);
      }
    case List(xs) =>
      forall i | 0 <= i < |xs|
        ensures Plain(Convert(xs[i])) == xs[i]
      {
        PlainConvert(xs[i]);
      }
    case _ =>
  }

  /** The first attribute of that name. */
  function Find(attrs: seq<(string, Obj)>, name: string): Option<Obj> {
    if attrs == [] then None
    else if attrs[0].0 == name then Some(attrs[0].1)
    else Find(attrs[1..], name)
  }

  /** `o.name`: only a namespace has the attributes of the JSON. */
  function Attr(o: Obj, name: string): (r: Result<Obj, Failure>)
    ensures r.Err? ==> r.error == AttributeError(name)
  {
    if o.Namespace? && Find(o.attrs, name).Some? then Ok(Find(o.attrs, name).value)
    else Err(AttributeError(name))
  }

  /** `name in dir(o)`, for the names the code asks about. */
  predicate HasAttr(o: Obj, name: string) {
    Attr(o, name).Ok?
  }

  /** An attribute of a converted dict is its entry, converted. */
  lemma {:induction false} AttrOfConverted(f: seq<(string, Value)>, name: string)
    ensures Attr(Convert(Dict(f)), name)
      == match Lookup(f, name) case Some(x) => Ok(Convert(x)) case None => Err(AttributeError(name))
    decreases |f|
  {
    if f != [] {
      assert Convert(Dict(f)).attrs[1..] == Convert(Dict(f[1..])).attrs;
      AttrOfConverted(f[1..], name);
    }
  }

  // ----- `VideoClass` -----

  /** The attributes `VideoClass` keeps, and its `entry`. */
  datatype Video = Video(id: Obj, publishDate: Obj, title: Obj, urlId: Obj, thumbnail: Slot<Obj>, entry: Row)

  /** The thumbnail sizes, best first. */
  const Resolutions: seq<string> := ["maxres", "standard", "high", "medium", "default"]

  /** The `url` of the first size present; with none, `thumbnail` is never assigned. */
  function BestThumbnail(thumbs: Obj, sizes: seq<string>): (r: Result<Slot<Obj>, Failure>)
    ensures r == Ok(Unset) <==> forall j :: 0 <= j < |sizes| ==> !HasAttr(thumbs, sizes[j])
    decreases |sizes|
  {
    if sizes == [] then Ok(Unset)
    else if HasAttr(thumbs, sizes[0]) then
      var url :- Attr(Attr(thumbs, sizes[0]).value, "url");
      Ok(Set(url))
    else BestThumbnail(thumbs, sizes[1..])
  }

  /** The size chosen is the first one present, whatever the later ones hold. */
  lemma {:induction false} BestThumbnailFirst(thumbs: Obj, sizes: seq<string>, k: nat)
    requires k < |sizes| && HasAttr(thumbs, sizes[k])
    requires forall j :: 0 <= j < k ==> !HasAttr(thumbs, sizes[j])
    ensures BestThumbnail(thumbs, sizes)
      == match Attr(Attr(thumbs, sizes[k]).value, "url") case Ok(u) => Ok(Set(u)) case Err(e) => Err(e)
    decreases k
  {
    if k > 0 {
      BestThumbnailFirst(thumbs, sizes[1..], k - 1);
    }
  }

  /** `VideoClass(video)`; the handler re-raises what the `try` raised. */
  function VideoOf(video: Value): (r: Result<Video, Failure>)
    ensures !video.Dict? ==> r == Err(AttributeError("id"))
    ensures r.Ok? ==> DistinctKeys(r.value.entry)
    ensures r.Ok? ==> Lookup(r.value.entry, "id") == Some(Plain(r.value.id))
  {
    var data := Convert(video);
    var id :- Attr(data, "id");
    var snippet :- Attr(data, "snippet");
    var published :- Attr(snippet, "publishedAt");
    var title :- Attr(snippet, "title");
    var resource :- Attr(snippet, "resourceId");
    var urlId :- Attr(resource, "videoId");
    var thumbs :- Attr(snippet, "thumbnails");
    var thumbnail :- BestThumbnail(thumbs, Resolutions);
    Ok(Video(id, published, title, urlId, thumbnail,
             [("id", Plain(id)), ("title", Plain(title)), ("videoId", Plain(urlId)), ("publishedAt", Plain(published))]))
  }

  // ----- `MessageClass` -----

  /** The attributes of `MessageClass` the store needs, and its `entry`. */
  datatype Message = Message(id: Obj, userId: Obj, memberMonths: Value, entry: Row)

  /** `s in o`: a namespace is not iterable, a list compares its elements with `s`. */
  function ObjContains(o: Obj, s: string): Result<bool, Failure> {
    match o
    case Namespace(_) => Err(TypeError)
    case Seq(xs) => Ok(Scalar(Str(s)) in xs)
    case Scalar(v) => Contains(v, s)
  }

  /** `_Membership_Level(badge_data)`: "New member" 0, "month" its first integer, "year" twelve times it, else `None`. */
  function Level(title: Obj): Result<Value, Failure> {
    if title == Scalar(Str("New member")) then Ok(Int(0))
    else
      var month :- ObjContains(title, "month");
      if month then
        var n :- FirstInteger(Plain(title));
        Ok(Int(n))
      else
        var year :- ObjContains(title, "year");
        if year then
          var n :- FirstInteger(Plain(title));
          Ok(Int(n * 12))
        else Ok(Null)
  }

  /**
   * `_Membership_Level(badges[0].title)`. An empty list or string has no
   * first badge; the first character of a string has a `title` method,
   * which `in` then rejects; nothing else can be indexed.
   */
  function FirstBadgeLevel(badges: Obj): Result<Value, Failure> {
    match badges
    case Seq(items) =>
      if items == [] then Err(IndexError)
      else if items[0].Scalar? && items[0].v.Str? then Err(TypeError)
      else
        var title :- Attr(items[0], "title");
        Level(title)
    case Scalar(Str(s)) => if s == "" then Err(IndexError) else Err(TypeError)
    case _ => Err(TypeError)
  }

  /** On a title that is neither null nor a dict, the legacy reading agrees with the tenure rules of `modules/Classes.py`. */
  lemma LevelAgreesWithTenure(title: Value)
    requires title != Null && !title.Dict?
    ensures Level(Convert(title))
      == match Entities.TenureOf(title) case Ok(Some(n)) => Ok(Int(n)) case Ok(None) => Ok(Null) case Err(e) => Err(e)
  {
    PlainConvert(title);
    if title.List? {
      forall s: string
        ensures Scalar(Str(s)) in Convert(title).items <==> Str(s) in title.items
      {
        if Str(s) in title.items {
          var i :| 0 <= i < |title.items| && title.items[i] == Str(s);
          assert Convert(title).items[i] == Scalar(Str(s));
        }
        if Scalar(Str(s)) in Convert(title).items {
          var i :| 0 <= i < |Convert(title).items| && Convert(title).items[i] == Scalar(Str(s));
          assert Convert(title.items[i]) == Scalar(Str(s));
        }
      }
    }
  }

  /**
   * Only the first badge is read: a first badge whose title decides nothing
   * gives `None` whatever badges follow, where the scan of
   * `modules/Classes.py` goes on to them.
   */
  lemma FirstBadgeOnly(badges: seq<Value>, title: Value)
    requires badges != [] && badges[0].Dict? && Lookup(badges[0].fields, "title") == Some(title)
    requires title != Null && !title.Dict?
    ensures FirstBadgeLevel(Convert(List(badges))) == Level(Convert(title))
    ensures Entities.TenureOf(title) == Ok(None) ==>
      FirstBadgeLevel(Convert(List(badges))) == Ok(Null) &&
      Entities.MembershipLevel(badges) == Entities.MembershipLevel(badges[1..])
  {
    assert Convert(List(badges)).items[0] == Convert(badges[0]);
    AttrOfConverted(badges[0].fields, "title");
    LevelAgreesWithTenure(title);
  }

  /**
   * `MessageClass(message, video)`. A message without `message_id` makes the
   * handler read the unassigned `self.id`, which raises in its place.
   */
  function MessageOf(message: Value, video: Video): (r: Result<Message, Failure>)
    ensures !HasAttr(Convert(message), "message_id") ==> r == Err(AttributeError("id"))
    ensures r.Ok? ==> Lookup(r.value.entry, "message_id") == Some(Plain(r.value.id))
  {
    var data := Convert(message);
    if !HasAttr(data, "message_id") then Err(AttributeError("id"))
    else
      var id := Attr(data, "message_id").value;
      var text :- Attr(data, "message");
      var time :- Attr(data, "timestamp");
      var relative := if HasAttr(data, "time_in_seconds") then Attr(data, "time_in_seconds").value else Scalar(Null);
      var kind :- Attr(data, "message_type");
      var author :- Attr(data, "author");
      var userId :- Attr(author, "id");
      var userName :- Attr(author, "name");
      var months :- if HasAttr(author, "badges") then FirstBadgeLevel(Attr(author, "badges").value) else Ok(Int(-1));
      Ok(Message(id, userId, months, [("message_id", Plain(id))] + MessageColumns(text, time, relative, kind, video.urlId, userId, userName, months)))
  }

  /** The columns of a message's `entry` after its id. */
  function MessageColumns(text: Obj, time: Obj, relative: Obj, kind: Obj, urlId: Obj, userId: Obj, userName: Obj, months: Value): Row {
    [("message", Plain(text)), ("timestamp", Plain(time)), ("time_in_seconds", Plain(relative)), ("type", Plain(kind)),
     ("video_id", Plain(urlId)), ("user_id", Plain(userId)), ("user_name", Plain(userName)), ("user_member_status", months)]
  }

  // ----- `Get_All_Videos` -----

  /** `next_page` after a later page: a page without a token ends the listing. */
  function TokenAfter(page: Value): Value {
    match Subscript(page, "nextPageToken")
    case Ok(t) => t
    case Err(_) => Null
  }

  /** `video_list + items`: lists and strings concatenate, anything else raises. */
  function Concat(a: Value, b: Value): (r: Result<Value, Failure>)
    ensures a.List? && b.List? ==> r == Ok(List(a.items + b.items))
  {
    if a.List? && b.List? then Ok(List(a.items + b.items))
    else if a.Str? && b.Str? then Ok(Str(a.s + b.s))
    else Err(TypeError)
  }

  /** The `while True` loop: fetch the next page while the token is not `None`. */
  function Follow(token: Value, list: Value, pages: seq<Value>): Result<Value, Failure>
    decreases |pages|
  {
    if token == Null then Ok(list)
    else if pages == [] then Err(ListingUnfinished)
    else
      var items :- Subscript(pages[0], "items");
      var joined :- Concat(list, items);
      Follow(TokenAfter(pages[0]), joined, pages[1..])
  }

  /**
   * `video_list`, given the first response and the responses to the later
   * requests in order. The first page must carry a token, and its items
   * must have a length for the log line.
   */
  function Listing(first: Value, pages: seq<Value>): (r: Result<Value, Failure>)
    ensures Subscript(first, "nextPageToken").Err? ==> r == Err(Subscript(first, "nextPageToken").error)
  {
    var token :- Subscript(first, "nextPageToken");
    var items :- Subscript(first, "items");
    if !(items.Str? || items.List? || items.Dict?) then Err(TypeError)
    else Follow(token, items, pages)
  }

  /** The page's `items` are a list. */
  predicate ListPage(page: Value) {
    Subscript(page, "items").Ok? && Subscript(page, "items").value.List?
  }

  /** The items of a page whose items are a list. */
  function ItemsOf(page: Value): seq<Value>
    requires ListPage(page)
  {
    Subscript(page, "items").value.items
  }

  /** The item lists of the pages, one after another. */
  function Joined(pages: seq<Value>): seq<Value>
    requires forall j :: 0 <= j < |pages| ==> ListPage(pages[j])
  {
    if pages == [] then [] else ItemsOf(pages[0]) + Joined(pages[1..])
  }

  /** The first page after which no token comes: the `k`-th, or none at all when `k` is 0. */
  predicate StopsAt(token: Value, pages: seq<Value>, k: nat) {
    && k <= |pages|
    && (k == 0 <==> token == Null)
    && (k > 0 ==> TokenAfter(pages[k - 1]) == Null)
    && (forall j :: 0 <= j < k - 1 ==> TokenAfter(pages[j]) != Null)
  }

  /** One fetched page of list items. */
  lemma FollowStep(token: Value, xs: seq<Value>, pages: seq<Value>)
    requires token != Null && pages != [] && ListPage(pages[0])
    ensures Follow(token, List(xs), pages) == Follow(TokenAfter(pages[0]), List(xs + ItemsOf(pages[0])), pages[1..])
  {
  }

  /** The first `k` pages are the first page and the next `k - 1`. */
  lemma JoinedHead(pages: seq<Value>, k: nat)
    requires 0 < k <= |pages|
    requires forall j :: 0 <= j < k ==> ListPage(pages[j])
    ensures forall j :: 0 <= j < k - 1 ==> ListPage(pages[1..][j])
    ensures Joined(pages[..k]) == ItemsOf(pages[0]) + Joined(pages[1..][..k - 1])
  {
    assert pages[..k][1..] == pages[1..][..k - 1];
    assert pages[..k][0] == pages[0];
  }

  /** Past a page that carries a token, the stop is one page earlier. */
  lemma StopsAtTail(token: Value, pages: seq<Value>, k: nat)
    requires StopsAt(token, pages, k) && k > 0
    ensures StopsAt(TokenAfter(pages[0]), pages[1..], k - 1)
  {
    assert forall j :: 0 <= j < |pages[1..]| ==> pages[1..][j] == pages[j + 1];
  }

  /** The listing is the in-order concatenation of the pages up to the first without a token. */
  lemma {:induction false} FollowJoins(token: Value, xs: seq<Value>, pages: seq<Value>, k: nat)
    requires StopsAt(token, pages, k)
    requires forall j :: 0 <= j < k ==> ListPage(pages[j])
    ensures Follow(token, List(xs), pages) == Ok(List(xs + Joined(pages[..k])))
    decreases k
  {
    if k == 0 {
      assert pages[..0] == [];
      assert xs + [] == xs;
    } else {
      assert ListPage(pages[0]);
      JoinedHead(pages, k);
      StopsAtTail(token, pages, k);
      FollowJoins(TokenAfter(pages[0]), xs + ItemsOf(pages[0]), pages[1..], k - 1);
      JoinStep(token, xs, pages, k);
    }
  }

  /** The listing after the first page, extended by that page's items. */
  lemma JoinStep(token: Value, xs: seq<Value>, pages: seq<Value>, k: nat)
    requires 0 < k <= |pages| && token != Null
    requires forall j :: 0 <= j < k ==> ListPage(pages[j])
    requires Follow(TokenAfter(pages[0]), List(xs + ItemsOf(pages[0])), pages[1..]) ==
      Ok(List(xs + ItemsOf(pages[0]) + Joined(pages[1..][..k - 1])))
    ensures Follow(token, List(xs), pages) == Ok(List(xs + Joined(pages[..k])))
  {
    FollowStep(token, xs, pages);
    JoinedHead(pages, k);
    var later := Joined(pages[1..][..k - 1]);
    assert xs + ItemsOf(pages[0]) + later == xs + (ItemsOf(pages[0]) + later);
  }

  /** Responses that all carry a token leave the listing unfinished. */
  lemma {:induction false} FollowUnfinished(token: Value, xs: seq<Value>, pages: seq<Value>)
    requires token != Null
    requires forall j :: 0 <= j < |pages| ==> ListPage(pages[j]) && TokenAfter(pages[j]) != Null
    ensures Follow(token, List(xs), pages) == Err(ListingUnfinished)
    decreases |pages|
  {
    if pages != [] {
      assert ListPage(pages[0]) && TokenAfter(pages[0]) != Null;
      FollowStep(token, xs, pages);
      assert forall j :: 0 <= j < |pages[1..]| ==> pages[1..][j] == pages[j + 1];
      FollowUnfinished(TokenAfter(pages[0]), xs + ItemsOf(pages[0]), pages[1..]);
    }
  }

  /** The files the legacy code writes under the data directory, named by `url_id`. */
  datatype File = AllVideos | VideoFile(urlId: Value) | ThumbnailFile(urlId: Value) | MessagesFile(urlId: Value)

  type Files = map<File, Assets.Bytes>

  /** The collaborators: `json.dumps` and the thumbnail download. */
  datatype Env = Env(serialize: Value -> Assets.Bytes, download: Value -> Assets.Bytes)

  /** The store and files after a step, and the exception that ended it, if any. */
  datatype Step = Step(tables: Tables, files: Files, failure: Option<Failure>)

  /** The skip test: the video's file exists and a `videos` row with its `videoId` is processed. */
  predicate Skipped(tables: Tables, files: Files, v: Video) {
    && VideoFile(Plain(v.urlId)) in files
    && Select(TableOf(tables, VideoTable), Some([("videoId", Plain(v.urlId)), ("processed", Bool(true))])) != []
  }

  /** Insert the entry when no row has the video's id, otherwise update it column by column. */
  function Upsert(tables: Tables, v: Video): Tables {
    if Absent(tables, VideoTable, "id", Plain(v.id)) then AfterInsert(tables, VideoTable, [v.entry], "")
    else UpdateColumns(tables, VideoTable, v.entry, "id", Plain(v.id))
  }

  /**
   * One turn of `for video in video_list`. The thumbnail file is opened
   * for writing before the URL is read, so a video without one leaves an
   * empty file and raises.
   */
  function Visit(tables: Tables, files: Files, item: Value, env: Env): Step {
    match VideoOf(item)
    case Err(e) => Step(tables, files, Some(e))
    case Ok(v) =>
      if Skipped(tables, files, v) then Step(tables, files, None)
      else
        var url := Plain(v.urlId);
        var created := files[VideoFile(url) := env.serialize(item)][ThumbnailFile(url) := []];
        match v.thumbnail
        case Unset => Step(tables, created, Some(AttributeError("thumbnail")))
        case Set(u) => Step(Upsert(tables, v), created[ThumbnailFile(url) := env.download(Plain(u))], None)
  }

  /** The loop over `video_list`; an exception ends it. */
  function VisitAll(tables: Tables, files: Files, items: seq<Value>, env: Env): Step
    decreases |items|
  {
    if items == [] then Step(tables, files, None)
    else
      var s := Visit(tables, files, items[0], env);
      if s.failure.Some? then s else VisitAll(s.tables, s.files, items[1..], env)
  }
  /** One step of the video loop: the first video's visit, then the rest unless it raised. */
  lemma VisitAllStep(tables: Tables, files: Files, items: seq<Value>, env: Env)
    requires items != []
    ensures var s := Visit(tables, files, items[0], env);
      VisitAll(tables, files, items, env) == if s.failure.Some? then s else VisitAll(s.tables, s.files, items[1..], env)
  {
  }


  /** `Get_All_Videos()`: list, write `__All_Videos.json`, then visit every video. */
  function AllVideosRun(tables: Tables, files: Files, first: Value, pages: seq<Value>, env: Env): Step {
    match Listing(first, pages)
    case Err(e) => Step(tables, files, Some(e))
    case Ok(list) =>
      var written := files[AllVideos := env.serialize(list)];
      match Iterate(list)
      case Err(e) => Step(tables, written, Some(e))
      case Ok(items) => VisitAll(tables, written, items, env)
  }

  /** A video is skipped exactly when its file exists and it is processed; otherwise its file and thumbnail are written. */
  lemma SkipRule(tables: Tables, files: Files, item: Value, env: Env)
    requires VideoOf(item).Ok?
    ensures var v := VideoOf(item).value;
      var s := Visit(tables, files, item, env);
      var url := Plain(v.urlId);
      && (Skipped(tables, files, v) ==> s == Step(tables, files, None))
      && (!Skipped(tables, files, v) ==>
            && s.files[VideoFile(url)] == env.serialize(item)
            && s.files[ThumbnailFile(url)] == (if v.thumbnail.Set? then env.download(Plain(v.thumbnail.value)) else [])
            && (s.failure.None? <==> v.thumbnail.Set?))
  {
  }

  /**
   * A stored video: every `videos` row with its id carries its entry, and
   * there is one, whether it was inserted or updated.
   */
  lemma VisitStores(tables: Tables, files: Files, item: Value, env: Env)
    requires VideoOf(item).Ok? && Plain(VideoOf(item).value.id) != Null
    requires !Skipped(tables, files, VideoOf(item).value) && VideoOf(item).value.thumbnail.Set?
    ensures var v := VideoOf(item).value;
      var s := Visit(tables, files, item, env);
      Carries(s.tables, VideoTable, Plain(v.id), v.entry) && !Absent(s.tables, VideoTable, "id", Plain(v.id))
  {
    var v := VideoOf(item).value;
    var id := Plain(v.id);
    if Absent(tables, VideoTable, "id", id) {
      InsertCarries(tables, VideoTable, v.entry, id);
    } else {
      forall k | 0 <= k < |v.entry| && v.entry[k].0 == "id"
        ensures v.entry[k].1 == id
      {
        LookupDistinct(v.entry, k);
      }
      UpdateCarries(tables, VideoTable, v.entry, id);
    }
  }

  // ----- `Get_All_Videos`, step by step -----

  /** The pagination loop, rebinding `next_page` and `video_list`. */
  method ListVideos(first: Value, pages: seq<Value>) returns (r: Result<Value, Failure>)
    ensures r == Listing(first, pages)
  {
    var token := Subscript(first, "nextPageToken");
    if token.Err? {
      return Err(token.error);
    }
    var items := Subscript(first, "items");
    if items.Err? {
      return Err(items.error);
    }
    if !(items.value.Str? || items.value.List? || items.value.Dict?) {
      return Err(TypeError);
    }
    ghost var goal := Follow(token.value, items.value, pages);
    var nextPage := token.value;
    var videoList := items.value;
    var i := 0;
    while nextPage != Null
      invariant 0 <= i <= |pages|
      invariant Follow(nextPage, videoList, pages[i..]) == goal
      decreases |pages| - i
    {
      if i == |pages| {
        return Err(ListingUnfinished);
      }
      assert pages[i..][1..] == pages[i + 1..];
      var next := pages[i];
      var tok := Subscript(next, "nextPageToken");
      if tok.Ok? {
        nextPage := tok.value;
      } else {
        nextPage := Null;
      }
      var more := Subscript(next, "items");
      if more.Err? {
        return Err(more.error);
      }
      var joined := Concat(videoList, more.value);
      if joined.Err? {
        return Err(joined.error);
      }
      videoList := joined.value;
      i := i + 1;
    }
    return Ok(videoList);
  }

  /** One turn of `for video in video_list` against the database. */
  method VisitOne(db: Database, files: Files, item: Value, env: Env) returns (newFiles: Files, failure: Option<Failure>)
    modifies db
    ensures Step(db.tables, newFiles, failure) == Visit(old(db.tables), files, item, env)
  {
    newFiles := files;
    var v := VideoOf(item);
    if v.Err? {
      return files, Some(v.error);
    }
    var vid := v.value;
    var url := Plain(vid.urlId);
    var processed := db.GetEntries(VideoTable, Only(["processed"]), Some([("videoId", url), ("processed", Bool(true))]));
    if VideoFile(url) in files && |processed| > 0 {
      return files, None;
    }
    newFiles := files[VideoFile(url) := env.serialize(item)];
    newFiles := newFiles[ThumbnailFile(url) := []];
    if vid.thumbnail.Unset? {
      return newFiles, Some(AttributeError("thumbnail"));
    }
    newFiles := newFiles[ThumbnailFile(url) := env.download(Plain(vid.thumbnail.value))];
    var existing := db.GetEntries(VideoTable, All, Some([("id", Plain(vid.id))]));
    if |existing| == 0 {
      var _ := db.InsertEntries(VideoTable, [vid.entry], "");
    } else {
      UpdateEach(db, VideoTable, vid.entry, "id", Plain(vid.id));
    }
    failure := None;
  }

  /** `Get_All_Videos()` against the database and the files. */
  method GetAllVideos(db: Database, files: Files, first: Value, pages: seq<Value>, env: Env)
      returns (newFiles: Files, failure: Option<Failure>)
    modifies db
    ensures Step(db.tables, newFiles, failure) == AllVideosRun(old(db.tables), files, first, pages, env)
  {
    var list := ListVideos(first, pages);
    if list.Err? {
      return files, Some(list.error);
    }
    newFiles := files[AllVideos := env.serialize(list.value)];
    var items := Iterate(list.value);
    if items.Err? {
      return newFiles, Some(items.error);
    }
    newFiles, failure := VisitEach(db, newFiles, items.value, env);
  }

  /** The `for video in tqdm(video_list)` loop. */
  method VisitEach(db: Database, files: Files, items: seq<Value>, env: Env) returns (newFiles: Files, failure: Option<Failure>)
    modifies db
    ensures Step(db.tables, newFiles, failure) == VisitAll(old(db.tables), files, items, env)
  {
    newFiles := files;
    ghost var goal := VisitAll(db.tables, newFiles, items, env);
    failure := None;
    var i := 0;
    while i < |items| && failure.None?
      invariant 0 <= i <= |items|
      invariant failure.None? ==> VisitAll(db.tables, newFiles, items[i..], env) == goal
      invariant failure.Some? ==> Step(db.tables, newFiles, failure) == goal
    {
      VisitAllStep(db.tables, newFiles, items[i..], env);
      assert items[i..][0] == items[i] && items[i..][1..] == items[i + 1..];
      newFiles, failure := VisitOne(db, newFiles, items[i], env);
      i := i + 1;
    }
    if failure.None? {
      assert items[i..] == [];
    }
  }


  // ----- `Get_Messages` -----

  /** The four counters of one call; `exist_user_ids` counts messages, not distinct users. */
  datatype Tally = Tally(newUsers: nat, existUsers: nat, newMessages: nat, existMessages: nat)

  /** How many messages the counters have seen, once through each of the two checks. */
  predicate Balanced(tally: Tally, n: nat) {
    tally.newUsers + tally.existUsers == n && tally.newMessages + tally.existMessages == n
  }

  /** The author's `user_ids` row, inserted only when no row has that id. */
  function AddUser(tables: Tables, tally: Tally, m: Message): (Tables, Tally) {
    var uid := Plain(m.userId);
    if Absent(tables, UserIds, "id", uid) then (AfterInsert(tables, UserIds, [[("id", uid)]], ""), tally.(newUsers := tally.newUsers + 1))
    else (tables, tally.(existUsers := tally.existUsers + 1))
  }

  /** The message's row, inserted only when no row has its `message_id`. */
  function AddMessage(tables: Tables, tally: Tally, m: Message): (Tables, Tally) {
    var mid := Plain(m.id);
    if Absent(tables, Messages, "message_id", mid) then (AfterInsert(tables, Messages, [m.entry], ""), tally.(newMessages := tally.newMessages + 1))
    else (tables, tally.(existMessages := tally.existMessages + 1))
  }

  /** Both checks for one message: its author, then the message itself. */
  function Absorb(tables: Tables, tally: Tally, m: Message): (Tables, Tally) {
    var (t1, c1) := AddUser(tables, tally, m);
    AddMessage(t1, c1, m)
  }

  /** `after` counts one more message than `before` through each check. */
  predicate Bumps(before: Tally, after: Tally) {
    && after.newUsers + after.existUsers == before.newUsers + before.existUsers + 1
    && after.newMessages + after.existMessages == before.newMessages + before.existMessages + 1
  }

  /** Where the loop got to: the store, the counters, `message_list`, and the exception, if any. */
  datatype Taken = Taken(tables: Tables, tally: Tally, taken: seq<Value>, failure: Option<Failure>)

  /** The body of the inner `try` for one message: its `MessageClass`, then both checks. */
  type Handler = (Tables, Tally, Value) -> Result<(Tables, Tally), Failure>

  function HandlerFor(video: Video): Handler {
    (tables, tally, message) =>
      match MessageOf(message, video)
      case Err(e) => Err(e)
      case Ok(m) => Ok(Absorb(tables, tally, m))
  }

  /** The handler fails on `message` with `e`, whatever the store and counters. */
  ghost predicate FailsWith(handle: Handler, message: Value, e: Failure) {
    forall tables, tally :: handle(tables, tally, message) == Err(e)
  }

  /** The handler takes `message`, counting it once through each check. */
  ghost predicate Counts(handle: Handler, message: Value) {
    forall tables, tally :: handle(tables, tally, message).Ok? && Bumps(tally, handle(tables, tally, message).value.1)
  }

  /** A message the video's handler takes, or fails on with the exception of its `MessageClass`. */
  lemma HandlerOutcome(video: Video, message: Value)
    ensures MessageOf(message, video).Ok? ==> Counts(HandlerFor(video), message)
    ensures MessageOf(message, video).Err? ==> FailsWith(HandlerFor(video), message, MessageOf(message, video).error)
  {
  }

  /**
   * `for message in chat`: append the raw message, then handle it. When
   * `MessageClass` fails on the first message the handler reads the unbound
   * `msg`, whose `NameError` replaces the exception.
   */
  function Ingest(tables: Tables, tally: Tally, handle: Handler, messages: seq<Value>, taken: seq<Value>): Taken
    decreases |messages|
  {
    if messages == [] then Taken(tables, tally, taken, None)
    else
      var list := taken + [messages[0]];
      match handle(tables, tally, messages[0])
      case Err(e) => Taken(tables, tally, list, Some(if taken == [] then NameError("msg") else e))
      case Ok(next) => Ingest(next.0, next.1, handle, messages[1..], list)
  }

  /** A message that fails ends the loop with it appended, and with the exception its position decides. */
  lemma {:induction false} IngestStops(tables: Tables, tally: Tally, handle: Handler,
                                       messages: seq<Value>, taken: seq<Value>, k: nat, e: Failure)
    requires k < |messages| && FailsWith(handle, messages[k], e)
    requires forall j :: 0 <= j < k ==> Counts(handle, messages[j])
    ensures var r := Ingest(tables, tally, handle, messages, taken);
      && r.taken == taken + messages[..k + 1]
      && r.failure == Some(if taken == [] && k == 0 then NameError("msg") else e)
    decreases k
  {
    if k == 0 {
      assert handle(tables, tally, messages[0]) == Err(e);
    } else {
      assert Counts(handle, messages[0]);
      var next := handle(tables, tally, messages[0]).value;
      assert forall j :: 0 <= j < |messages[1..]| ==> messages[1..][j] == messages[j + 1];
      IngestStops(next.0, next.1, handle, messages[1..], taken + [messages[0]], k - 1, e);
      assert taken + [messages[0]] + messages[1..][..k] == taken + messages[..k + 1];
    }
  }

  /** With no failing message every message is appended and counted once by each check. */
  lemma {:induction false} IngestAll(tables: Tables, tally: Tally, handle: Handler,
                                     messages: seq<Value>, taken: seq<Value>, n: nat)
    requires forall j :: 0 <= j < |messages| ==> Counts(handle, messages[j])
    requires Balanced(tally, n)
    ensures var r := Ingest(tables, tally, handle, messages, taken);
      r.taken == taken + messages && r.failure.None? && Balanced(r.tally, n + |messages|)
    decreases |messages|
  {
    if messages == [] {
      assert taken + messages == taken;
    } else {
      assert Counts(handle, messages[0]);
      var next := handle(tables, tally, messages[0]).value;
      assert Bumps(tally, next.1);
      assert forall j :: 0 <= j < |messages[1..]| ==> messages[1..][j] == messages[j + 1];
      IngestAll(next.0, next.1, handle, messages[1..], taken + [messages[0]], n + 1);
      assert taken + [messages[0]] + messages[1..] == taken + messages;
    }
  }

  /** What one call leaves: the store, the files, and the counters or the exception. */
  datatype Chatted = Chatted(tables: Tables, files: Files, result: Result<Tally, Failure>)

  /**
   * `Get_Messages(video)` given what `get_chat` produced. On every path
   * after the download the messages file is overwritten with this call's
   * `message_list`, before any exception is raised again.
   */
  function ChatRun(tables: Tables, files: Files, video: Video, chat: Result<Chat.Feed, Failure>, env: Env): Chatted {
    match chat
    case Err(e) => Chatted(tables, files, Err(e))
    case Ok(feed) =>
      var r := Ingest(tables, Tally(0, 0, 0, 0), HandlerFor(video), feed.messages, []);
      var failure := if r.failure.Some? then r.failure else feed.end;
      var written := files[MessagesFile(Plain(video.urlId)) := env.serialize(List(r.taken))];
      Chatted(r.tables, written, if failure.Some? then Err(failure.value) else Ok(r.tally))
  }

  /** The crash file holds the messages up to and including the failing one, and nothing earlier calls wrote. */
  lemma CrashFile(tables: Tables, files: Files, video: Video, feed: Chat.Feed, env: Env, k: nat)
    requires k < |feed.messages| && MessageOf(feed.messages[k], video).Err?
    requires forall j :: 0 <= j < k ==> MessageOf(feed.messages[j], video).Ok?
    ensures var out := ChatRun(tables, files, video, Ok(feed), env);
      && out.files == files[MessagesFile(Plain(video.urlId)) := env.serialize(List(feed.messages[..k + 1]))]
      && out.result == Err(if k == 0 then NameError("msg") else MessageOf(feed.messages[k], video).error)
  {
    forall j | 0 <= j <= k
      ensures MessageOf(feed.messages[j], video).Ok? ==> Counts(HandlerFor(video), feed.messages[j])
      ensures MessageOf(feed.messages[j], video).Err? ==> FailsWith(HandlerFor(video), feed.messages[j], MessageOf(feed.messages[j], video).error)
    {
      HandlerOutcome(video, feed.messages[j]);
    }
    IngestStops(tables, Tally(0, 0, 0, 0), HandlerFor(video), feed.messages, [], k, MessageOf(feed.messages[k], video).error);
    assert [] + feed.messages[..k + 1] == feed.messages[..k + 1];
  }

  /**
   * With every message valid the file holds exactly this call's messages;
   * the call succeeds unless the feed raised at its end, and then counted
   * every message once as new or existing user and once as new or existing message.
   */
  lemma CompleteFile(tables: Tables, files: Files, video: Video, feed: Chat.Feed, env: Env)
    requires forall j :: 0 <= j < |feed.messages| ==> MessageOf(feed.messages[j], video).Ok?
    ensures var out := ChatRun(tables, files, video, Ok(feed), env);
      && out.files == files[MessagesFile(Plain(video.urlId)) := env.serialize(List(feed.messages))]
      && (out.result.Ok? <==> feed.end.None?)
      && (feed.end.Some? ==> out.result == Err(feed.end.value))
      && (out.result.Ok? ==> Balanced(out.result.value, |feed.messages|))
  {
    forall j | 0 <= j < |feed.messages|
      ensures Counts(HandlerFor(video), feed.messages[j])
    {
      HandlerOutcome(video, feed.messages[j]);
    }
    IngestAll(tables, Tally(0, 0, 0, 0), HandlerFor(video), feed.messages, [], 0);
    assert [] + feed.messages == feed.messages;
  }

  /** Ids stay unique in `user_ids` and `messages`. */
  predicate Sound(tables: Tables) {
    UniqueOn(TableOf(tables, UserIds), "id") && UniqueOn(TableOf(tables, Messages), "message_id")
  }

  /** Handling a message keeps ids unique and never touches `videos`. */
  ghost predicate Preserves(handle: Handler, message: Value) {
    forall tables, tally :: Sound(tables) && handle(tables, tally, message).Ok? ==>
      Sound(handle(tables, tally, message).value.0) &&
      TableOf(handle(tables, tally, message).value.0, VideoTable) == TableOf(tables, VideoTable)
  }

  /** The author's insert-if-absent keeps `user_ids` unique and leaves the other tables alone. */
  lemma AddUserSound(tables: Tables, tally: Tally, m: Message)
    requires Sound(tables)
    ensures var t := AddUser(tables, tally, m).0;
      Sound(t) && TableOf(t, VideoTable) == TableOf(tables, VideoTable) && TableOf(t, Messages) == TableOf(tables, Messages)
  {
    var uid := Plain(m.userId);
    if Absent(tables, UserIds, "id", uid) {
      var u := TableOf(tables, UserIds);
      var row := [("id", uid)];
      assert InsertAll(u, [row], []) == InsertAll(u + [row], [], []);
      AbsentMeans(tables, UserIds, "id", uid);
      InsertIfAbsent(u, row, "id");
    }
  }

  /** The message's insert-if-absent keeps `messages` unique and leaves the other tables alone. */
  lemma AddMessageSound(tables: Tables, tally: Tally, m: Message)
    requires Sound(tables) && Lookup(m.entry, "message_id") == Some(Plain(m.id))
    ensures var t := AddMessage(tables, tally, m).0;
      Sound(t) && TableOf(t, VideoTable) == TableOf(tables, VideoTable)
  {
    var mid := Plain(m.id);
    if Absent(tables, Messages, "message_id", mid) {
      var u := TableOf(tables, Messages);
      assert InsertAll(u, [m.entry], []) == InsertAll(u + [m.entry], [], []);
      AbsentMeans(tables, Messages, "message_id", mid);
      InsertIfAbsent(u, m.entry, "message_id");
    }
  }

  /** The handler of `Get_Messages` keeps ids unique and leaves `videos` alone, on every message. */
  lemma HandlerPreserves(video: Video, message: Value)
    ensures Preserves(HandlerFor(video), message)
  {
    forall tables, tally | Sound(tables) && HandlerFor(video)(tables, tally, message).Ok?
      ensures Sound(HandlerFor(video)(tables, tally, message).value.0)
      ensures TableOf(HandlerFor(video)(tables, tally, message).value.0, VideoTable) == TableOf(tables, VideoTable)
    {
      var m := MessageOf(message, video).value;
      AddUserSound(tables, tally, m);
      var (t1, c1) := AddUser(tables, tally, m);
      AddMessageSound(t1, c1, m);
    }
  }

  /** The loop keeps ids unique and leaves `videos` as it was. */
  lemma {:induction false} IngestSound(tables: Tables, tally: Tally, handle: Handler, messages: seq<Value>, taken: seq<Value>)
    requires Sound(tables)
    requires forall j :: 0 <= j < |messages| ==> Preserves(handle, messages[j])
    ensures var r := Ingest(tables, tally, handle, messages, taken);
      Sound(r.tables) && TableOf(r.tables, VideoTable) == TableOf(tables, VideoTable)
    decreases |messages|
  {
    if messages != [] {
      assert Preserves(handle, messages[0]);
      if handle(tables, tally, messages[0]).Ok? {
        var next := handle(tables, tally, messages[0]).value;
        assert forall j :: 0 <= j < |messages[1..]| ==> messages[1..][j] == messages[j + 1];
        IngestSound(next.0, next.1, handle, messages[1..], taken + [messages[0]]);
      }
    }
  }

  /** A re-run inserts no user and no message twice, and `Get_Messages` never writes `videos`. */
  lemma ChatSound(tables: Tables, files: Files, video: Video, chat: Result<Chat.Feed, Failure>, env: Env)
    requires Sound(tables)
    ensures var out := ChatRun(tables, files, video, chat, env);
      Sound(out.tables) && TableOf(out.tables, VideoTable) == TableOf(tables, VideoTable)
  {
    if chat.Ok? {
      forall j | 0 <= j < |chat.value.messages|
        ensures Preserves(HandlerFor(video), chat.value.messages[j])
      {
        HandlerPreserves(video, chat.value.messages[j]);
      }
      IngestSound(tables, Tally(0, 0, 0, 0), HandlerFor(video), chat.value.messages, []);
    }
  }

  /** Handling a message never touches `videos`, whatever the store holds. */
  ghost predicate KeepsVideos(handle: Handler, message: Value) {
    forall tables, tally :: handle(tables, tally, message).Ok? ==>
      TableOf(handle(tables, tally, message).value.0, VideoTable) == TableOf(tables, VideoTable)
  }

  /** Both inserts of the handler go to `user_ids` and `messages`, never to `videos`. */
  lemma HandlerKeepsVideos(video: Video, message: Value)
    ensures KeepsVideos(HandlerFor(video), message)
  {
    forall tables, tally | HandlerFor(video)(tables, tally, message).Ok?
      ensures TableOf(HandlerFor(video)(tables, tally, message).value.0, VideoTable) == TableOf(tables, VideoTable)
    {
      var m := MessageOf(message, video).value;
      var (t1, c1) := AddUser(tables, tally, m);
      assert TableOf(t1, VideoTable) == TableOf(tables, VideoTable);
      assert TableOf(AddMessage(t1, c1, m).0, VideoTable) == TableOf(t1, VideoTable);
    }
  }

  /** The loop leaves `videos` as it was when no handled message touches it. */
  lemma {:induction false} IngestKeepsVideos(tables: Tables, tally: Tally, handle: Handler, messages: seq<Value>, taken: seq<Value>)
    requires forall j :: 0 <= j < |messages| ==> KeepsVideos(handle, messages[j])
    ensures TableOf(Ingest(tables, tally, handle, messages, taken).tables, VideoTable) == TableOf(tables, VideoTable)
    decreases |messages|
  {
    if messages != [] {
      assert KeepsVideos(handle, messages[0]);
      if handle(tables, tally, messages[0]).Ok? {
        var next := handle(tables, tally, messages[0]).value;
        assert forall j :: 0 <= j < |messages[1..]| ==> messages[1..][j] == messages[j + 1];
        IngestKeepsVideos(next.0, next.1, handle, messages[1..], taken + [messages[0]]);
      }
    }
  }

  /** `Get_Messages` never writes `videos`, on any store. */
  lemma ChatKeepsVideos(tables: Tables, files: Files, video: Video, chat: Result<Chat.Feed, Failure>, env: Env)
    ensures TableOf(ChatRun(tables, files, video, chat, env).tables, VideoTable) == TableOf(tables, VideoTable)
  {
    if chat.Ok? {
      forall j | 0 <= j < |chat.value.messages|
        ensures KeepsVideos(HandlerFor(video), chat.value.messages[j])
      {
        HandlerKeepsVideos(video, chat.value.messages[j]);
      }
      IngestKeepsVideos(tables, Tally(0, 0, 0, 0), HandlerFor(video), chat.value.messages, []);
    }
  }

  // ----- `Get_Messages`, step by step -----

  /** Both checks for one message against the database. */
  method AbsorbOne(db: Database, tally: Tally, m: Message) returns (counted: Tally)
    modifies db
    ensures (db.tables, counted) == Absorb(old(db.tables), tally, m)
  {
    counted := tally;
    var uid := Plain(m.userId);
    var users := db.GetEntries(UserIds, All, Some([("id", uid)]));
    if |users| == 0 {
      var _ := db.InsertEntries(UserIds, [[("id", uid)]], "");
      counted := counted.(newUsers := counted.newUsers + 1);
    } else {
      counted := counted.(existUsers := counted.existUsers + 1);
    }
    var mid := Plain(m.id);
    var rows := db.GetEntries(Messages, All, Some([("message_id", mid)]));
    if |rows| == 0 {
      var _ := db.InsertEntries(Messages, [m.entry], "");
      counted := counted.(newMessages := counted.newMessages + 1);
    } else {
      counted := counted.(existMessages := counted.existMessages + 1);
    }
  }

  /** `Get_Messages(video)` against the database and the files. */
  method GetMessages(db: Database, files: Files, video: Video, chat: Result<Chat.Feed, Failure>, env: Env)
      returns (newFiles: Files, result: Result<Tally, Failure>)
    modifies db
    ensures Chatted(db.tables, newFiles, result) == ChatRun(old(db.tables), files, video, chat, env)
  {
    if chat.Err? {
      return files, Err(chat.error);
    }
    var messages := chat.value.messages;
    var tally := Tally(0, 0, 0, 0);
    ghost var goal := Ingest(db.tables, tally, HandlerFor(video), messages, []);
    var messageList: seq<Value> := [];
    var failure: Option<Failure> := None;
    var msgBound := false;
    var i := 0;
    while i < |messages| && failure.None?
      invariant 0 <= i <= |messages|
      invariant failure.None? ==> (msgBound <==> messageList != [])
      invariant failure.None? ==> Ingest(db.tables, tally, HandlerFor(video), messages[i..], messageList) == goal
      invariant failure.Some? ==> Taken(db.tables, tally, messageList, failure) == goal
    {
      assert messages[i..][1..] == messages[i + 1..];
      ghost var before := messageList;
      messageList := messageList + [messages[i]];
      var msg := MessageOf(messages[i], video);
      if msg.Err? {
        failure := Some(if msgBound then msg.error else NameError("msg"));
        assert HandlerFor(video)(db.tables, tally, messages[i]) == Err(msg.error);
      } else {
        ghost var t := db.tables;
        ghost var c := tally;
        tally := AbsorbOne(db, tally, msg.value);
        msgBound := true;
        assert HandlerFor(video)(t, c, messages[i]) == Ok((db.tables, tally));
      }
      i := i + 1;
    }
    if failure.None? {
      assert messages[i..] == [];
      failure := chat.value.end;
    }
    newFiles := files[MessagesFile(Plain(video.urlId)) := env.serialize(List(messageList))];
    result := if failure.Some? then Err(failure.value) else Ok(tally);
  }
}
