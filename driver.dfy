/**
 * `MainProcess` in `Main.py`: every video of `__All_Videos.json` has its
 * chat stored by the older synchroniser unless the `videos` table already
 * holds it as processed. A stored chat, or a video without a chat replay,
 * sets `processed` on its row; an unplayable video is only counted; any
 * other exception ends the run.
 */
module Driver {
  import opened Wrappers
  import opened Values
  import opened Store
  import Chat
  import Legacy

  /** The five counters `MainProcess` logs. */
  datatype Progress = Progress(success: nat, noChat: nat, error: nat, skipped: nat, processed: nat)

  /** `processed_videos` counts each video once, under exactly one of the other four counters. */
  predicate Accounted(p: Progress) {
    p.processed == p.success + p.noChat + p.error + p.skipped
  }

  /** The store, the files and the counters, and the exception that ended the run, if any. */
  datatype Run = Run(tables: Tables, files: Legacy.Files, progress: Progress, failure: Option<Failure>)

  /** The chat source: what `get_chat` yields for a URL id, or the exception it raises. */
  type ChatSource = Value -> Result<Chat.Feed, Failure>

  /** The skip test: some `videos` row with the video's `videoId` is processed. */
  predicate AlreadyProcessed(tables: Tables, v: Legacy.Video) {
    Select(TableOf(tables, VideoTable), Some([("videoId", Legacy.Plain(v.urlId)), ("processed", Bool(true))])) != []
  }

  /** `UpdateEntry(..., "videos", "processed", True, "id", vid.id)`. */
  function MarkProcessed(tables: Tables, v: Legacy.Video): Tables {
    AfterUpdate(tables, VideoTable, "processed", Bool(true), "id", Legacy.Plain(v.id))
  }

  /** The `try` around `Get_Messages` and its two handled exceptions. */
  function Settled(c: Legacy.Chatted, v: Legacy.Video, p: Progress): Run {
    if c.result.Ok? then
      Run(MarkProcessed(c.tables, v), c.files, p.(success := p.success + 1, processed := p.processed + 1), None)
    else if c.result.error.NoChatReplay? then
      Run(MarkProcessed(c.tables, v), c.files, p.(noChat := p.noChat + 1, processed := p.processed + 1), None)
    else if c.result.error.VideoUnplayable? then
      Run(c.tables, c.files, p.(error := p.error + 1, processed := p.processed + 1), None)
    else Run(c.tables, c.files, p, Some(c.result.error))
  }

  /** One turn of `for video in all_video_json`. Building the `VideoClass` is outside the `try`. */
  function Process(tables: Tables, files: Legacy.Files, p: Progress, item: Value, env: Legacy.Env, chatOf: ChatSource): Run {
    Turn(tables, files, p, Legacy.VideoOf(item), env, chatOf)
  }

  /** The turn once `VideoClass(video)` has been built or has raised. */
  function Turn(tables: Tables, files: Legacy.Files, p: Progress, vid: Result<Legacy.Video, Failure>,
                env: Legacy.Env, chatOf: ChatSource): Run {
    match vid
    case Err(e) => Run(tables, files, p, Some(e))
    case Ok(v) =>
      if AlreadyProcessed(tables, v) then
        Run(tables, files, p.(skipped := p.skipped + 1, processed := p.processed + 1), None)
      else Settled(Legacy.ChatRun(tables, files, v, chatOf(Legacy.Plain(v.urlId)), env), v, p)
  }

  /** The loop; an exception that escapes ends it. */
  function ProcessAll(tables: Tables, files: Legacy.Files, p: Progress, items: seq<Value>, env: Legacy.Env, chatOf: ChatSource): Run
    decreases |items|
  {
    if items == [] then Run(tables, files, p, None)
    else
      var r := Process(tables, files, p, items[0], env, chatOf);
      if r.failure.Some? then r else ProcessAll(r.tables, r.files, r.progress, items[1..], env, chatOf)
  }

  /** One step of the run: the first video's turn, then the rest unless an exception escaped. */
  lemma ProcessAllStep(tables: Tables, files: Legacy.Files, p: Progress, items: seq<Value>, env: Legacy.Env, chatOf: ChatSource)
    requires items != []
    ensures var r := Process(tables, files, p, items[0], env, chatOf);
      ProcessAll(tables, files, p, items, env, chatOf) ==
        if r.failure.Some? then r else ProcessAll(r.tables, r.files, r.progress, items[1..], env, chatOf)
  {
  }

  /** `ProcessAllStep` at position `i` of the list, for the loop of `MainProcess`. */
  lemma ProcessAllAt(tables: Tables, files: Legacy.Files, p: Progress, items: seq<Value>, i: nat, env: Legacy.Env, chatOf: ChatSource)
    requires i < |items|
    ensures var r := Process(tables, files, p, items[i], env, chatOf);
      ProcessAll(tables, files, p, items[i..], env, chatOf) ==
        if r.failure.Some? then r else ProcessAll(r.tables, r.files, r.progress, items[i + 1..], env, chatOf)
  {
    assert items[i..][0] == items[i] && items[i..][1..] == items[i + 1..];
    ProcessAllStep(tables, files, p, items[i..], env, chatOf);
  }

  /** `MainProcess()` over the decoded `__All_Videos.json`. */
  function MainRun(tables: Tables, files: Legacy.Files, all: Value, env: Legacy.Env, chatOf: ChatSource): Run {
    match Iterate(all)
    case Err(e) => Run(tables, files, Progress(0, 0, 0, 0, 0), Some(e))
    case Ok(items) => ProcessAll(tables, files, Progress(0, 0, 0, 0, 0), items, env, chatOf)
  }

  // ----- properties -----

  /** Settling a chat keeps the counters accounted for; it counts the video exactly when no exception escapes. */
  lemma SettledCounts(c: Legacy.Chatted, v: Legacy.Video, p: Progress)
    requires Accounted(p)
    ensures var r := Settled(c, v, p);
      && Accounted(r.progress)
      && (r.failure.None? ==> r.progress.processed == p.processed + 1)
      && (r.failure.Some? ==> r.progress == p)
  {
  }

  /**
   * A turn keeps the counters accounted for; it moves `processed_videos`
   * by one exactly when no exception escapes.
   */
  lemma TurnCounts(tables: Tables, files: Legacy.Files, p: Progress, vid: Result<Legacy.Video, Failure>,
                   env: Legacy.Env, chatOf: ChatSource)
    requires Accounted(p)
    ensures var r := Turn(tables, files, p, vid, env, chatOf);
      && Accounted(r.progress)
      && (r.failure.None? ==> r.progress.processed == p.processed + 1)
      && (r.failure.Some? ==> r.progress == p)
  {
    if vid.Ok? && !AlreadyProcessed(tables, vid.value) {
      var v := vid.value;
      SettledCounts(Legacy.ChatRun(tables, files, v, chatOf(Legacy.Plain(v.urlId)), env), v, p);
    }
  }

  /** The whole loop: every video before the one that raised is counted, and all of them when none raised. */
  lemma {:induction false} ProcessAllCounts(tables: Tables, files: Legacy.Files, p: Progress, items: seq<Value>,
                                            env: Legacy.Env, chatOf: ChatSource)
    requires Accounted(p)
    ensures var r := ProcessAll(tables, files, p, items, env, chatOf);
      && Accounted(r.progress)
      && p.processed <= r.progress.processed <= p.processed + |items|
      && (r.failure.None? ==> r.progress.processed == p.processed + |items|)
    decreases |items|
  {
    if items != [] {
      TurnCounts(tables, files, p, Legacy.VideoOf(items[0]), env, chatOf);
      var r := Process(tables, files, p, items[0], env, chatOf);
      if r.failure.None? {
        ProcessAllCounts(r.tables, r.files, r.progress, items[1..], env, chatOf);
      }
    }
  }

  /** A finished run logged `len(all_video_json)` of `len(all_video_json)` complete. */
  lemma MainRunCounts(tables: Tables, files: Legacy.Files, all: Value, env: Legacy.Env, chatOf: ChatSource)
    ensures var r := MainRun(tables, files, all, env, chatOf);
      && Accounted(r.progress)
      && (r.failure.None? ==> Iterate(all).Ok? && r.progress.processed == |Iterate(all).value|)
  {
    if Iterate(all).Ok? {
      ProcessAllCounts(tables, files, Progress(0, 0, 0, 0, 0), Iterate(all).value, env, chatOf);
    }
  }

  /** A processed video is skipped without asking the chat source and without touching the store or the files. */
  lemma SkipIgnoresChat(tables: Tables, files: Legacy.Files, p: Progress, item: Value, env: Legacy.Env,
                        chatOf: ChatSource, other: ChatSource)
    requires Legacy.VideoOf(item).Ok? && AlreadyProcessed(tables, Legacy.VideoOf(item).value)
    ensures Process(tables, files, p, item, env, chatOf) == Process(tables, files, p, item, env, other)
    ensures var r := Process(tables, files, p, item, env, chatOf);
      r.tables == tables && r.files == files && r.progress.skipped == p.skipped + 1 && r.failure.None?
  {
  }

  /**
   * A stored chat or a missing replay flags every row with the video's id
   * as processed; an unplayable video leaves the `videos` table as it was.
   */
  lemma ChatOutcome(tables: Tables, files: Legacy.Files, p: Progress, item: Value, env: Legacy.Env, chatOf: ChatSource)
    requires Legacy.VideoOf(item).Ok? && !AlreadyProcessed(tables, Legacy.VideoOf(item).value)
    ensures var v := Legacy.VideoOf(item).value;
      var c := Legacy.ChatRun(tables, files, v, chatOf(Legacy.Plain(v.urlId)), env);
      var r := Process(tables, files, p, item, env, chatOf);
      && ((c.result.Ok? || c.result.error.NoChatReplay?) ==>
            r.failure.None? && Flagged(r.tables, VideoTable, Legacy.Plain(v.id), "processed", Bool(true)))
      && (c.result.Err? && c.result.error.VideoUnplayable? ==>
            r.failure.None? && TableOf(r.tables, VideoTable) == TableOf(tables, VideoTable))
      && (c.result.Err? && !c.result.error.NoChatReplay? && !c.result.error.VideoUnplayable? ==>
            r.failure == Some(c.result.error))
  {
    var v := Legacy.VideoOf(item).value;
    var c := Legacy.ChatRun(tables, files, v, chatOf(Legacy.Plain(v.urlId)), env);
    Legacy.ChatKeepsVideos(tables, files, v, chatOf(Legacy.Plain(v.urlId)), env);
    SetFlag(c.tables, VideoTable, "processed", Bool(true), Legacy.Plain(v.id));
  }

  /**
   * Once a video's chat is settled, the next run skips it: the update sets
   * `processed` on the row that carries both its `id` and its `videoId`.
   */
  lemma MarkedIsSkipped(tables: Tables, v: Legacy.Video, i: nat)
    requires i < |TableOf(tables, VideoTable)|
    requires Has(TableOf(tables, VideoTable)[i], "id", Legacy.Plain(v.id))
    requires Has(TableOf(tables, VideoTable)[i], "videoId", Legacy.Plain(v.urlId))
    ensures AlreadyProcessed(MarkProcessed(tables, v), v)
  {
    var t := TableOf(tables, VideoTable);
    var r := TableOf(MarkProcessed(tables, v), VideoTable);
    var filter := [("videoId", Legacy.Plain(v.urlId)), ("processed", Bool(true))];
    UpdateEffect(t, "processed", Bool(true), "id", Legacy.Plain(v.id), i, "videoId");
    assert Matches(r[i], filter);
    assert r[i] in Select(r, Some(filter));
  }

  /** Marking another video keeps ids unique and keeps every processed flag already set. */
  lemma MarkKeeps(tables: Tables, v: Legacy.Video, id: Value)
    requires Legacy.Sound(tables)
    ensures Legacy.Sound(MarkProcessed(tables, v))
    ensures Flagged(tables, VideoTable, id, "processed", Bool(true)) ==>
      Flagged(MarkProcessed(tables, v), VideoTable, id, "processed", Bool(true))
  {
    if Flagged(tables, VideoTable, id, "processed", Bool(true)) {
      KeepFlag(tables, VideoTable, "processed", Bool(true), Legacy.Plain(v.id), id, "processed", Bool(true));
    }
  }

  /** Settling a chat keeps ids unique and never clears a processed flag. */
  lemma SettledKeeps(c: Legacy.Chatted, v: Legacy.Video, p: Progress, id: Value)
    requires Legacy.Sound(c.tables)
    ensures var r := Settled(c, v, p);
      && Legacy.Sound(r.tables)
      && (Flagged(c.tables, VideoTable, id, "processed", Bool(true)) ==>
            Flagged(r.tables, VideoTable, id, "processed", Bool(true)))
  {
    MarkKeeps(c.tables, v, id);
  }

  /** A turn keeps ids unique in `user_ids` and `messages` and never clears a processed flag. */
  lemma TurnKeeps(tables: Tables, files: Legacy.Files, p: Progress, vid: Result<Legacy.Video, Failure>,
                  env: Legacy.Env, chatOf: ChatSource, id: Value)
    requires Legacy.Sound(tables)
    ensures var r := Turn(tables, files, p, vid, env, chatOf);
      && Legacy.Sound(r.tables)
      && (Flagged(tables, VideoTable, id, "processed", Bool(true)) ==>
            Flagged(r.tables, VideoTable, id, "processed", Bool(true)))
  {
    if vid.Ok? && !AlreadyProcessed(tables, vid.value) {
      var v := vid.value;
      var c := Legacy.ChatRun(tables, files, v, chatOf(Legacy.Plain(v.urlId)), env);
      Legacy.ChatSound(tables, files, v, chatOf(Legacy.Plain(v.urlId)), env);
      SameVideos(tables, c.tables, id);
      SettledKeeps(c, v, p, id);
    }
  }

  /** The processed flag depends on the `videos` table alone. */
  lemma SameVideos(a: Tables, b: Tables, id: Value)
    requires TableOf(a, VideoTable) == TableOf(b, VideoTable)
    ensures Flagged(a, VideoTable, id, "processed", Bool(true)) == Flagged(b, VideoTable, id, "processed", Bool(true))
  {
  }

  /** The whole run keeps ids unique and keeps every processed flag set before it or during it. */
  lemma {:induction false} ProcessAllKeeps(tables: Tables, files: Legacy.Files, p: Progress, items: seq<Value>,
                                           env: Legacy.Env, chatOf: ChatSource, id: Value)
    requires Legacy.Sound(tables)
    ensures var r := ProcessAll(tables, files, p, items, env, chatOf);
      && Legacy.Sound(r.tables)
      && (Flagged(tables, VideoTable, id, "processed", Bool(true)) ==>
            Flagged(r.tables, VideoTable, id, "processed", Bool(true)))
    decreases |items|
  {
    if items != [] {
      TurnKeeps(tables, files, p, Legacy.VideoOf(items[0]), env, chatOf, id);
      var r := Process(tables, files, p, items[0], env, chatOf);
      if r.failure.None? {
        ProcessAllKeeps(r.tables, r.files, r.progress, items[1..], env, chatOf, id);
      }
    }
  }

  // ----- `MainProcess`, step by step -----

  /** One video of the loop, once `VideoClass(video)` is built. */
  method ProcessOne(db: Database, files: Legacy.Files, progress: Progress, v: Legacy.Video,
                    env: Legacy.Env, chatOf: ChatSource)
      returns (newFiles: Legacy.Files, counted: Progress, failure: Option<Failure>)
    modifies db
    ensures Run(db.tables, newFiles, counted, failure) == Turn(old(db.tables), files, progress, Ok(v), env, chatOf)
  {
    newFiles, counted, failure := files, progress, None;
    var done := db.GetEntries(VideoTable, Only(["processed"]),
                              Some([("videoId", Legacy.Plain(v.urlId)), ("processed", Bool(true))]));
    if |done| > 0 {
      counted := progress.(skipped := progress.skipped + 1, processed := progress.processed + 1);
      return;
    }
    var result;
    newFiles, result := Legacy.GetMessages(db, files, v, chatOf(Legacy.Plain(v.urlId)), env);
    if result.Ok? {
      var _ := db.UpdateEntry(VideoTable, "processed", Bool(true), "id", Legacy.Plain(v.id));
      counted := progress.(success := progress.success + 1, processed := progress.processed + 1);
    } else if result.error.NoChatReplay? {
      var _ := db.UpdateEntry(VideoTable, "processed", Bool(true), "id", Legacy.Plain(v.id));
      counted := progress.(noChat := progress.noChat + 1, processed := progress.processed + 1);
    } else if result.error.VideoUnplayable? {
      counted := progress.(error := progress.error + 1, processed := progress.processed + 1);
    } else {
      failure := Some(result.error);
    }
  }

  /** `MainProcess()` against the database and the files, given the decoded video list. */
  method MainProcess(db: Database, files: Legacy.Files, all: Value, env: Legacy.Env, chatOf: ChatSource)
      returns (newFiles: Legacy.Files, progress: Progress, failure: Option<Failure>)
    modifies db
    ensures Run(db.tables, newFiles, progress, failure) == MainRun(old(db.tables), files, all, env, chatOf)
  {
    newFiles := files;
    progress := Progress(0, 0, 0, 0, 0);
    failure := None;
    var listed := Iterate(all);
    if listed.Err? {
      failure := Some(listed.error);
      return;
    }
    var items := listed.value;
    ghost var goal := ProcessAll(db.tables, newFiles, progress, items, env, chatOf);
    var i := 0;
    while i < |items| && failure.None?
      invariant 0 <= i <= |items|
      invariant failure.None? ==> ProcessAll(db.tables, newFiles, progress, items[i..], env, chatOf) == goal
      invariant failure.Some? ==> Run(db.tables, newFiles, progress, failure) == goal
    {
      ghost var before := Run(db.tables, newFiles, progress, None);
      ProcessAllAt(db.tables, newFiles, progress, items, i, env, chatOf);
      var vid := Legacy.VideoOf(items[i]);
      if vid.Err? {
        failure := Some(vid.error);
      } else {
        newFiles, progress, failure := ProcessOne(db, newFiles, progress, vid.value, env, chatOf);
      }
      assert Run(db.tables, newFiles, progress, failure) == Process(before.tables, before.files, before.progress, items[i], env, chatOf);
      i := i + 1;
    }
    if failure.None? {
      assert items[i..] == [];
    }
  }
}
