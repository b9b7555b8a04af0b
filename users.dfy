/**
 * `Get_User_Batch` in `modules/Classes.py`. For each channel the API
 * returned, the user's JSON and profile picture are kept under
 * rotate-on-change and the `user_ids` row is filled in and marked processed;
 * the first exception ends that pass and counts as one invalid user. Every
 * requested id the pass did not complete is then marked as a channel that
 * no longer exists, and counted.
 */
module Users {
  import opened Wrappers
  import opened Values
  import opened Store
  import Assets
  import Entities

  /** The collaborators of one batch: the JSON serialiser, the image download and the digest. */
  datatype Env = Env(serialize: Value -> Assets.Bytes, download: Value -> Assets.Bytes, hash: Assets.Bytes -> Assets.Digest)

  /** Where one user's pass got to: the store, the files, and the user's id or the exception. */
  datatype Stored = Stored(tables: Tables, files: Assets.Files, outcome: Result<Value, Failure>)

  /** The profile picture: an unset `pfp` attribute raises, a `None` URL is skipped. */
  function Picture(files: Assets.Files, user: Entities.User, env: Env): (r: Result<Assets.Files, Failure>)
    ensures user.pfp == Unset <==> r == Err(AttributeError("pfp"))
    ensures user.pfp == Set(Null) ==> r == Ok(files)
  {
    match user.pfp
    case Unset => Err(AttributeError("pfp"))
    case Set(url) =>
      if url == Null then Ok(files)
      else Ok(Assets.Rotate(files, Assets.Asset(Assets.ProfilePicture, user.id), env.download(url), env.hash).0)
  }

  /**
   * The body of `for user in user_list`: strip, normalise, keep the JSON,
   * keep the picture, fill in the row and mark it processed. An exception
   * leaves what was already written.
   */
  function StoreUser(tables: Tables, files: Assets.Files, item: Value, env: Env): Stored {
    match Strip(item)
    case Err(e) => Stored(tables, files, Err(e))
    case Ok(data) =>
      match Entities.NormalizeUser(data)
      case Err(e) => Stored(tables, files, Err(e))
      case Ok(u) =>
        var kept := Assets.Rotate(files, Assets.Asset(Assets.UserJson, u.id), env.serialize(data), env.hash).0;
        match Picture(kept, u, env)
        case Err(e) => Stored(tables, kept, Err(e))
        case Ok(pictured) =>
          Stored(AfterUpdate(UpdateColumns(tables, UserIds, u.entry, "id", u.id), UserIds, "processed", Bool(true), "id", u.id), pictured, Ok(u.id))
  }

  /** The end of the first loop: store, files, `valid_ids`, and whether an exception ended it. */
  datatype Pass = Pass(tables: Tables, files: Assets.Files, valid: set<Value>, aborted: bool)

  /** `for user in user_list` inside `try`: the first exception stops the loop. */
  function StoreAll(tables: Tables, files: Assets.Files, valid: set<Value>, items: seq<Value>, env: Env): Pass
    decreases |items|
  {
    if items == [] then Pass(tables, files, valid, false)
    else
      var s := StoreUser(tables, files, items[0], env);
      match s.outcome
      case Err(_) => Pass(s.tables, s.files, valid, true)
      case Ok(id) => StoreAll(s.tables, s.files, valid + {id}, items[1..], env)
  }

  /** `user_list`: the response's `items`, or nothing when it has none. */
  function Listed(response: Value): Result<Value, Failure> {
    var has :- Contains(response, "items");
    if has then Subscript(response, "items") else Ok(List([]))
  }

  /** The first loop over whatever `user_list` is; a value `for` cannot visit raises at once. */
  function FirstPass(tables: Tables, files: Assets.Files, listed: Value, env: Env): Pass {
    match Iterate(listed)
    case Err(_) => Pass(tables, files, {}, true)
    case Ok(items) => StoreAll(tables, files, {}, items, env)
  }

  /** The update marking `id` as gone, then as processed. */
  function MarkGone(tables: Tables, id: Value): Tables {
    AfterUpdate(AfterUpdate(tables, UserIds, "exists", Bool(false), "id", id), UserIds, "processed", Bool(true), "id", id)
  }

  /** The second loop: each requested id not in `valid_ids` is marked gone and counted. */
  function Reconcile(tables: Tables, valid: set<Value>, requested: seq<Value>): (Tables, int)
    decreases |requested|
  {
    if requested == [] then (tables, 0)
    else
      var t := if requested[0] in valid then tables else MarkGone(tables, requested[0]);
      var (r, n) := Reconcile(t, valid, requested[1..]);
      (r, n + (if requested[0] in valid then 0 else 1))
  }

  /** What the call leaves: the store, the files and the returned count of invalid users. */
  datatype Batch = Batch(tables: Tables, files: Assets.Files, invalid: int)

  /** `Get_User_Batch(users)` given the `channels.list` response. */
  function UserBatch(tables: Tables, files: Assets.Files, response: Value, requested: seq<Value>, env: Env): Result<Batch, Failure> {
    var listed :- Listed(response);
    var pass := FirstPass(tables, files, listed, env);
    var (t, missing) := Reconcile(pass.tables, pass.valid, requested);
    Ok(Batch(t, pass.files, missing + (if pass.aborted then 1 else 0)))
  }

  // ----- what the batch promises -----

  /** Every `user_ids` row with this id is marked processed. */
  predicate ProcessedIn(tables: Tables, id: Value) {
    Flagged(tables, UserIds, id, "processed", Bool(true))
  }

  /** Every `user_ids` row with this id is marked as not existing. */
  predicate GoneIn(tables: Tables, id: Value) {
    Flagged(tables, UserIds, id, "exists", Bool(false))
  }

  /** Marking an id gone marks every row that has it, and marks them processed as well. */
  lemma MarkGoneMarks(tables: Tables, id: Value)
    ensures GoneIn(MarkGone(tables, id), id) && ProcessedIn(MarkGone(tables, id), id)
  {
    var t1 := AfterUpdate(tables, UserIds, "exists", Bool(false), "id", id);
    SetFlag(tables, UserIds, "exists", Bool(false), id);
    KeepFlag(t1, UserIds, "processed", Bool(true), id, id, "exists", Bool(false));
    SetFlag(t1, UserIds, "processed", Bool(true), id);
  }

  /** The columns `UserClass` fills in are none of `id`, `processed` and `exists`. */
  lemma EntryColumns(entry: Row)
    requires HasColumns(entry, Entities.UserColumns)
    ensures forall k :: 0 <= k < |entry| ==> entry[k].0 != "id" && entry[k].0 != "processed" && entry[k].0 != "exists"
  {
    forall k | 0 <= k < |entry|
      ensures entry[k].0 != "id" && entry[k].0 != "processed" && entry[k].0 != "exists"
    {
      assert entry[k].0 == Entities.UserColumns[k];
    }
  }

  /** One user's pass marks its own id processed and unmarks no other. */
  lemma StoreUserMarks(tables: Tables, files: Assets.Files, item: Value, env: Env, id: Value)
    ensures var s := StoreUser(tables, files, item, env);
      && (s.outcome.Ok? && s.outcome.value == id ==> ProcessedIn(s.tables, id))
      && (ProcessedIn(tables, id) ==> ProcessedIn(s.tables, id))
  {
    var s := StoreUser(tables, files, item, env);
    if s.outcome.Ok? {
      var data := Strip(item).value;
      var u := Entities.NormalizeUser(data).value;
      EntryColumns(u.entry);
      var filled := UpdateColumns(tables, UserIds, u.entry, "id", u.id);
      if ProcessedIn(tables, id) {
        UpdateColumnsKeep(tables, UserIds, u.entry, u.id, id, "processed", Bool(true));
        KeepFlag(filled, UserIds, "processed", Bool(true), u.id, id, "processed", Bool(true));
      }
      assert s.tables == AfterUpdate(filled, UserIds, "processed", Bool(true), "id", u.id);
      SetFlag(filled, UserIds, "processed", Bool(true), u.id);
    }
  }

  /** `valid_ids` only grows, and every id in it has its rows marked processed. */
  lemma {:induction false} StoreAllMarks(tables: Tables, files: Assets.Files, valid: set<Value>, items: seq<Value>, env: Env, id: Value)
    requires id in valid ==> ProcessedIn(tables, id)
    ensures var p := StoreAll(tables, files, valid, items, env);
      valid <= p.valid && (id in p.valid ==> ProcessedIn(p.tables, id))
    decreases |items|
  {
    if items != [] {
      var s := StoreUser(tables, files, items[0], env);
      StoreUserMarks(tables, files, items[0], env, id);
      if s.outcome.Ok? {
        StoreAllMarks(s.tables, s.files, valid + {s.outcome.value}, items[1..], env, id);
      }
    }
  }

  /** An exception ends the pass: users after the failing one are never visited. */
  lemma {:induction false} StopsAtFailure(tables: Tables, files: Assets.Files, valid: set<Value>,
                                          items: seq<Value>, more: seq<Value>, env: Env)
    requires StoreAll(tables, files, valid, items, env).aborted
    ensures StoreAll(tables, files, valid, items + more, env) == StoreAll(tables, files, valid, items, env)
    decreases |items|
  {
    assert items != [];
    assert (items + more)[0] == items[0] && (items + more)[1..] == items[1..] + more;
    var s := StoreUser(tables, files, items[0], env);
    if s.outcome.Ok? {
      StopsAtFailure(s.tables, s.files, valid + {s.outcome.value}, items[1..], more, env);
    }
  }

  /** Marking one id gone unmarks no row of any id. */
  lemma MarkGoneKeeps(tables: Tables, x: Value, id: Value)
    ensures ProcessedIn(tables, id) ==> ProcessedIn(MarkGone(tables, x), id)
    ensures GoneIn(tables, id) ==> GoneIn(MarkGone(tables, x), id)
  {
    var t1 := AfterUpdate(tables, UserIds, "exists", Bool(false), "id", x);
    if ProcessedIn(tables, id) {
      KeepFlag(tables, UserIds, "exists", Bool(false), x, id, "processed", Bool(true));
      KeepFlag(t1, UserIds, "processed", Bool(true), x, id, "processed", Bool(true));
    }
    if GoneIn(tables, id) {
      KeepFlag(tables, UserIds, "exists", Bool(false), x, id, "exists", Bool(false));
      KeepFlag(t1, UserIds, "processed", Bool(true), x, id, "exists", Bool(false));
    }
  }

  /** After the second loop every requested id outside `valid_ids` is gone and processed; no mark is lost. */
  lemma {:induction false} ReconcileMarks(tables: Tables, valid: set<Value>, requested: seq<Value>, id: Value)
    ensures var r := Reconcile(tables, valid, requested).0;
      && (ProcessedIn(tables, id) || (id in requested && id !in valid) ==> ProcessedIn(r, id))
      && (GoneIn(tables, id) || (id in requested && id !in valid) ==> GoneIn(r, id))
    decreases |requested|
  {
    if requested != [] {
      var x := requested[0];
      var t := if x in valid then tables else MarkGone(tables, x);
      if x !in valid {
        MarkGoneKeeps(tables, x, id);
        if x == id {
          MarkGoneMarks(tables, id);
        }
      }
      ReconcileMarks(t, valid, requested[1..], id);
      assert id in requested && id != x ==> id in requested[1..];
    }
  }

  /** The requested ids outside `valid`, in order, each as often as it was requested. */
  function Missing(valid: set<Value>, requested: seq<Value>): (r: seq<Value>)
    ensures forall x :: multiset(r)[x] == if x in valid then 0 else multiset(requested)[x]
  {
    if requested == [] then []
    else
      assert requested == [requested[0]] + requested[1..];
      (if requested[0] in valid then [] else [requested[0]]) + Missing(valid, requested[1..])
  }

  /** The second loop counts the missing ids with repetition. */
  lemma {:induction false} ReconcileCount(tables: Tables, valid: set<Value>, requested: seq<Value>)
    ensures Reconcile(tables, valid, requested).1 == |Missing(valid, requested)|
    decreases |requested|
  {
    if requested != [] {
      var t := if requested[0] in valid then tables else MarkGone(tables, requested[0]);
      ReconcileCount(t, valid, requested[1..]);
    }
  }

  /**
   * Every requested id ends with its rows processed; one the pass did not
   * complete ends marked as not existing.
   */
  lemma BatchMarks(tables: Tables, files: Assets.Files, response: Value, requested: seq<Value>, env: Env, id: Value)
    requires UserBatch(tables, files, response, requested, env).Ok? && id in requested
    ensures var b := UserBatch(tables, files, response, requested, env).value;
      var pass := FirstPass(tables, files, Listed(response).value, env);
      && ProcessedIn(b.tables, id)
      && (id !in pass.valid ==> GoneIn(b.tables, id))
  {
    var listed := Listed(response).value;
    var pass := FirstPass(tables, files, listed, env);
    if Iterate(listed).Ok? {
      StoreAllMarks(tables, files, {}, Iterate(listed).value, env, id);
    }
    ReconcileMarks(pass.tables, pass.valid, requested, id);
  }

  /** The count returned: the missing requested ids with repetition, plus one if an exception ended the pass. */
  lemma BatchCount(tables: Tables, files: Assets.Files, response: Value, requested: seq<Value>, env: Env)
    requires UserBatch(tables, files, response, requested, env).Ok?
    ensures var pass := FirstPass(tables, files, Listed(response).value, env);
      UserBatch(tables, files, response, requested, env).value.invalid
        == |Missing(pass.valid, requested)| + (if pass.aborted then 1 else 0)
  {
    var pass := FirstPass(tables, files, Listed(response).value, env);
    ReconcileCount(pass.tables, pass.valid, requested);
  }

  // ----- the imperative batch -----

  /** One turn of `for user in user_list`. */
  method StoreUserOne(db: Database, files: Assets.Files, item: Value, env: Env)
      returns (newFiles: Assets.Files, outcome: Result<Value, Failure>)
    modifies db
    ensures Stored(db.tables, newFiles, outcome) == StoreUser(old(db.tables), files, item, env)
  {
    newFiles := files;
    var data := Strip(item);
    if data.Err? {
      return files, Err(data.error);
    }
    var u := Entities.NormalizeUser(data.value);
    if u.Err? {
      return files, Err(u.error);
    }
    var user := u.value;
    var status;
    newFiles, status := Assets.Commit(files, Assets.Asset(Assets.UserJson, user.id), env.serialize(data.value), env.hash);
    match user.pfp
    case Unset =>
      return newFiles, Err(AttributeError("pfp"));
    case Set(url) =>
      if url != Null {
        newFiles, status := Assets.Commit(newFiles, Assets.Asset(Assets.ProfilePicture, user.id), env.download(url), env.hash);
      }
    UpdateEach(db, UserIds, user.entry, "id", user.id);
    var _ := db.UpdateEntry(UserIds, "processed", Bool(true), "id", user.id);
    outcome := Ok(user.id);
  }

  /** `for user in user_list` inside `try`: stops at the first exception. */
  method StoreEach(db: Database, files: Assets.Files, items: seq<Value>, env: Env)
      returns (newFiles: Assets.Files, valid: set<Value>, aborted: bool)
    modifies db
    ensures Pass(db.tables, newFiles, valid, aborted) == StoreAll(old(db.tables), files, {}, items, env)
  {
    ghost var goal := StoreAll(db.tables, files, {}, items, env);
    newFiles, valid, aborted := files, {}, false;
    var i := 0;
    while i < |items| && !aborted
      invariant 0 <= i <= |items|
      invariant !aborted ==> StoreAll(db.tables, newFiles, valid, items[i..], env) == goal
      invariant aborted ==> Pass(db.tables, newFiles, valid, true) == goal
    {
      assert items[i..][1..] == items[i + 1..];
      var outcome;
      newFiles, outcome := StoreUserOne(db, newFiles, items[i], env);
      if outcome.Err? {
        aborted := true;
      } else {
        valid := valid + {outcome.value};
      }
      i := i + 1;
    }
    if !aborted {
      assert items[i..] == [];
    }
  }

  /** `for user in all_users`: mark and count each requested id the pass did not complete. */
  method MarkMissing(db: Database, valid: set<Value>, requested: seq<Value>) returns (missing: int)
    modifies db
    ensures (db.tables, missing) == Reconcile(old(db.tables), valid, requested)
  {
    ghost var goal := Reconcile(db.tables, valid, requested);
    missing := 0;
    for j := 0 to |requested|
      invariant Reconcile(db.tables, valid, requested[j..]).0 == goal.0
      invariant Reconcile(db.tables, valid, requested[j..]).1 + missing == goal.1
    {
      assert requested[j..][1..] == requested[j + 1..];
      if requested[j] !in valid {
        var _ := db.UpdateEntry(UserIds, "exists", Bool(false), "id", requested[j]);
        var _ := db.UpdateEntry(UserIds, "processed", Bool(true), "id", requested[j]);
        missing := missing + 1;
      }
    }
    assert requested[|requested|..] == [];
  }

  /** `Get_User_Batch(users)` given the `channels.list` response: the count of invalid users, or the exception. */
  method GetUserBatch(db: Database, files: Assets.Files, response: Value, requested: seq<Value>, env: Env)
      returns (newFiles: Assets.Files, invalid: Result<int, Failure>)
    modifies db
    ensures invalid.Err? ==> db.tables == old(db.tables) && newFiles == files
    ensures (match invalid case Ok(n) => Ok(Batch(db.tables, newFiles, n)) case Err(e) => Err(e))
      == UserBatch(old(db.tables), files, response, requested, env)
  {
    newFiles := files;
    var listed := Listed(response);
    if listed.Err? {
      return files, Err(listed.error);
    }
    var valid: set<Value> := {};
    var aborted := false;
    var items := Iterate(listed.value);
    if items.Err? {
      aborted := true;
    } else {
      newFiles, valid, aborted := StoreEach(db, files, items.value, env);
    }
    var missing := MarkMissing(db, valid, requested);
    invalid := Ok(missing + if aborted then 1 else 0);
  }
}
