/**
 * Chat ingestion in `modules/Classes.py`: `ChatStats`, the recovery file
 * written by `_WriteFile`, and the `Get_Messages` loop that stores users,
 * emotes, messages and nickname matches, flushing the recovery file before
 * any exception is re-raised.
 */
module Chat {
  import opened Wrappers
  import opened Values
  import opened Store
  import Entities
  import Nicknames

  // ----- statistics -----

  /** The counters of a `ChatStats`. */
  datatype Counts = Counts(
    total: int, newMessages: int, existingMessages: int,
    newUserIds: int, existUserIds: set<Value>, invalidUsers: int)

  const Zero: Counts := Counts(0, 0, 0, 0, {}, 0)

  /** `append_all`'s effect on the totals: four sums and a union; `invalid_users` is not carried over. */
  function Combine(acc: Counts, c: Counts): (r: Counts)
    ensures r.total - acc.total == c.total && r.newMessages - acc.newMessages == c.newMessages
    ensures r.existingMessages - acc.existingMessages == c.existingMessages
    ensures r.newUserIds - acc.newUserIds == c.newUserIds
    ensures acc.existUserIds <= r.existUserIds && c.existUserIds <= r.existUserIds
    ensures forall u :: u in r.existUserIds ==> u in acc.existUserIds || u in c.existUserIds
    ensures r.invalidUsers == acc.invalidUsers
  {
    Counts(
      acc.total + c.total, acc.newMessages + c.newMessages, acc.existingMessages + c.existingMessages,
      acc.newUserIds + c.newUserIds, acc.existUserIds + c.existUserIds, acc.invalidUsers)
  }

  /** Adding the per-video statistics in any grouping gives the same totals. */
  lemma CombineAssociative(a: Counts, b: Counts, c: Counts)
    ensures Combine(Combine(a, b), c) == Combine(a, Combine(b, c))
  {
  }

  lemma CombineZero(a: Counts)
    ensures Combine(a, Zero) == a
  {
  }

  class ChatStats {
    var totalMessages: int
    var newMessages: int
    var existingMessages: int
    var newUserIds: int
    var existUserIds: set<Value>
    var invalidUsers: int

    constructor()
      ensures Snapshot() == Zero
    {
      totalMessages, newMessages, existingMessages := 0, 0, 0;
      newUserIds, existUserIds, invalidUsers := 0, {}, 0;
    }

    function Snapshot(): Counts
      reads this
    {
      Counts(totalMessages, newMessages, existingMessages, newUserIds, existUserIds, invalidUsers)
    }

    /** `new_messages += 1`. */
    method CountNew()
      modifies this
      ensures Snapshot() == old(Snapshot()).(newMessages := old(Snapshot()).newMessages + 1)
    {
      newMessages := newMessages + 1;
    }

    /** `append_all`: adds this object's counters into `all`, leaving this object alone. */
    method AppendAll(all: ChatStats)
      modifies all
      ensures all.Snapshot() == Combine(old(all.Snapshot()), old(Snapshot()))
      ensures all != this ==> Snapshot() == old(Snapshot())
    {
      var c := Snapshot();
      all.totalMessages := all.totalMessages + c.total;
      all.newMessages := all.newMessages + c.newMessages;
      all.existingMessages := all.existingMessages + c.existingMessages;
      all.newUserIds := all.newUserIds + c.newUserIds;
      all.existUserIds := all.existUserIds + c.existUserIds;
    }
  }

  // ----- the recovery file -----

  /** `m["message_id"]`. */
  function IdOf(m: Value): Result<Value, Failure> {
    Subscript(m, "message_id")
  }

  /** The set `{get(m) for m in ms}`; the first failing `get` raises. */
  function Gather(get: Value -> Result<Value, Failure>, ms: seq<Value>): (r: Result<set<Value>, Failure>)
    ensures r.Ok? <==> forall i :: 0 <= i < |ms| ==> get(ms[i]).Ok?
    ensures r.Ok? ==> forall i :: 0 <= i < |ms| ==> get(ms[i]).value in r.value
  {
    if ms == [] then Ok({})
    else
      match get(ms[0])
      case Err(e) => Err(e)
      case Ok(id) =>
        match Gather(get, ms[1..])
        case Err(e) => Err(e)
        case Ok(rest) =>
          assert forall i :: 1 <= i < |ms| ==> ms[1..][i - 1] == ms[i];
          Ok({id} + rest)
  }

  /** The set `e_ids` built from the file's messages; the first unreadable id raises. */
  function IdsOf(ms: seq<Value>): Result<set<Value>, Failure> {
    Gather(IdOf, ms)
  }

  /** The messages of `list` whose id is not in `ids`, in order; the first unreadable id raises. */
  function Unseen(ids: set<Value>, list: seq<Value>): (r: Result<seq<Value>, Failure>)
    ensures r.Ok? <==> forall i :: 0 <= i < |list| ==> IdOf(list[i]).Ok?
    ensures r.Ok? ==> forall m :: m in r.value <==> m in list && IdOf(m).value !in ids
  {
    if list == [] then Ok([])
    else
      match IdOf(list[0])
      case Err(e) => Err(e)
      case Ok(id) =>
        match Unseen(ids, list[1..])
        case Err(e) => Err(e)
        case Ok(rest) =>
          assert forall i :: 1 <= i < |list| ==> list[1..][i - 1] == list[i];
          assert forall m :: m in list <==> m == list[0] || m in list[1..];
          Ok(if id in ids then rest else [list[0]] + rest)
  }

  /**
   * The second loop of `_WriteFile` over a file that is not a list: the
   * first message whose id the file lacks makes `append` raise, unless an
   * unreadable id raises before it; `None` when every id is on file.
   */
  function AppendFailure(ids: set<Value>, list: seq<Value>): Option<Failure>
  {
    if list == [] then None
    else
      match IdOf(list[0])
      case Err(e) => Some(e)
      case Ok(id) => if id in ids then AppendFailure(ids, list[1..]) else Some(AttributeError("append"))
  }

  /** The second loop over a file that is not a list raises nothing exactly when it would append nothing. */
  lemma {:induction false} AppendFailureNone(ids: set<Value>, list: seq<Value>)
    ensures AppendFailure(ids, list).None? <==> Unseen(ids, list) == Ok([])
    decreases |list|
  {
    if list != [] {
      AppendFailureNone(ids, list[1..]);
    }
  }

  /**
   * `_WriteFile`: without a file, the list itself; with one, the file's
   * messages followed by the new messages whose id the file lacks. The
   * file's ids are gathered once, so duplicates within the list all go in.
   * A file that is not a list can only be rewritten as it was; its first
   * unseen message raises at `append`.
   */
  function Written(file: Option<Value>, list: seq<Value>): (r: Result<Value, Failure>)
    ensures file.None? ==> r == Ok(List(list))
  {
    match file
    case None => Ok(List(list))
    case Some(v) =>
      match Iterate(v)
      case Err(e) => Err(e)
      case Ok(existing) =>
        match IdsOf(existing)
        case Err(e) => Err(e)
        case Ok(ids) =>
          if v.List? then
            match Unseen(ids, list)
            case Err(e) => Err(e)
            case Ok(kept) => Ok(List(v.items + kept))
          else
            match AppendFailure(ids, list)
            case None => Ok(v)
            case Some(e) => Err(e)
  }

  /**
   * Over a file that is not a list, the second loop raises at the first
   * message that is not skipped: the `IdOf` error of an unreadable id, or
   * `append` for an id the file lacks.
   */
  lemma {:induction false} AppendFailureAt(ids: set<Value>, list: seq<Value>, k: nat)
    requires k < |list|
    requires forall j :: 0 <= j < k ==> IdOf(list[j]).Ok? && IdOf(list[j]).value in ids
    ensures IdOf(list[k]).Err? ==> AppendFailure(ids, list) == Some(IdOf(list[k]).error)
    ensures IdOf(list[k]).Ok? && IdOf(list[k]).value !in ids ==> AppendFailure(ids, list) == Some(AttributeError("append"))
    decreases k
  {
    AppendFailureEnds(ids, list);
    AppendFailureStep(ids, list, 0);
    if k > 0 {
      var rest := list[1..];
      forall j | 0 <= j < k - 1
        ensures IdOf(rest[j]).Ok? && IdOf(rest[j]).value in ids
      {
        assert rest[j] == list[j + 1];
      }
      AppendFailureAt(ids, rest, k - 1);
      assert rest[k - 1] == list[k];
    }
  }

  /** A recovery file that is not a list is rewritten unchanged, or the first unseen message raises `append`. */
  lemma WrittenNotList(v: Value, list: seq<Value>, k: nat)
    requires !v.List? && Iterate(v).Ok? && IdsOf(Iterate(v).value).Ok?
    requires k <= |list|
    requires forall j :: 0 <= j < k ==> IdOf(list[j]).Ok? && IdOf(list[j]).value in IdsOf(Iterate(v).value).value
    ensures k == |list| ==> Written(Some(v), list) == Ok(v)
    ensures k < |list| && IdOf(list[k]).Err? ==> Written(Some(v), list) == Err(IdOf(list[k]).error)
    ensures k < |list| && IdOf(list[k]).Ok? && IdOf(list[k]).value !in IdsOf(Iterate(v).value).value ==>
      Written(Some(v), list) == Err(AttributeError("append"))
  {
    var ids := IdsOf(Iterate(v).value).value;
    if k < |list| {
      AppendFailureAt(ids, list, k);
    } else {
      AppendFailureSkipsAll(ids, list);
    }
  }

  /** Every id on file: the second loop skips every message. */
  lemma {:induction false} AppendFailureSkipsAll(ids: set<Value>, list: seq<Value>)
    requires forall j :: 0 <= j < |list| ==> IdOf(list[j]).Ok? && IdOf(list[j]).value in ids
    ensures AppendFailure(ids, list) == None
    decreases |list|
  {
    if list != [] {
      AppendFailureStep(ids, list, 0);
      AppendFailureEnds(ids, list);
      var rest := list[1..];
      forall j | 0 <= j < |rest|
        ensures IdOf(rest[j]).Ok? && IdOf(rest[j]).value in ids
      {
        assert rest[j] == list[j + 1];
      }
      AppendFailureSkipsAll(ids, rest);
    }
  }

  /** An empty dict on file with a new message before one without an id: `append` raises first. */
  lemma AppendBeforeKeyError()
    ensures Written(Some(Dict([])), [Dict([("message_id", Int(1))]), Dict([])]) == Err(AttributeError("append"))
  {
    var list := [Dict([("message_id", Int(1))]), Dict([])];
    assert |Iterate(Dict([])).value| == 0;
    assert Iterate(Dict([])) == Ok([]);
    assert IdsOf([]) == Ok({});
    assert IdOf(list[0]) == Ok(Int(1));
    AppendFailureAt({}, list, 0);
  }

  /** One message is kept exactly when its id is unseen. */
  lemma UnseenSingle(ids: set<Value>, m: Value)
    requires IdOf(m).Ok?
    ensures Unseen(ids, [m]) == Ok(if IdOf(m).value in ids then [] else [m])
  {
    assert [m][0] == m && [m][1..] == [];
    assert Unseen(ids, []) == Ok([]);
    UnseenHead(ids, [m]);
    var none: seq<Value> := [];
    assert none + none == none && [m] + none == [m];
  }

  /** Filtering a concatenation filters each part and keeps them in order. */
  lemma {:induction false} UnseenConcat(ids: set<Value>, a: seq<Value>, b: seq<Value>)
    requires Unseen(ids, a).Ok? && Unseen(ids, b).Ok?
    ensures Unseen(ids, a + b) == Ok(Unseen(ids, a).value + Unseen(ids, b).value)
    decreases |a|
  {
    if a == [] {
      assert a + b == b;
      assert [] + Unseen(ids, b).value == Unseen(ids, b).value;
    } else {
      UnseenConcat(ids, a[1..], b);
      UnseenConcatStep(ids, a, b);
    }
  }

  /** The step of `UnseenConcat`: the first message of `a` is decided before the rest. */
  lemma UnseenConcatStep(ids: set<Value>, a: seq<Value>, b: seq<Value>)
    requires a != [] && Unseen(ids, a).Ok? && Unseen(ids, b).Ok?
    requires Unseen(ids, a[1..] + b) == Ok(Unseen(ids, a[1..]).value + Unseen(ids, b).value)
    ensures Unseen(ids, a + b) == Ok(Unseen(ids, a).value + Unseen(ids, b).value)
  {
    TailOfConcat(a, b);
    UnseenHead(ids, a);
    UnseenHead(ids, a + b);
    var head := if IdOf(a[0]).value in ids then [] else [a[0]];
    Associative(head, Unseen(ids, a[1..]).value, Unseen(ids, b).value);
  }

  lemma Associative(x: seq<Value>, y: seq<Value>, z: seq<Value>)
    ensures x + (y + z) == (x + y) + z
  {
  }

  lemma TailOfConcat(a: seq<Value>, b: seq<Value>)
    requires a != []
    ensures (a + b)[0] == a[0] && (a + b)[1..] == a[1..] + b
  {
  }

  /** `Unseen` decides the head of a list, then filters the rest. */
  lemma UnseenHead(ids: set<Value>, l: seq<Value>)
    requires l != [] && Unseen(ids, l).Ok?
    ensures IdOf(l[0]).Ok? && Unseen(ids, l[1..]).Ok?
    ensures Unseen(ids, l) == Ok((if IdOf(l[0]).value in ids then [] else [l[0]]) + Unseen(ids, l[1..]).value)
  {
    var rest := Unseen(ids, l[1..]).value;
    if IdOf(l[0]).value in ids {
      assert Unseen(ids, l) == Ok(rest);
      assert [] + rest == rest;
    } else {
      assert Unseen(ids, l) == Ok([l[0]] + rest);
    }
  }

  /** Every occurrence of an unseen message is kept, and no occurrence of a seen one. */
  lemma {:induction false} UnseenCounts(ids: set<Value>, list: seq<Value>, m: Value)
    requires Unseen(ids, list).Ok? && IdOf(m).Ok?
    ensures multiset(Unseen(ids, list).value)[m] == if IdOf(m).value in ids then 0 else multiset(list)[m]
    decreases |list|
  {
    if list != [] {
      assert list == [list[0]] + list[1..];
      UnseenCounts(ids, list[1..], m);
      var head := if IdOf(list[0]).value in ids then [] else [list[0]];
      assert Unseen(ids, list).value == head + Unseen(ids, list[1..]).value;
      assert multiset(list) == multiset([list[0]]) + multiset(list[1..]);
      assert multiset(Unseen(ids, list).value) == multiset(head) + multiset(Unseen(ids, list[1..]).value);
    }
  }

  /** With a list on file, the result keeps the file's order and appends the unseen messages in list order. */
  lemma WrittenMerges(existing: seq<Value>, list: seq<Value>)
    requires Written(Some(List(existing)), list).Ok?
    ensures var r := Written(Some(List(existing)), list).value;
      && r.List? && |existing| <= |r.items| && r.items[..|existing|] == existing
      && r.items == existing + Unseen(IdsOf(existing).value, list).value
      && (forall m :: m in r.items[|existing|..] <==> m in list && IdOf(m).value !in IdsOf(existing).value)
      && (forall m :: m in list ==> m in r.items || IdOf(m).value in IdsOf(existing).value)
  {
    var ids := IdsOf(existing).value;
    var kept := Unseen(ids, list).value;
    var r := existing + kept;
    assert r[..|existing|] == existing && r[|existing|..] == kept;
  }

  /**
   * The gathered set holds nothing but the messages' ids, and a failure is
   * the error of the first message whose id cannot be read.
   */
  lemma {:induction false} GatherExact(get: Value -> Result<Value, Failure>, ms: seq<Value>)
    ensures Gather(get, ms).Ok? ==>
      forall v :: v in Gather(get, ms).value ==> exists i :: 0 <= i < |ms| && get(ms[i]) == Ok(v)
    ensures Gather(get, ms).Err? ==>
      exists i :: 0 <= i < |ms| && get(ms[i]) == Err(Gather(get, ms).error) &&
        forall j :: 0 <= j < i ==> get(ms[j]).Ok?
    decreases |ms|
  {
    if ms != [] {
      var rest := ms[1..];
      GatherExact(get, rest);
      assert forall i :: 1 <= i < |ms| ==> rest[i - 1] == ms[i];
      if get(ms[0]).Ok? && Gather(get, ms).Ok? {
        forall v | v in Gather(get, ms).value
          ensures exists i :: 0 <= i < |ms| && get(ms[i]) == Ok(v)
        {
          if v != get(ms[0]).value {
            var i :| 0 <= i < |rest| && get(rest[i]) == Ok(v);
            assert get(ms[i + 1]) == Ok(v);
          }
        }
      } else if get(ms[0]).Ok? {
        var i :| 0 <= i < |rest| && get(rest[i]) == Err(Gather(get, rest).error) &&
          forall j :: 0 <= j < i ==> get(rest[j]).Ok?;
        assert get(ms[i + 1]) == Err(Gather(get, ms).error);
        assert forall j :: 0 <= j < i + 1 ==> get(ms[j]).Ok?;
      }
    }
  }

  /** Gathering over a concatenation joins the two gathered sets. */
  lemma {:induction false} GatherConcat(get: Value -> Result<Value, Failure>, a: seq<Value>, b: seq<Value>)
    requires Gather(get, a).Ok? && Gather(get, b).Ok?
    ensures Gather(get, a + b) == Ok(Gather(get, a).value + Gather(get, b).value)
    decreases |a|
  {
    if a == [] {
      assert a + b == b;
      assert {} + Gather(get, b).value == Gather(get, b).value;
    } else {
      var id := get(a[0]).value;
      GatherConcat(get, a[1..], b);
      assert (a + b)[0] == a[0] && (a + b)[1..] == a[1..] + b;
      assert {id} + (Gather(get, a[1..]).value + Gather(get, b).value)
          == ({id} + Gather(get, a[1..]).value) + Gather(get, b).value;
    }
  }

  /** Every message of `list` that `Unseen` keeps has a readable id. */
  lemma KeptIds(ids: set<Value>, list: seq<Value>)
    requires Unseen(ids, list).Ok?
    ensures IdsOf(Unseen(ids, list).value).Ok?
    ensures forall m :: m in list ==> IdOf(m).value in ids + IdsOf(Unseen(ids, list).value).value
  {
    var kept := Unseen(ids, list).value;
    forall i | 0 <= i < |kept|
      ensures IdOf(kept[i]).Ok?
    {
      assert kept[i] in list;
      var j :| 0 <= j < |list| && list[j] == kept[i];
    }
    forall m | m in list
      ensures IdOf(m).value in ids + IdsOf(kept).value
    {
      var j :| 0 <= j < |list| && list[j] == m;
      if IdOf(m).value !in ids {
        assert m in kept;
        var k :| 0 <= k < |kept| && kept[k] == m;
      }
    }
  }

  /** Messages whose ids are all known are all skipped. */
  lemma {:induction false} AllSeen(ids: set<Value>, list: seq<Value>)
    requires forall m :: m in list ==> IdOf(m).Ok? && IdOf(m).value in ids
    ensures Unseen(ids, list) == Ok([])
    decreases |list|
  {
    if list != [] {
      assert list[0] in list;
      assert forall m :: m in list[1..] ==> m in list;
      AllSeen(ids, list[1..]);
    }
  }

  /** Writing the same list twice leaves the file as writing it once. */
  lemma WrittenIdempotent(existing: seq<Value>, list: seq<Value>)
    requires Written(Some(List(existing)), list).Ok?
    ensures Written(Some(Written(Some(List(existing)), list).value), list) == Written(Some(List(existing)), list)
  {
    var ids := IdsOf(existing).value;
    var kept := Unseen(ids, list).value;
    KeptIds(ids, list);
    GatherConcat(IdOf, existing, kept);
    forall m | m in list
      ensures IdOf(m).Ok?
    {
      var j :| 0 <= j < |list| && list[j] == m;
    }
    AllSeen(ids + IdsOf(kept).value, list);
    assert existing + kept + [] == existing + kept;
  }

  /** `n` copies of one message. */
  function Copies(m: Value, n: nat): (r: seq<Value>)
    ensures |r| == n && forall i :: 0 <= i < n ==> r[i] == m
  {
    if n == 0 then [] else [m] + Copies(m, n - 1)
  }

  /** A message new to the file is appended once per occurrence in the list, since `e_ids` is not updated. */
  lemma DuplicatesKept(existing: seq<Value>, m: Value, n: nat)
    requires IdsOf(existing).Ok? && IdOf(m).Ok? && IdOf(m).value !in IdsOf(existing).value
    ensures Written(Some(List(existing)), Copies(m, n)) == Ok(List(existing + Copies(m, n)))
  {
    UnseenCopies(IdsOf(existing).value, m, n);
  }

  lemma {:induction false} UnseenCopies(ids: set<Value>, m: Value, n: nat)
    requires IdOf(m).Ok? && IdOf(m).value !in ids
    ensures Unseen(ids, Copies(m, n)) == Ok(Copies(m, n))
  {
    if n > 0 {
      var c := Copies(m, n);
      assert c[0] == m && c[1..] == Copies(m, n - 1);
      UnseenCopies(ids, m, n - 1);
    }
  }

  /** The first `for` loop of `_WriteFile`, gathering `e_ids`. */
  method GatherIds(ms: seq<Value>) returns (r: Result<set<Value>, Failure>)
    ensures r == IdsOf(ms)
  {
    var ids: set<Value> := {};
    var i := 0;
    IdsStart(ms);
    while i < |ms|
      invariant 0 <= i <= |ms|
      invariant Adjoin(ids, IdsOf(ms[i..])) == IdsOf(ms)
    {
      IdsStep(ms, i, ids);
      var id := IdOf(ms[i]);
      if id.Err? {
        return Err(id.error);
      }
      ids := ids + {id.value};
      i := i + 1;
    }
    IdsDone(ms, ids);
    r := Ok(ids);
  }

  /** `ids` gathered so far, joined to what the rest of the loop yields. */
  function Adjoin(ids: set<Value>, rest: Result<set<Value>, Failure>): Result<set<Value>, Failure> {
    match rest
    case Ok(s) => Ok(ids + s)
    case Err(e) => Err(e)
  }

  lemma IdsStart(ms: seq<Value>)
    ensures Adjoin({}, IdsOf(ms[0..])) == IdsOf(ms)
  {
    assert ms[0..] == ms;
    match IdsOf(ms)
    case Ok(s) => assert {} + s == s;
    case Err(_) =>
  }

  lemma IdsStep(ms: seq<Value>, i: nat, ids: set<Value>)
    requires i < |ms|
    ensures IdOf(ms[i]).Err? ==> Adjoin(ids, IdsOf(ms[i..])) == Err(IdOf(ms[i]).error)
    ensures IdOf(ms[i]).Ok? ==> Adjoin(ids, IdsOf(ms[i..])) == Adjoin(ids + {IdOf(ms[i]).value}, IdsOf(ms[i + 1..]))
  {
    assert ms[i..][0] == ms[i] && ms[i..][1..] == ms[i + 1..];
    if IdOf(ms[i]).Ok? {
      var id := IdOf(ms[i]).value;
      match IdsOf(ms[i + 1..])
      case Ok(rest) => assert ids + ({id} + rest) == (ids + {id}) + rest;
      case Err(_) =>
    }
  }

  lemma IdsDone(ms: seq<Value>, ids: set<Value>)
    ensures Adjoin(ids, IdsOf(ms[|ms|..])) == Ok(ids)
  {
    assert ms[|ms|..] == [];
    assert IdsOf([]) == Ok({});
    assert ids + {} == ids;
  }

  /** Kept messages so far, joined to what the rest of the loop keeps. */
  function After(kept: seq<Value>, rest: Result<seq<Value>, Failure>): Result<seq<Value>, Failure> {
    match rest
    case Ok(s) => Ok(kept + s)
    case Err(e) => Err(e)
  }

  lemma UnseenStep(ids: set<Value>, list: seq<Value>, i: nat, kept: seq<Value>)
    requires i < |list|
    ensures IdOf(list[i]).Err? ==> After(kept, Unseen(ids, list[i..])) == Err(IdOf(list[i]).error)
    ensures IdOf(list[i]).Ok? ==>
      (After(kept, Unseen(ids, list[i..])) ==
       After(if IdOf(list[i]).value in ids then kept else kept + [list[i]], Unseen(ids, list[i + 1..])))
  {
    assert list[i..][0] == list[i] && list[i..][1..] == list[i + 1..];
    var rest := Unseen(ids, list[i + 1..]);
    if IdOf(list[i]).Ok? && rest.Ok? && IdOf(list[i]).value !in ids {
      assert kept + ([list[i]] + rest.value) == kept + [list[i]] + rest.value;
    }
  }

  lemma UnseenEnds(ids: set<Value>, list: seq<Value>, kept: seq<Value>)
    ensures After([], Unseen(ids, list[0..])) == Unseen(ids, list)
    ensures After(kept, Unseen(ids, list[|list|..])) == Ok(kept)
  {
    assert list[0..] == list;
    assert list[|list|..] == [];
    assert kept + [] == kept;
    match Unseen(ids, list)
    case Ok(s) => assert [] + s == s;
    case Err(_) =>
  }

  /** `_WriteFile`, with the recovery file's decoded content as state. */
  method WriteFile(file: Option<Value>, messageList: seq<Value>) returns (r: Result<Value, Failure>)
    ensures r == Written(file, messageList)
  {
    if file.None? {
      return Ok(List(messageList));
    }
    var allMessages := file.value;
    var existing := Iterate(allMessages);
    if existing.Err? {
      return Err(existing.error);
    }
    var ids := GatherIds(existing.value);
    if ids.Err? {
      return Err(ids.error);
    }
    var kept: seq<Value> := [];
    var i := 0;
    UnseenEnds(ids.value, messageList, kept);
    AppendFailureEnds(ids.value, messageList);
    while i < |messageList|
      invariant 0 <= i <= |messageList|
      invariant allMessages.List? ==> After(kept, Unseen(ids.value, messageList[i..])) == Unseen(ids.value, messageList)
      invariant !allMessages.List? ==> AppendFailure(ids.value, messageList[i..]) == AppendFailure(ids.value, messageList)
    {
      UnseenStep(ids.value, messageList, i, kept);
      AppendFailureStep(ids.value, messageList, i);
      var id := IdOf(messageList[i]);
      if id.Err? {
        return Err(id.error);
      }
      if id.value !in ids.value {
        if !allMessages.List? {
          return Err(AttributeError("append"));
        }
        kept := kept + [messageList[i]];
      }
      i := i + 1;
    }
    UnseenEnds(ids.value, messageList, kept);
    AppendFailureEnds(ids.value, messageList);
    if allMessages.List? {
      r := Ok(List(allMessages.items + kept));
    } else {
      r := Ok(allMessages);
    }
  }

  lemma AppendFailureStep(ids: set<Value>, list: seq<Value>, i: nat)
    requires i < |list|
    ensures IdOf(list[i]).Err? ==> AppendFailure(ids, list[i..]) == Some(IdOf(list[i]).error)
    ensures IdOf(list[i]).Ok? && IdOf(list[i]).value in ids ==> AppendFailure(ids, list[i..]) == AppendFailure(ids, list[i + 1..])
    ensures IdOf(list[i]).Ok? && IdOf(list[i]).value !in ids ==> AppendFailure(ids, list[i..]) == Some(AttributeError("append"))
  {
    assert list[i..][0] == list[i] && list[i..][1..] == list[i + 1..];
  }

  lemma AppendFailureEnds(ids: set<Value>, list: seq<Value>)
    ensures AppendFailure(ids, list[0..]) == AppendFailure(ids, list)
    ensures AppendFailure(ids, list[|list|..]) == None
  {
    assert list[0..] == list;
    assert list[|list|..] == [];
  }

  // ----- one message -----

  const MatchConflict: string := "message_id,index_start,index_end"

  /** The `nickname_matches` rows for the recorded spans. */
  function MatchRows(id: Value, found: seq<Nicknames.Match>): seq<Row> {
    seq(|found|, i requires 0 <= i < |found| =>
      [("message_id", id), ("matched_nickname", Str(found[i].nick)),
       ("index_start", Int(found[i].start)), ("index_end", Int(found[i].end))])
  }

  /** The store and counters after one iteration, and the exception it raised, if any. */
  datatype Processed = Processed(tables: Tables, counts: Counts, failure: Option<Failure>)

  /** The row a new user gets. */
  function UserRow(id: Value): Row {
    [("id", id)]
  }

  /**
   * One iteration of the `Get_Messages` loop once `MessageClass` has
   * returned or raised: count the message, then store what it carries.
   */
  function Process(tables: Tables, counts: Counts, normalized: Result<Entities.Message, Failure>): Processed {
    var c0 := counts.(total := counts.total + 1);
    match normalized
    case Err(e) => Processed(tables, c0, Some(e))
    case Ok(msg) => Record(tables, c0, msg)
  }

  /**
   * Store the message's user unless a row has that id, its emotes, and the
   * message itself unless a row has that message id.
   */
  function Record(tables: Tables, counts: Counts, msg: Entities.Message): Processed {
    var (t1, c1) := RecordUser(tables, counts, msg.userId);
    var t2 := if |msg.emotes| > 0 then AfterInsert(t1, Emotes, msg.emotes, "id") else t1;
    StoreMessage(t2, c1, msg)
  }

  /** A message no row has yet is new; one already stored is counted as existing. */
  function StoreMessage(tables: Tables, counts: Counts, msg: Entities.Message): Processed {
    if Absent(tables, Messages, "message_id", msg.id) then RecordNew(tables, counts, msg)
    else Processed(tables, counts.(existingMessages := counts.existingMessages + 1), None)
  }

  /** A `user_ids` row for an id no row has; otherwise the id joins `exist_user_ids`. */
  function RecordUser(tables: Tables, counts: Counts, userId: Value): (Tables, Counts) {
    if Absent(tables, UserIds, "id", userId) then
      (AfterInsert(tables, UserIds, [UserRow(userId)], ""), counts.(newUserIds := counts.newUserIds + 1))
    else (tables, counts.(existUserIds := counts.existUserIds + {userId}))
  }

  /** A message not yet stored: insert it, then match the stored nicknames in its text. */
  function RecordNew(tables: Tables, counts: Counts, msg: Entities.Message): Processed {
    var t := AfterInsert(tables, Messages, [msg.entry], "");
    Matched(t, counts, msg, Nicknames.AliasesFromRows(Query(t, NicknameTable, Only(["nickname"]), None)))
  }

  /** After the message is stored: search it for the aliases, if there are any, and store the matches. */
  function Matched(t: Tables, counts: Counts, msg: Entities.Message, aliases: seq<string>): Processed {
    if |aliases| == 0 then Processed(t, counts.(newMessages := counts.newMessages + 1), None)
    else Searched(t, counts, msg.id, Nicknames.FindMatches(aliases, msg.text))
  }

  /** The search's exception, or the insert of its matches. */
  function Searched(t: Tables, counts: Counts, id: Value, found: Result<seq<Nicknames.Match>, Failure>): Processed {
    match found
    case Err(e) => Processed(t, counts, Some(e))
    case Ok(f) =>
      Processed(AfterInsert(t, NicknameMatches, MatchRows(id, f), MatchConflict),
                counts.(newMessages := counts.newMessages + 1), None)
  }

  // ----- the loop -----

  /** The loop's end state: store, counters, `message_list` and the exception that stopped it. */
  datatype Run = Run(tables: Tables, counts: Counts, done: seq<Value>, failure: Option<Failure>)

  /** The loop body, as a function of the store, the counters and the message. */
  type Step = (Tables, Counts, Value) -> Processed

  /** The loop body of `Get_Messages` for one video. */
  function StepFor(videoId: Value): Step {
    (t: Tables, c: Counts, m: Value) => Process(t, c, Entities.NormalizeMessage(m, videoId))
  }

  /** The `for message in chat_list` loop, ending at the first exception. */
  function Ingest(step: Step, tables: Tables, counts: Counts, messages: seq<Value>): (r: Run)
    ensures |r.done| <= |messages| && r.done == messages[..|r.done|]
    ensures r.failure.None? ==> r.done == messages
    ensures r.failure.Some? ==> |r.done| < |messages|
    decreases |messages|
  {
    if messages == [] then Run(tables, counts, [], None)
    else
      var p := step(tables, counts, messages[0]);
      if p.failure.Some? then Run(p.tables, p.counts, [], p.failure)
      else
        var r := Ingest(step, p.tables, p.counts, messages[1..]);
        assert messages[1..][..|r.done|] == messages[1..|r.done| + 1];
        Run(r.tables, r.counts, [messages[0]] + r.done, r.failure)
  }

  /** A run that already appended `done`, continued by `rest`. */
  function Continue(done: seq<Value>, rest: Run): Run {
    rest.(done := done + rest.done)
  }

  // ----- the whole call -----

  /** What the chat source produced: its messages, then possibly an exception. */
  datatype Feed = Feed(messages: seq<Value>, end: Option<Failure>)

  /** The store, the recovery file and the returned statistics or raised exception. */
  datatype Outcome = Outcome(tables: Tables, file: Option<Value>, result: Result<Counts, Failure>)

  /** After the loop: `_WriteFile`, then the loop's exception, the source's, or the statistics. */
  function Finish(r: Run, file: Option<Value>, end: Option<Failure>): (o: Outcome)
    ensures o.tables == r.tables
    ensures Written(file, r.done).Err? ==> o == Outcome(r.tables, file, Err(Written(file, r.done).error))
    ensures Written(file, r.done).Ok? ==> o.file == Some(Written(file, r.done).value)
    ensures Written(file, r.done).Ok? && r.failure.Some? ==> o.result == Err(r.failure.value)
    ensures Written(file, r.done).Ok? && r.failure.None? && end.None? ==> o.result == Ok(r.counts)
    ensures Written(file, r.done).Ok? && r.failure.None? && end.Some? ==> o.result == Err(end.value)
  {
    match Written(file, r.done)
    case Err(w) => Outcome(r.tables, file, Err(w))
    case Ok(f) =>
      var failure := if r.failure.Some? then r.failure else end;
      Outcome(r.tables, Some(f), if failure.Some? then Err(failure.value) else Ok(r.counts))
  }

  /**
   * `Get_Messages(video, skip_download)`: with `skip_download` the messages
   * come from the recovery file (a missing file leaves `messages_on_file`
   * unbound, and a JSON `null` returns empty statistics); otherwise from the
   * chat source, whose own exception escapes before anything is written.
   */
  function GetMessagesSpec(tables: Tables, videoId: Value, skipDownload: bool,
                           chat: Result<Feed, Failure>, file: Option<Value>): Outcome
  {
    if skipDownload then
      match file
      case None => Outcome(tables, file, Err(NameError("messages_on_file")))
      case Some(v) =>
        if v == Null then Outcome(tables, file, Ok(Zero))
        else
          match Iterate(v)
          case Err(e) => Finish(Run(tables, Zero, [], Some(e)), file, None)
          case Ok(ms) => Finish(Ingest(StepFor(videoId), tables, Zero, ms), file, None)
    else
      match chat
      case Err(e) => Outcome(tables, file, Err(e))
      case Ok(feed) => Finish(Ingest(StepFor(videoId), tables, Zero, feed.messages), file, feed.end)
  }

  // ----- what the loop promises -----

  /** The user and message tables hold each id at most once. */
  predicate IdsUnique(tables: Tables) {
    UniqueOn(TableOf(tables, UserIds), "id") && UniqueOn(TableOf(tables, Messages), "message_id")
  }

  /** An insert into another table leaves both unique tables as they were. */
  lemma OtherTable(tables: Tables, table: string, rows: seq<Row>, conflict: string)
    requires table != UserIds && table != Messages
    ensures TableOf(AfterInsert(tables, table, rows, conflict), UserIds) == TableOf(tables, UserIds)
    ensures TableOf(AfterInsert(tables, table, rows, conflict), Messages) == TableOf(tables, Messages)
  {
  }

  /** A single unconstrained insert, made after finding no row with the key's value, keeps the key unique. */
  lemma GuardedInsert(tables: Tables, table: string, row: Row, key: string, value: Value)
    requires UniqueOn(TableOf(tables, table), key) && Absent(tables, table, key, value)
    requires Lookup(row, key) == Some(value)
    ensures UniqueOn(TableOf(AfterInsert(tables, table, [row], ""), table), key)
  {
    var t := TableOf(tables, table);
    assert InsertAll(t, [row], []) == InsertAll(t + [row], [], []);
    AbsentMeans(tables, table, key, value);
    InsertIfAbsent(t, row, key);
  }

  /** The message row carries the message id under `message_id`. */
  lemma EntryId(msg: Entities.Message, message: Value, videoId: Value)
    requires Entities.NormalizeMessage(message, videoId) == Ok(msg)
    ensures Lookup(msg.entry, "message_id") == Some(msg.id)
  {
    assert msg.entry[0].0 == Entities.MessageColumns[0];
  }

  lemma RecordNewUnique(tables: Tables, counts: Counts, msg: Entities.Message)
    requires IdsUnique(tables) && Absent(tables, Messages, "message_id", msg.id)
    requires Lookup(msg.entry, "message_id") == Some(msg.id)
    ensures IdsUnique(RecordNew(tables, counts, msg).tables)
  {
    var t := AfterInsert(tables, Messages, [msg.entry], "");
    GuardedInsert(tables, Messages, msg.entry, "message_id", msg.id);
    assert TableOf(t, UserIds) == TableOf(tables, UserIds);
    assert IdsUnique(t);
    var aliases := Nicknames.AliasesFromRows(Query(t, NicknameTable, Only(["nickname"]), None));
    var found := Nicknames.FindMatches(aliases, msg.text);
    if found.Ok? {
      OtherTable(t, NicknameMatches, MatchRows(msg.id, found.value), MatchConflict);
    }
  }

  lemma RecordUnique(tables: Tables, counts: Counts, msg: Entities.Message)
    requires IdsUnique(tables) && Lookup(msg.entry, "message_id") == Some(msg.id)
    ensures IdsUnique(Record(tables, counts, msg).tables)
  {
    var (t1, c1) := RecordUser(tables, counts, msg.userId);
    if Absent(tables, UserIds, "id", msg.userId) {
      GuardedInsert(tables, UserIds, UserRow(msg.userId), "id", msg.userId);
    }
    assert IdsUnique(t1);
    var t2 := if |msg.emotes| > 0 then AfterInsert(t1, Emotes, msg.emotes, "id") else t1;
    OtherTable(t1, Emotes, msg.emotes, "id");
    assert IdsUnique(t2);
    assert Record(tables, counts, msg) == StoreMessage(t2, c1, msg);
    if Absent(t2, Messages, "message_id", msg.id) {
      RecordNewUnique(t2, c1, msg);
    }
  }

  /** `MessageClass` put the message id in the row it built. */
  predicate Keyed(normalized: Result<Entities.Message, Failure>) {
    normalized.Ok? ==> Lookup(normalized.value.entry, "message_id") == Some(normalized.value.id)
  }

  /** A user row is inserted only if no row has its id, a message row only if none has its message id. */
  lemma ProcessUnique(tables: Tables, counts: Counts, normalized: Result<Entities.Message, Failure>)
    requires IdsUnique(tables) && Keyed(normalized)
    ensures IdsUnique(Process(tables, counts, normalized).tables)
  {
    if normalized.Ok? {
      ProcessRecords(tables, counts, normalized.value);
      RecordUnique(tables, counts.(total := counts.total + 1), normalized.value);
    }
  }

  /** A message `MessageClass` built is counted, then recorded. */
  lemma ProcessRecords(tables: Tables, counts: Counts, msg: Entities.Message)
    ensures Process(tables, counts, Ok(msg)) == Record(tables, counts.(total := counts.total + 1), msg)
  {
  }

  lemma NormalizedKeyed(message: Value, videoId: Value)
    ensures Keyed(Entities.NormalizeMessage(message, videoId))
  {
    var normalized := Entities.NormalizeMessage(message, videoId);
    if normalized.Ok? {
      EntryId(normalized.value, message, videoId);
    }
  }

  /** The loop keeps both id columns unique, however many times the same chat is ingested. */
  lemma {:induction false} IngestUnique(videoId: Value, tables: Tables, counts: Counts, messages: seq<Value>)
    requires IdsUnique(tables)
    ensures IdsUnique(Ingest(StepFor(videoId), tables, counts, messages).tables)
    decreases |messages|
  {
    if messages != [] {
      var normalized := Entities.NormalizeMessage(messages[0], videoId);
      NormalizedKeyed(messages[0], videoId);
      ProcessUnique(tables, counts, normalized);
      var p := Process(tables, counts, normalized);
      assert StepFor(videoId)(tables, counts, messages[0]) == p;
      if p.failure.None? {
        IngestUnique(videoId, p.tables, p.counts, messages[1..]);
      }
    }
  }

  /** Every iteration counts the message; a finished one counts it as exactly one of new and existing. */
  predicate Balanced(before: Counts, p: Processed) {
    && p.counts.total == before.total + 1
    && (p.failure.Some? ==>
          p.counts.newMessages == before.newMessages && p.counts.existingMessages == before.existingMessages)
    && (p.failure.None? ==>
          || (p.counts.newMessages == before.newMessages + 1 && p.counts.existingMessages == before.existingMessages)
          || (p.counts.newMessages == before.newMessages && p.counts.existingMessages == before.existingMessages + 1))
  }

  lemma ProcessBalanced(tables: Tables, counts: Counts, normalized: Result<Entities.Message, Failure>)
    ensures Balanced(counts, Process(tables, counts, normalized))
  {
    if normalized.Ok? {
      var c0 := counts.(total := counts.total + 1);
      RecordBalanced(tables, counts, c0, normalized.value);
      assert Process(tables, counts, normalized) == Record(tables, c0, normalized.value);
    }
  }

  /** `Record` leaves the total alone and counts a finished message once. */
  lemma RecordBalanced(tables: Tables, before: Counts, counts: Counts, msg: Entities.Message)
    requires counts == before.(total := before.total + 1)
    ensures Balanced(before, Record(tables, counts, msg))
  {
    var (t1, c1) := RecordUser(tables, counts, msg.userId);
    var t2 := if |msg.emotes| > 0 then AfterInsert(t1, Emotes, msg.emotes, "id") else t1;
    assert Record(tables, counts, msg) == StoreMessage(t2, c1, msg);
    StoreBalanced(t2, before, c1, msg);
  }

  /** Storing the message itself counts it once, as new or as existing, unless matching raises. */
  lemma StoreBalanced(tables: Tables, before: Counts, counts: Counts, msg: Entities.Message)
    requires counts.total == before.total + 1
    requires counts.newMessages == before.newMessages && counts.existingMessages == before.existingMessages
    ensures Balanced(before, StoreMessage(tables, counts, msg))
  {
    if Absent(tables, Messages, "message_id", msg.id) {
      assert StoreMessage(tables, counts, msg) == RecordNew(tables, counts, msg);
    }
  }

  /** From any counters, the loop adds one per message it saw, and one new-or-existing per finished message. */
  lemma {:induction false} IngestBalanced(videoId: Value, tables: Tables, counts: Counts, messages: seq<Value>)
    ensures var r := Ingest(StepFor(videoId), tables, counts, messages);
      && r.counts.total == counts.total + |r.done| + (if r.failure.Some? then 1 else 0)
      && r.counts.newMessages + r.counts.existingMessages == counts.newMessages + counts.existingMessages + |r.done|
    decreases |messages|
  {
    if messages != [] {
      var normalized := Entities.NormalizeMessage(messages[0], videoId);
      ProcessBalanced(tables, counts, normalized);
      var p := Process(tables, counts, normalized);
      assert StepFor(videoId)(tables, counts, messages[0]) == p;
      if p.failure.None? {
        IngestBalanced(videoId, p.tables, p.counts, messages[1..]);
      }
    }
  }

  /**
   * Nicknames are matched, and `nickname_matches` written, only in an
   * iteration that counts a new message: any other iteration leaves
   * `nickname_matches` as it was.
   */
  predicate MatchesOnlyNew(tables: Tables, before: Counts, p: Processed) {
    p.counts.newMessages == before.newMessages ==> TableOf(p.tables, NicknameMatches) == TableOf(tables, NicknameMatches)
  }

  lemma MatchingOnlyForNew(tables: Tables, counts: Counts, normalized: Result<Entities.Message, Failure>)
    ensures MatchesOnlyNew(tables, counts, Process(tables, counts, normalized))
  {
    if normalized.Ok? {
      var c0 := counts.(total := counts.total + 1);
      RecordMatchesOnlyNew(tables, c0, normalized.value);
      assert Process(tables, counts, normalized) == Record(tables, c0, normalized.value);
    }
  }

  lemma RecordMatchesOnlyNew(tables: Tables, counts: Counts, msg: Entities.Message)
    ensures MatchesOnlyNew(tables, counts, Record(tables, counts, msg))
  {
    var (t1, c1) := RecordUser(tables, counts, msg.userId);
    var t2 := if |msg.emotes| > 0 then AfterInsert(t1, Emotes, msg.emotes, "id") else t1;
    assert TableOf(t2, NicknameMatches) == TableOf(tables, NicknameMatches);
    if Absent(t2, Messages, "message_id", msg.id) {
      var t := AfterInsert(t2, Messages, [msg.entry], "");
      assert TableOf(t, NicknameMatches) == TableOf(t2, NicknameMatches);
    }
  }

  /** The alias list holds the column name `nickname` once per row of `nicknames`, never the stored values. */
  lemma AliasesOfStore(tables: Tables)
    ensures Nicknames.AliasesFromRows(Query(tables, NicknameTable, Only(["nickname"]), None))
         == seq(|TableOf(tables, NicknameTable)|, i => "nickname")
  {
    var rows := Query(tables, NicknameTable, Only(["nickname"]), None);
    Nicknames.AliasesAreColumnName(rows);
  }

  /** The whole call keeps both id columns unique, whatever it returns or raises. */
  lemma GetMessagesUnique(tables: Tables, videoId: Value, skipDownload: bool,
                          chat: Result<Feed, Failure>, file: Option<Value>)
    requires IdsUnique(tables)
    ensures IdsUnique(GetMessagesSpec(tables, videoId, skipDownload, chat, file).tables)
  {
    if skipDownload && file.Some? && file.value != Null && Iterate(file.value).Ok? {
      IngestUnique(videoId, tables, Zero, Iterate(file.value).value);
    } else if !skipDownload && chat.Ok? {
      IngestUnique(videoId, tables, Zero, chat.value.messages);
    }
  }

  /** Returned statistics count every message once, as new or as existing. */
  lemma GetMessagesBalanced(tables: Tables, videoId: Value, skipDownload: bool,
                            chat: Result<Feed, Failure>, file: Option<Value>)
    requires GetMessagesSpec(tables, videoId, skipDownload, chat, file).result.Ok?
    ensures var c := GetMessagesSpec(tables, videoId, skipDownload, chat, file).result.value;
      c.total == c.newMessages + c.existingMessages
  {
    if skipDownload && file.Some? && file.value != Null && Iterate(file.value).Ok? {
      IngestBalanced(videoId, tables, Zero, Iterate(file.value).value);
    } else if !skipDownload && chat.Ok? {
      IngestBalanced(videoId, tables, Zero, chat.value.messages);
    }
  }

  // ----- the methods -----

  /** One iteration of the loop, against the database and the statistics object. */
  method ProcessOne(db: Database, stats: ChatStats, message: Value, videoId: Value) returns (failure: Option<Failure>)
    modifies db, stats
    ensures Processed(db.tables, stats.Snapshot(), failure) == StepFor(videoId)(old(db.tables), old(stats.Snapshot()), message)
  {
    ghost var t, c := db.tables, stats.Snapshot();
    assert StepFor(videoId)(t, c, message) == Process(t, c, Entities.NormalizeMessage(message, videoId));
    stats.totalMessages := stats.totalMessages + 1;
    ghost var c0 := c.(total := c.total + 1);
    assert stats.Snapshot() == c0;
    var normalized := Entities.NormalizeMessage(message, videoId);
    ProcessCases(t, c, normalized);
    if normalized.Err? {
      return Some(normalized.error);
    }
    failure := RecordOne(db, stats, normalized.value);
  }

  /** An iteration counts the message, then either raises the normaliser's error or stores the message. */
  lemma ProcessCases(tables: Tables, counts: Counts, normalized: Result<Entities.Message, Failure>)
    ensures var c0 := counts.(total := counts.total + 1);
      && (normalized.Err? ==> Process(tables, counts, normalized) == Processed(tables, c0, Some(normalized.error)))
      && (normalized.Ok? ==> Process(tables, counts, normalized) == Record(tables, c0, normalized.value))
  {
  }

  /** Storing the user, emotes and message of a normalised message. */
  method RecordOne(db: Database, stats: ChatStats, msg: Entities.Message) returns (failure: Option<Failure>)
    modifies db, stats
    ensures Processed(db.tables, stats.Snapshot(), failure) == Record(old(db.tables), old(stats.Snapshot()), msg)
  {
    ghost var t0, c0 := db.tables, stats.Snapshot();
    RecordUserOne(db, stats, msg.userId);
    ghost var t1 := db.tables;
    ghost var c1 := stats.Snapshot();
    assert (t1, c1) == RecordUser(t0, c0, msg.userId);
    if |msg.emotes| > 0 {
      var _ := db.InsertEntries(Emotes, msg.emotes, "id");
    }
    ghost var t2 := db.tables;
    assert t2 == if |msg.emotes| > 0 then AfterInsert(t1, Emotes, msg.emotes, "id") else t1;
    assert Record(t0, c0, msg) == StoreMessage(t2, c1, msg);
    failure := StoreMessageOne(db, stats, msg);
  }

  /** The message itself: inserted when no row has its id, otherwise counted as existing. */
  method StoreMessageOne(db: Database, stats: ChatStats, msg: Entities.Message) returns (failure: Option<Failure>)
    modifies db, stats
    ensures Processed(db.tables, stats.Snapshot(), failure) == StoreMessage(old(db.tables), old(stats.Snapshot()), msg)
  {
    var absent := IsAbsent(db, Messages, "message_id", msg.id);
    if absent {
      failure := RecordNewOne(db, stats, msg);
    } else {
      stats.existingMessages := stats.existingMessages + 1;
      failure := None;
    }
  }

  /** `len(GetEntries(cursor, table, filter={column: value})) == 0`. */
  method IsAbsent(db: Database, table: string, column: string, value: Value) returns (absent: bool)
    ensures absent == Absent(db.tables, table, column, value)
  {
    var found := db.GetEntries(table, All, Some([(column, value)]));
    absent := |found| == 0;
  }

  method RecordUserOne(db: Database, stats: ChatStats, userId: Value)
    modifies db, stats
    ensures (db.tables, stats.Snapshot()) == RecordUser(old(db.tables), old(stats.Snapshot()), userId)
  {
    var users := db.GetEntries(UserIds, All, Some([("id", userId)]));
    if |users| == 0 {
      var _ := db.InsertEntries(UserIds, [UserRow(userId)], "");
      stats.newUserIds := stats.newUserIds + 1;
    } else {
      stats.existUserIds := stats.existUserIds + {userId};
    }
  }

  /** The alias list read from the `nicknames` table. */
  method ReadAliases(db: Database) returns (nicknames: seq<string>)
    ensures nicknames == Nicknames.AliasesFromRows(Query(db.tables, NicknameTable, Only(["nickname"]), None))
  {
    var rows := db.GetEntries(NicknameTable, Only(["nickname"]), None);
    assert rows == Query(db.tables, NicknameTable, Only(["nickname"]), None);
    nicknames := Nicknames.CollectAliases(rows);
  }

  /** Inserting a new message and its nickname matches. */
  method RecordNewOne(db: Database, stats: ChatStats, msg: Entities.Message) returns (failure: Option<Failure>)
    modifies db, stats
    ensures Processed(db.tables, stats.Snapshot(), failure) == RecordNew(old(db.tables), old(stats.Snapshot()), msg)
  {
    var _ := db.InsertEntries(Messages, [msg.entry], "");
    var nicknames := ReadAliases(db);
    failure := MatchedOne(db, stats, msg, nicknames);
  }

  /** The nickname search of a stored message and the insert of its matches. */
  method MatchedOne(db: Database, stats: ChatStats, msg: Entities.Message, nicknames: seq<string>)
      returns (failure: Option<Failure>)
    modifies db, stats
    ensures Processed(db.tables, stats.Snapshot(), failure) == Matched(old(db.tables), old(stats.Snapshot()), msg, nicknames)
  {
    ghost var before := stats.Snapshot();
    ghost var t := db.tables;
    if |nicknames| == 0 {
      stats.CountNew();
      return None;
    }
    var found := Nicknames.SearchMessage(nicknames, msg.text);
    assert Matched(t, before, msg, nicknames) == Searched(t, before, msg.id, found);
    if found.Err? {
      return Some(found.error);
    }
    StoreMatches(db, stats, msg.id, found.value);
    failure := None;
  }

  /** The insert of a new message's matches, which counts the message as new. */
  method StoreMatches(db: Database, stats: ChatStats, id: Value, found: seq<Nicknames.Match>)
    modifies db, stats
    ensures db.tables == AfterInsert(old(db.tables), NicknameMatches, MatchRows(id, found), MatchConflict)
    ensures stats.Snapshot() == old(stats.Snapshot()).(newMessages := old(stats.Snapshot()).newMessages + 1)
  {
    InsertRows(db, NicknameMatches, MatchRows(id, found), MatchConflict);
    stats.CountNew();
  }

  /** `InsertEntries` for a caller that needs only the rows it leaves. */
  method InsertRows(db: Database, table: string, rows: seq<Row>, conflict: string)
    modifies db
    ensures db.tables == AfterInsert(old(db.tables), table, rows, conflict)
  {
    var _ := db.InsertEntries(table, rows, conflict);
  }

  /** One iteration keeps the loop's invariant: what is done, continued by the rest, is the whole run. */
  lemma ContinueStep(step: Step, tables: Tables, counts: Counts, messages: seq<Value>, i: nat,
                     done: seq<Value>, r: Run, p: Processed)
    requires i < |messages| && p == step(tables, counts, messages[i])
    requires Continue(done, Ingest(step, tables, counts, messages[i..])) == r
    ensures p.failure.None? ==> Continue(done + [messages[i]], Ingest(step, p.tables, p.counts, messages[i + 1..])) == r
    ensures p.failure.Some? ==> Run(p.tables, p.counts, done, p.failure) == r
  {
    assert messages[i..][0] == messages[i] && messages[i..][1..] == messages[i + 1..];
    if p.failure.None? {
      var rest := Ingest(step, p.tables, p.counts, messages[i + 1..]);
      assert done + ([messages[i]] + rest.done) == (done + [messages[i]]) + rest.done;
    } else {
      assert done + [] == done;
    }
  }

  /** The loop ends with its whole run done. */
  lemma ContinueEnd(step: Step, tables: Tables, counts: Counts, done: seq<Value>, r: Run)
    requires Continue(done, Ingest(step, tables, counts, [])) == r
    ensures Run(tables, counts, done, None) == r
  {
    assert done + [] == done;
  }

  /** The `for message in chat_list` loop, appending each finished message to `message_list`. */
  method IngestAll(db: Database, stats: ChatStats, videoId: Value, messages: seq<Value>)
      returns (messageList: seq<Value>, failure: Option<Failure>)
    modifies db, stats
    ensures Run(db.tables, stats.Snapshot(), messageList, failure)
         == Ingest(StepFor(videoId), old(db.tables), old(stats.Snapshot()), messages)
  {
    ghost var step := StepFor(videoId);
    ghost var r := Ingest(step, db.tables, stats.Snapshot(), messages);
    messageList, failure := [], None;
    var i := 0;
    assert messages[0..] == messages;
    while i < |messages| && failure.None?
      invariant 0 <= i <= |messages|
      invariant failure.None? ==> Continue(messageList, Ingest(step, db.tables, stats.Snapshot(), messages[i..])) == r
      invariant failure.Some? ==> Run(db.tables, stats.Snapshot(), messageList, failure) == r
    {
      ghost var t, c := db.tables, stats.Snapshot();
      var f := ProcessOne(db, stats, messages[i], videoId);
      ContinueStep(step, t, c, messages, i, messageList, r, Processed(db.tables, stats.Snapshot(), f));
      if f.None? {
        messageList := messageList + [messages[i]];
      }
      failure := f;
      i := i + 1;
    }
    if failure.None? {
      assert messages[i..] == [];
      ContinueEnd(step, db.tables, stats.Snapshot(), messageList, r);
    }
  }

  /**
   * `Get_Messages`: the chat comes from the recovery file or from the chat
   * source; every message goes through `ProcessOne` until one raises, the
   * finished ones are written back to the file, and the exception, if any,
   * is raised again.
   */
  method GetMessages(db: Database, videoId: Value, skipDownload: bool, chat: Result<Feed, Failure>, file: Option<Value>)
      returns (result: Result<ChatStats, Failure>, newFile: Option<Value>)
    modifies db
    ensures var o := GetMessagesSpec(old(db.tables), videoId, skipDownload, chat, file);
      && db.tables == o.tables && newFile == o.file && result.Ok? == o.result.Ok?
      && (result.Ok? ==> fresh(result.value) && result.value.Snapshot() == o.result.value)
      && (result.Err? ==> result.error == o.result.error)
  {
    var messages: seq<Value>;
    var end: Option<Failure> := None;
    if skipDownload {
      if file.None? {
        return Err(NameError("messages_on_file")), file;
      }
      if file.value == Null {
        var empty := new ChatStats();
        return Ok(empty), file;
      }
      var items := Iterate(file.value);
      if items.Err? {
        // `_WriteFile` cannot read the file either, and its exception replaces the loop's.
        var w := WriteFile(file, []);
        return Err(w.error), file;
      }
      messages := items.value;
    } else {
      if chat.Err? {
        return Err(chat.error), file;
      }
      messages := chat.value.messages;
      end := chat.value.end;
    }
    var stats := new ChatStats();
    var messageList, failure := IngestAll(db, stats, videoId, messages);
    var w := WriteFile(file, messageList);
    if w.Err? {
      return Err(w.error), file;
    }
    newFile := Some(w.value);
    if failure.Some? {
      result := Err(failure.value);
    } else if end.Some? {
      result := Err(end.value);
    } else {
      result := Ok(stats);
    }
  }
}
