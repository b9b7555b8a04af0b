/**
 * The Python values the synchroniser handles: decoded JSON payloads, the
 * dictionaries it builds as table rows, and the exceptions it can raise.
 * Dictionary access, membership and iteration are modelled with Python's
 * own failure behaviour, so that a normaliser reading a field of a value
 * that is not a dictionary fails the way the original does.
 */
module Values {
  import opened Wrappers

  /** A `datetime` as `strptime` builds it; calendar range checks are not modelled. */
  datatype DateTime = DateTime(
    year: nat, month: nat, day: nat,
    hour: nat, minute: nat, second: nat,
    microsecond: nat)

  /** A Python value. `Dict` keeps insertion order, as Python dictionaries do. */
  datatype Value =
    | Null
    | Bool(b: bool)
    | Int(i: int)
    | Str(s: string)
    | List(items: seq<Value>)
    | Dict(fields: seq<(string, Value)>)
    | Time(t: DateTime)

  /** An ordered dictionary from column names to values: a table row or an `entry`. */
  type Row = seq<(string, Value)>

  /** The exceptions the modelled code raises or lets through. */
  datatype Failure =
    | AttributeError(name: string)   // an attribute never assigned, or `.get` on a non-dict
    | KeyError(key: string)
    | TypeError
    | IndexError
    | ValueError(text: string)
    | NameError(name: string)        // a local variable read before any assignment
    | NoChatReplay                   // raised by the chat source: the replay was discarded
    | VideoUnplayable                // raised by the chat source: private, removed, members-only
    | SourceError                    // any other exception from a collaborator (network, timeout)
    | ListingUnfinished              // the playlist continued past the responses given to the model

  /** A Python attribute that some branch of a constructor may leave unassigned. */
  datatype Slot<+T> = Unset | Set(value: T)

  function Keys(row: Row): seq<string> {
    if row == [] then [] else [row[0].0] + Keys(row[1..])
  }

  /** The value bound to `key`, if any. */
  function Lookup(row: Row, key: string): (r: Option<Value>)
    ensures r.None? <==> key !in Keys(row)
    ensures r.Some? ==> (key, r.value) in row
  {
    if row == [] then None
    else if row[0].0 == key then Some(row[0].1)
    else Lookup(row[1..], key)
  }

  /** `v.get(key)`: a missing key and a JSON null both read as `None`. */
  function Get(v: Value, key: string): Result<Value, Failure> {
    match v
    case Dict(f) => Ok(Lookup(f, key).GetOr(Null))
    case _ => Err(AttributeError("get"))
  }

  /** `key in v.keys()`. */
  function HasKey(v: Value, key: string): Result<bool, Failure> {
    match v
    case Dict(f) => Ok(key in Keys(f))
    case _ => Err(AttributeError("keys"))
  }

  /** `v.get(key)` once `v` is known to be a dictionary, and for stating contracts: `None` otherwise. */
  function Field(v: Value, key: string): Value {
    if v.Dict? then Lookup(v.fields, key).GetOr(Null) else Null
  }

  /** The row's keys are exactly `columns`, in order. */
  predicate HasColumns(row: Row, columns: seq<string>) {
    |row| == |columns| && forall i :: 0 <= i < |row| ==> row[i].0 == columns[i]
  }

  /** `v[key]`. */
  function Subscript(v: Value, key: string): Result<Value, Failure> {
    match v
    case Dict(f) =>
      (match Lookup(f, key)
       case Some(x) => Ok(x)
       case None => Err(KeyError(key)))
    case _ => Err(TypeError)
  }

  function Remove(row: Row, key: string): Row {
    if row == [] then []
    else if row[0].0 == key then Remove(row[1..], key)
    else [row[0]] + Remove(row[1..], key)
  }

  /** `del v[key]`. */
  function Delete(v: Value, key: string): Result<Value, Failure> {
    match v
    case Dict(f) => if key in Keys(f) then Ok(Dict(Remove(f, key))) else Err(KeyError(key))
    case _ => Err(TypeError)
  }

  /** `del v["kind"]; del v["etag"]`: the bookkeeping fields the API puts on every resource. */
  function Strip(v: Value): (r: Result<Value, Failure>)
    ensures r.Ok? <==> v.Dict? && "kind" in Keys(v.fields) && "etag" in Keys(Remove(v.fields, "kind"))
  {
    var a :- Delete(v, "kind");
    Delete(a, "etag")
  }

  /**
   * The items a `for` loop visits when the body reads each item with `.get`.
   * A list gives its items. A string or a dict iterates as strings, on which
   * `.get` raises, so only an empty one gets through. Anything else is not
   * iterable.
   */
  function Elements(v: Value): Result<seq<Value>, Failure> {
    match v
    case List(xs) => Ok(xs)
    case Str(s) => if s == "" then Ok([]) else Err(AttributeError("get"))
    case Dict(f) => if f == [] then Ok([]) else Err(AttributeError("get"))
    case _ => Err(TypeError)
  }

  /** What a `for` loop visits in a decoded JSON value; a string gives its characters, a dict its keys. */
  function Iterate(v: Value): (r: Result<seq<Value>, Failure>)
    ensures v.List? ==> r == Ok(v.items)
    ensures r.Err? <==> !(v.List? || v.Str? || v.Dict?)
  {
    match v
    case List(xs) => Ok(xs)
    case Str(s) => Ok(seq(|s|, i requires 0 <= i < |s| => Str([s[i]])))
    case Dict(f) => Ok(seq(|f|, i requires 0 <= i < |f| => Str(f[i].0)))
    case _ => Err(TypeError)
  }

  predicate SubstringAt(s: string, t: string, i: int) {
    0 <= i <= |t| - |s| && t[i..i + |s|] == s
  }

  predicate IsSubstring(s: string, t: string) {
    exists i | 0 <= i <= |t| - |s| :: SubstringAt(s, t, i)
  }

  /** Python's `s in container`. */
  function Contains(container: Value, s: string): Result<bool, Failure> {
    match container
    case Str(t) => Ok(IsSubstring(s, t))
    case List(xs) => Ok(Str(s) in xs)
    case Dict(f) => Ok(s in Keys(f))
    case _ => Err(TypeError)
  }

  // ----- digits (`\d` read as the ASCII digits) -----

  predicate IsDigit(c: char) {
    '0' <= c <= '9'
  }

  predicate AllDigits(s: string) {
    forall i :: 0 <= i < |s| ==> IsDigit(s[i])
  }

  function DigitValue(c: char): nat
    requires IsDigit(c)
  {
    c as int - '0' as int
  }

  /** `int(s)` for a string of digits. */
  function DigitsValue(s: string): nat
    requires AllDigits(s)
  {
    if s == [] then 0 else DigitsValue(s[..|s| - 1]) * 10 + DigitValue(s[|s| - 1])
  }

  /** The number of digits `s` starts with. */
  function LeadingDigits(s: string): (k: nat)
    ensures k <= |s| && AllDigits(s[..k])
    ensures k == |s| || !IsDigit(s[k])
  {
    if s == [] || !IsDigit(s[0]) then 0 else 1 + LeadingDigits(s[1..])
  }

  /** The index of the first digit of `s`, or `|s|` when there is none. */
  function FirstDigitAt(s: string): (i: nat)
    ensures i <= |s|
    ensures i < |s| ==> IsDigit(s[i])
    ensures forall j :: 0 <= j < i ==> !IsDigit(s[j])
  {
    if s == [] || IsDigit(s[0]) then 0 else 1 + FirstDigitAt(s[1..])
  }

  /** `s[i..i+k]` is the first maximal run of digits in `s`. */
  predicate IsFirstRun(s: string, i: nat, k: nat) {
    && 1 <= k && i + k <= |s|
    && (forall j :: 0 <= j < i ==> !IsDigit(s[j]))
    && AllDigits(s[i..i + k])
    && (i + k == |s| || !IsDigit(s[i + k]))
  }

  /** `int(...)` of the run of digits that starts at `t[i]`, the first digit of `t`. */
  function RunAt(t: string, i: nat): (r: Result<int, Failure>)
    requires i < |t| && IsDigit(t[i]) && forall j :: 0 <= j < i ==> !IsDigit(t[j])
    ensures r.Ok? && exists i: nat, k: nat :: IsFirstRun(t, i, k) && r.value == DigitsValue(t[i..i + k])
  {
    var k := LeadingDigits(t[i..]);
    assert t[i..][..k] == t[i..i + k];
    assert IsFirstRun(t, i, k);
    Ok(DigitsValue(t[i..i + k]))
  }

  /** `int(re.findall(r'\d+', title)[0])`. */
  function FirstInteger(title: Value): (r: Result<int, Failure>)
    ensures !title.Str? ==> r == Err(TypeError)
    ensures title.Str? && (forall j :: 0 <= j < |title.s| ==> !IsDigit(title.s[j])) ==> r == Err(IndexError)
    ensures r.Ok? ==> exists i: nat, k: nat :: IsFirstRun(title.s, i, k) && r.value == DigitsValue(title.s[i..i + k])
  {
    match title
    case Str(t) =>
      if FirstDigitAt(t) == |t| then Err(IndexError)
      else RunAt(t, FirstDigitAt(t))
    case _ => Err(TypeError)
  }
}
