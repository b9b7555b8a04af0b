/**
 * The normalisers `VideoClass`, `MessageClass` and `UserClass`: each reads a
 * decoded payload and builds the `entry` row the store receives. The source
 * assigns some attributes only on some branches and reads all of them when
 * it builds `entry`; reading one that was never assigned raises
 * `AttributeError`, and so does calling `.get` on something that is not a
 * dictionary. Every such path is an `Err` here. Once the first `.get` on a
 * value has succeeded the value is a dictionary, so later reads of the same
 * value use `Field`, which cannot fail.
 */
module Entities {
  import opened Wrappers
  import opened Values
  import Timestamps
  import Assets

  /** `_get_date_time(x) if x is not None else None`; `re.match` on a non-string raises `TypeError`. */
  function OptionalDate(x: Value): (r: Result<Value, Failure>)
    ensures x == Null ==> r == Ok(Null)
    ensures !x.Null? && !x.Str? ==> r == Err(TypeError)
    ensures x.Str? ==> (r.Ok? <==> Timestamps.ParseDateTime(x.s).Ok?)
    ensures r.Ok? && x.Str? ==> r.value == Time(Timestamps.ParseDateTime(x.s).value)
  {
    match x
    case Null => Ok(Null)
    case Str(s) =>
      var t :- Timestamps.ParseDateTime(s);
      Ok(Time(t))
    case _ => Err(TypeError)
  }

  // ----- best image -----

  /** The size names, best first. */
  const Sizes: seq<string> := ["maxres", "standard", "high", "medium", "default"]

  /** `img.get("url") if img is not None else None`. */
  function UrlOf(img: Value): Result<Value, Failure> {
    if img == Null then Ok(Null) else Get(img, "url")
  }

  /** Size `i` is the first of `Sizes` present in `f`. */
  predicate FirstSize(f: Row, i: int) {
    0 <= i < |Sizes| && Sizes[i] in Keys(f) && forall j :: 0 <= j < i ==> Sizes[j] !in Keys(f)
  }

  /**
   * The thumbnail or profile-picture URL: the url of the first size present
   * among maxres, standard, high, medium, default; `None` when none is.
   */
  function BestImage(sizes: Value): (r: Result<Value, Failure>)
    ensures !sizes.Dict? ==> r == Err(AttributeError("keys"))
    ensures sizes.Dict? ==> forall i :: FirstSize(sizes.fields, i) ==> r == UrlOf(Field(sizes, Sizes[i]))
    ensures sizes.Dict? && (forall i :: 0 <= i < |Sizes| ==> Sizes[i] !in Keys(sizes.fields)) ==>
      r == Ok(Null)
  {
    match sizes
    case Dict(f) =>
      var ks := Keys(f);
      assert Sizes[0] == "maxres" && Sizes[1] == "standard" && Sizes[2] == "high";
      assert Sizes[3] == "medium" && Sizes[4] == "default";
      if "maxres" in ks then UrlOf(Lookup(f, "maxres").value)
      else if "standard" in ks then UrlOf(Lookup(f, "standard").value)
      else if "high" in ks then UrlOf(Lookup(f, "high").value)
      else if "medium" in ks then UrlOf(Lookup(f, "medium").value)
      else if "default" in ks then UrlOf(Lookup(f, "default").value)
      else Ok(Null)
    case _ => Err(AttributeError("keys"))
  }

  /** The `thumbnail`/`pfp` attribute: left unset when the `thumbnails` dictionary is absent. */
  function ImageSlot(sizes: Value): (r: Result<Slot<Value>, Failure>)
    ensures sizes == Null <==> r == Ok(Unset)
    ensures sizes != Null ==> (r.Ok? <==> BestImage(sizes).Ok?)
    ensures sizes != Null && r.Ok? ==> r.value == Set(BestImage(sizes).value)
  {
    if sizes == Null then Ok(Unset)
    else
      var url :- BestImage(sizes);
      Ok(Set(url))
  }

  // ----- videos -----

  /** A normalised video: its status, id, thumbnail URL (if the attribute was set) and `entry`. */
  datatype Video = Video(status: Assets.Status, id: Value, thumbnail: Slot<Value>, entry: Row)

  const VideoColumns: seq<string> :=
    ["id", "title", "publishedAt", "livestream", "islive", "scheduled_start", "start_time", "end_time"]

  /**
   * `livestream` and `islive` from `liveBroadcastContent`: a livestream when
   * the value is present and not "none", live when it is "live".
   */
  function LiveFlags(content: Value): (r: (bool, bool))
    ensures r.0 <==> content != Null && content != Str("none")
    ensures r.1 <==> content == Str("live")
  {
    var c := if content == Str("none") then Null else content;
    if c != Null then (true, c == Str("live")) else (false, false)
  }

  /** The three times of `liveStreamingDetails`, all `None` when it is absent. */
  function StreamTimes(details: Value): (r: Result<(Value, Value, Value), Failure>)
    ensures details == Null ==> r == Ok((Null, Null, Null))
    ensures r.Ok? && details != Null ==>
      && OptionalDate(Field(details, "scheduledStartTime")) == Ok(r.value.0)
      && OptionalDate(Field(details, "actualStartTime")) == Ok(r.value.1)
      && OptionalDate(Field(details, "actualEndTime")) == Ok(r.value.2)
  {
    if details == Null then Ok((Null, Null, Null))
    else if !details.Dict? then Err(AttributeError("get"))
    else
      var scheduled :- OptionalDate(Field(details, "scheduledStartTime"));
      var start :- OptionalDate(Field(details, "actualStartTime"));
      var end :- OptionalDate(Field(details, "actualEndTime"));
      Ok((scheduled, start, end))
  }

  /** The snippet part of `VideoClass`: every column but the id, and the thumbnail attribute. */
  function VideoSnippet(snippet: Value, details: Value): (r: Result<(Row, Slot<Value>), Failure>)
    requires snippet != Null
    ensures r.Ok? ==> HasColumns([("id", Null)] + r.value.0, VideoColumns)
    ensures r.Ok? ==> var content := Field(snippet, "liveBroadcastContent");
      && r.value.0[2] == ("livestream", Bool(content != Null && content != Str("none")))
      && r.value.0[3] == ("islive", Bool(content == Str("live")))
    ensures r.Ok? ==> (Field(snippet, "thumbnails") == Null <==> r.value.1 == Unset)
  {
    if !snippet.Dict? then Err(AttributeError("get"))
    else
      var published :- OptionalDate(Field(snippet, "publishedAt"));
      var title := Field(snippet, "title");
      var (livestream, islive) := LiveFlags(Field(snippet, "liveBroadcastContent"));
      var times :- StreamTimes(details);
      var thumbnail :- ImageSlot(Field(snippet, "thumbnails"));
      Ok((SnippetRow(title, published, livestream, islive, times), thumbnail))
  }

  /** The snippet's columns of the video entry, in table order after `id`. */
  function SnippetRow(title: Value, published: Value, livestream: bool, islive: bool, times: (Value, Value, Value)): (row: Row)
    ensures HasColumns([("id", Null)] + row, VideoColumns)
    ensures row[2] == ("livestream", Bool(livestream)) && row[3] == ("islive", Bool(islive))
  {
    var row := [
      ("title", title), ("publishedAt", published),
      ("livestream", Bool(livestream)), ("islive", Bool(islive)),
      ("scheduled_start", times.0), ("start_time", times.1), ("end_time", times.2)];
    assert forall i :: 0 <= i < 8 ==> ([("id", Null)] + row)[i].0 == VideoColumns[i];
    row
  }

  /** `VideoClass(video, status)`. */
  function NormalizeVideo(video: Value, status: Assets.Status): (r: Result<Video, Failure>)
    ensures video.Dict? && Field(video, "snippet") == Null ==> r == Err(AttributeError("title"))
    ensures r.Ok? ==> HasColumns(r.value.entry, VideoColumns)
    ensures r.Ok? ==> r.value.status == status && r.value.entry[0].1 == r.value.id == Field(video, "id")
    ensures r.Ok? ==> var content := Field(Field(video, "snippet"), "liveBroadcastContent");
      && r.value.entry[3].1 == Bool(content != Null && content != Str("none"))
      && r.value.entry[4].1 == Bool(content == Str("live"))
    ensures r.Ok? ==> (Field(Field(video, "snippet"), "thumbnails") == Null <==> r.value.thumbnail == Unset)
    ensures !video.Dict? ==> r == Err(AttributeError("id"))
  {
    // `video.get("id")` fails before `self.id` is bound, so the handler's own
    // read of `self.id` raises in place of the original error.
    if !video.Dict? then Err(AttributeError("id"))
    else
      var id := Field(video, "id");
      var snippet := Field(video, "snippet");
      if snippet == Null then Err(AttributeError("title"))
      else
        var (row, thumbnail) :- VideoSnippet(snippet, Field(video, "liveStreamingDetails"));
        Ok(Video(status, id, thumbnail, [("id", id)] + row))
  }

  /** A normalised video is never live without being a livestream. */
  lemma LiveImpliesLivestream(video: Value, status: Assets.Status)
    requires NormalizeVideo(video, status).Ok?
    ensures var e := NormalizeVideo(video, status).value.entry;
      e[4].1 == Bool(true) ==> e[3].1 == Bool(true)
  {
  }

  // ----- membership level -----

  /** A title the first two tests leave to the substring tests. */
  predicate Undecided(title: Value) {
    title != Null && title != Str("New member")
  }

  /** The outcome of one badge's title in the tenure scan: `None` when the scan moves on. */
  function TenureOf(title: Value): (r: Result<Option<int>, Failure>)
    ensures title == Null ==> r == Ok(Some(-1))
    ensures title == Str("New member") ==> r == Ok(Some(0))
    ensures r.Ok? && r.value.Some? ==> r.value.value >= -1
    ensures Undecided(title) && Contains(title, "month").Err? ==> r == Err(TypeError)
    ensures Undecided(title) && Contains(title, "month") == Ok(true) ==>
      r == (if FirstInteger(title).Ok? then Ok(Some(FirstInteger(title).value)) else Err(FirstInteger(title).error))
    ensures Undecided(title) && Contains(title, "month") == Ok(false) && Contains(title, "year") == Ok(true) ==>
      r == (if FirstInteger(title).Ok? then Ok(Some(FirstInteger(title).value * 12)) else Err(FirstInteger(title).error))
    ensures Undecided(title) && Contains(title, "month") == Ok(false) && Contains(title, "year") == Ok(false) ==>
      r == Ok(None)
  {
    if title == Null then Ok(Some(-1))
    else if title == Str("New member") then Ok(Some(0))
    else
      var month :- Contains(title, "month");
      if month then
        var n :- FirstInteger(title);
        Ok(Some(n))
      else
        var year :- Contains(title, "year");
        if year then
          var n :- FirstInteger(title);
          Ok(Some(n * 12))
        else Ok(None)
  }

  /**
   * `_Membership_Level`: the first badge whose title decides returns; an
   * untitled badge gives -1, "New member" 0, a title with "month" its first
   * integer, one with "year" twelve times it; other titles are skipped, and
   * when no badge decides the result is `None`.
   */
  function MembershipLevel(badges: seq<Value>): (r: Result<Value, Failure>)
    ensures r.Ok? ==> r.value == Null || (r.value.Int? && r.value.i >= -1)
  {
    if badges == [] then Ok(Null)
    else
      var title :- Get(badges[0], "title");
      var t :- TenureOf(title);
      match t
      case Some(n) => Ok(Int(n))
      case None => MembershipLevel(badges[1..])
  }

  /** `for badge in badge_data` as the source runs it, returning from inside the loop. */
  method ScanMembership(badges: seq<Value>) returns (r: Result<Value, Failure>)
    ensures r == MembershipLevel(badges)
  {
    var i := 0;
    while i < |badges|
      invariant 0 <= i <= |badges|
      invariant MembershipLevel(badges[i..]) == MembershipLevel(badges)
    {
      assert badges[i..][0] == badges[i] && badges[i..][1..] == badges[i + 1..];
      var title := Get(badges[i], "title");
      if title.Err? {
        return Err(title.error);
      }
      var tenure := TenureOf(title.value);
      if tenure.Err? {
        return Err(tenure.error);
      }
      if tenure.value.Some? {
        return Ok(Int(tenure.value.value));
      }
      i := i + 1;
    }
    assert badges[i..] == [];
    r := Ok(Null);
  }

  /** The tenure scan returns the outcome of the first deciding badge. */
  lemma {:induction false} MembershipFirstDecisive(badges: seq<Value>, i: nat)
    requires i < |badges|
    requires forall j :: 0 <= j < i ==> badges[j].Dict? && TenureOf(Field(badges[j], "title")) == Ok(None)
    requires badges[i].Dict? && TenureOf(Field(badges[i], "title")).Ok?
    requires TenureOf(Field(badges[i], "title")).value.Some?
    ensures MembershipLevel(badges) == Ok(Int(TenureOf(Field(badges[i], "title")).value.value))
  {
    if i > 0 {
      MembershipFirstDecisive(badges[1..], i - 1);
    }
  }

  /** When no badge decides, the scan returns `None`. */
  lemma {:induction false} MembershipNoneDecides(badges: seq<Value>)
    requires forall j :: 0 <= j < |badges| ==> badges[j].Dict? && TenureOf(Field(badges[j], "title")) == Ok(None)
    ensures MembershipLevel(badges) == Ok(Null)
  {
    if badges != [] {
      MembershipNoneDecides(badges[1..]);
    }
  }

  /** A title whose first run of digits is `digits` reads as their value. */
  lemma FirstIntegerOf(prefix: string, digits: string, suffix: string)
    requires forall j :: 0 <= j < |prefix| ==> !IsDigit(prefix[j])
    requires |digits| >= 1 && AllDigits(digits)
    requires suffix == [] || !IsDigit(suffix[0])
    ensures FirstInteger(Str(prefix + digits + suffix)) == Ok(DigitsValue(digits))
  {
    var t := prefix + digits + suffix;
    RunLayout(prefix, digits, suffix);
    RunOf(t, |prefix|, digits);
  }

  /** Where the first run of digits of `prefix + digits + suffix` lies. */
  lemma RunLayout(prefix: string, digits: string, suffix: string)
    requires forall j :: 0 <= j < |prefix| ==> !IsDigit(prefix[j])
    requires |digits| >= 1 && AllDigits(digits)
    requires suffix == [] || !IsDigit(suffix[0])
    ensures var t, n := prefix + digits + suffix, |prefix|;
      && FirstDigitAt(t) == n < |t| && IsDigit(t[n])
      && LeadingDigits(t[n..]) == |digits| && t[n..n + |digits|] == digits
  {
    var t := prefix + digits + suffix;
    forall j | 0 <= j < |prefix|
      ensures !IsDigit(t[j])
    {
      assert t[j] == prefix[j];
    }
    var n := |prefix|;
    assert t[n] == digits[0];
    FirstDigitIs(t, n);
    assert t[n..] == digits + suffix;
    Timestamps.LeadingDigitsOfDigits(digits, suffix);
    assert LeadingDigits(suffix) == 0;
    assert t[n..n + |digits|] == digits;
  }

  /** The run found at the first digit has the value of its digits. */
  lemma RunOf(t: string, n: nat, s: string)
    requires n < |t| && IsDigit(t[n]) && forall j :: 0 <= j < n ==> !IsDigit(t[j])
    requires n + |s| <= |t| && LeadingDigits(t[n..]) == |s| && s == t[n..n + |s|] && AllDigits(s)
    ensures RunAt(t, n) == Ok(DigitsValue(s))
  {
  }

  /** The first digit of `t` is at `n` when `t[n]` is a digit and nothing before it is. */
  lemma FirstDigitIs(t: string, n: nat)
    requires n < |t| && IsDigit(t[n])
    requires forall j :: 0 <= j < n ==> !IsDigit(t[j])
    ensures FirstDigitAt(t) == n
  {
  }

  function Badge(title: string): Value {
    Dict([("title", Str(title))])
  }

  /** A word whose first two letters never occur together in `t` is not a substring of it. */
  lemma NoSubstring(s: string, t: string)
    requires |s| >= 2 && forall i :: 0 <= i < |t| - 1 ==> !(t[i] == s[0] && t[i + 1] == s[1])
    ensures !IsSubstring(s, t)
  {
    forall i | 0 <= i <= |t| - |s|
      ensures !SubstringAt(s, t, i)
    {
      assert t[i..i + |s|][0] == t[i] && t[i..i + |s|][1] == t[i + 1];
    }
  }

  const SixMonthsTitle: string := "Member (" + "6" + " months)"
  const TwoYearsTitle: string := "Member (" + "2" + " years)"
  const ModeratorTitle: string := "Moderator"

  lemma ContainsExamples()
    ensures Contains(Str(SixMonthsTitle), "month") == Ok(true)
    ensures Contains(Str(TwoYearsTitle), "month") == Ok(false)
    ensures Contains(Str(TwoYearsTitle), "year") == Ok(true)
    ensures Contains(Str(ModeratorTitle), "month") == Ok(false)
    ensures Contains(Str(ModeratorTitle), "year") == Ok(false)
  {
    assert SubstringAt("month", SixMonthsTitle, 10);
    assert SubstringAt("year", TwoYearsTitle, 10);
    NoSubstring("month", TwoYearsTitle);
    NoSubstring("month", ModeratorTitle);
    NoSubstring("year", ModeratorTitle);
  }

  lemma FirstIntegerExamples()
    ensures FirstInteger(Str(SixMonthsTitle)) == Ok(6)
    ensures FirstInteger(Str(TwoYearsTitle)) == Ok(2)
  {
    FirstIntegerOf("Member (", "6", " months)");
    assert DigitsValue("6") == 6 by { assert "6"[..0] == ""; }
    FirstIntegerOf("Member (", "2", " years)");
    assert DigitsValue("2") == 2 by { assert "2"[..0] == ""; }
  }

  /** "6 months" is tenure 6, "2 years" tenure 24, and "Moderator" decides nothing. */
  lemma TenureExamples()
    ensures TenureOf(Str(SixMonthsTitle)) == Ok(Some(6))
    ensures TenureOf(Str(TwoYearsTitle)) == Ok(Some(24))
    ensures TenureOf(Str(ModeratorTitle)) == Ok(None)
  {
    ContainsExamples();
    FirstIntegerExamples();
  }

  /** A titled badge mentioning "month" counts the first run of digits in its title, in months. */
  lemma MonthTenure(prefix: string, digits: string, suffix: string)
    requires forall j :: 0 <= j < |prefix| ==> !IsDigit(prefix[j])
    requires |digits| >= 1 && AllDigits(digits)
    requires suffix == [] || !IsDigit(suffix[0])
    requires IsSubstring("month", prefix + digits + suffix)
    ensures TenureOf(Str(prefix + digits + suffix)) == Ok(Some(DigitsValue(digits)))
  {
    FirstIntegerOf(prefix, digits, suffix);
    HasDigitNotNewMember(prefix, digits, suffix);
  }

  /** A titled badge mentioning "year" but not "month" counts twelve months per year. */
  lemma YearTenure(prefix: string, digits: string, suffix: string)
    requires forall j :: 0 <= j < |prefix| ==> !IsDigit(prefix[j])
    requires |digits| >= 1 && AllDigits(digits)
    requires suffix == [] || !IsDigit(suffix[0])
    requires !IsSubstring("month", prefix + digits + suffix) && IsSubstring("year", prefix + digits + suffix)
    ensures TenureOf(Str(prefix + digits + suffix)) == Ok(Some(DigitsValue(digits) * 12))
  {
    FirstIntegerOf(prefix, digits, suffix);
    HasDigitNotNewMember(prefix, digits, suffix);
  }

  /** A title holding a digit is not "New member". */
  lemma HasDigitNotNewMember(prefix: string, digits: string, suffix: string)
    requires |digits| >= 1 && AllDigits(digits)
    ensures Undecided(Str(prefix + digits + suffix))
  {
    var t := prefix + digits + suffix;
    assert t[|prefix|] == digits[0];
    assert IsDigit(t[|prefix|]);
    assert forall j :: 0 <= j < |"New member"| ==> !IsDigit("New member"[j]);
  }

  /**
   * The first deciding badge wins: a skipped "Moderator" badge lets a later
   * tenure through, and an earlier tenure shadows a later one.
   */
  lemma MembershipExamples()
    ensures MembershipLevel([Badge(ModeratorTitle), Badge(SixMonthsTitle)]) == Ok(Int(6))
    ensures MembershipLevel([Badge(TwoYearsTitle), Badge(SixMonthsTitle)]) == Ok(Int(24))
  {
    TenureExamples();
    var b1 := [Badge(ModeratorTitle), Badge(SixMonthsTitle)];
    assert Field(b1[0], "title") == Str(ModeratorTitle);
    assert Field(b1[1], "title") == Str(SixMonthsTitle);
    MembershipFirstDecisive(b1, 1);
    var b2 := [Badge(TwoYearsTitle), Badge(SixMonthsTitle)];
    assert Field(b2[0], "title") == Str(TwoYearsTitle);
    MembershipFirstDecisive(b2, 0);
  }

  /** An untitled badge stops the scan at -1; a lone "Moderator" badge decides nothing. */
  lemma MembershipStopExamples()
    ensures MembershipLevel([Dict([]), Badge("New member")]) == Ok(Int(-1))
    ensures MembershipLevel([Badge(ModeratorTitle)]) == Ok(Null)
  {
    TenureExamples();
    var b3 := [Dict([]), Badge("New member")];
    assert Field(b3[0], "title") == Null;
    MembershipFirstDecisive(b3, 0);
    var b4 := [Badge(ModeratorTitle)];
    assert Field(b4[0], "title") == Str(ModeratorTitle);
    MembershipNoneDecides(b4);
  }

  // ----- badge flags -----

  /** `isverified`, `ismoderator` and `isowner`. */
  datatype Flags = Flags(verified: bool, moderator: bool, owner: bool)

  function FlagsOf(title: Value): Flags {
    Flags(title == Str("Verified"), title == Str("Moderator"), title == Str("Owner"))
  }

  /**
   * The flags after the badge loop: each badge reassigns all three, so they
   * reflect the last badge's title; with no badges they stay unset. The loop
   * raises on the first badge that is not a dictionary.
   */
  function BadgeFlags(badges: seq<Value>): (r: Result<Slot<Flags>, Failure>)
    ensures r.Ok? <==> forall i :: 0 <= i < |badges| ==> badges[i].Dict?
    ensures r.Ok? && badges == [] ==> r.value == Unset
    ensures r.Ok? && badges != [] ==> r.value == Set(FlagsOf(Field(badges[|badges| - 1], "title")))
  {
    if badges == [] then Ok(Unset)
    else
      var prefix := badges[..|badges| - 1];
      assert forall i :: 0 <= i < |prefix| ==> prefix[i] == badges[i];
      var before :- BadgeFlags(prefix);
      var title :- Get(badges[|badges| - 1], "title");
      Ok(Set(FlagsOf(title)))
  }

  /** The badge loop as the source runs it. */
  method ScanBadgeFlags(badges: seq<Value>) returns (r: Result<Slot<Flags>, Failure>)
    ensures r == BadgeFlags(badges)
  {
    var flags: Slot<Flags> := Unset;
    var i := 0;
    while i < |badges|
      invariant 0 <= i <= |badges|
      invariant BadgeFlags(badges[..i]) == Ok(flags)
    {
      var title := Get(badges[i], "title");
      if title.Err? {
        assert badges[..i + 1][i] == badges[i];
        BadgeFlagsPrefix(badges, i + 1);
        return Err(title.error);
      }
      flags := Set(FlagsOf(title.value));
      assert badges[..i + 1][..i] == badges[..i];
      i := i + 1;
    }
    assert badges[..i] == badges;
    r := Ok(flags);
  }

  /** A badge that is not a dictionary fails the loop whatever follows it. */
  lemma BadgeFlagsPrefix(badges: seq<Value>, n: nat)
    requires n <= |badges| && BadgeFlags(badges[..n]).Err?
    ensures BadgeFlags(badges) == Err(AttributeError("get"))
  {
    var i :| 0 <= i < n && !badges[..n][i].Dict?;
    assert !badges[i].Dict?;
    BadgeFlagsError(badges);
  }

  /** The only error of the badge loop is `.get` on a badge that is not a dictionary. */
  lemma {:induction false} BadgeFlagsError(badges: seq<Value>)
    ensures BadgeFlags(badges).Err? ==> BadgeFlags(badges) == Err(AttributeError("get"))
  {
    if badges != [] {
      BadgeFlagsError(badges[..|badges| - 1]);
    }
  }

  // ----- authors -----

  /** The author attributes: `usr_id`, `usr_name`, `member_months` and the flags. */
  datatype Author = Author(userId: Value, userName: Value, memberMonths: Value, flags: Slot<Flags>)

  /** The `author` block; an absent author leaves every attribute unset. */
  function ReadAuthor(author: Value): (r: Result<Slot<Author>, Failure>)
    ensures author == Null <==> r == Ok(Unset)
    ensures author.Dict? && Field(author, "badges") == Null ==>
      r == Ok(Set(Author(Field(author, "id"), Field(author, "name"), Int(-1), Set(Flags(false, false, false)))))
    ensures author.Dict? && Field(author, "badges") == List([]) ==> r.Ok? && r.value.value.flags == Unset
    ensures r.Ok? && r.value.Set? ==> r.value.value.userId == Field(author, "id")
    ensures r.Ok? && Field(author, "badges").List? && Field(author, "badges").items != [] ==>
      var items := Field(author, "badges").items;
      r.value.value.flags == Set(FlagsOf(Field(items[|items| - 1], "title")))
  {
    if author == Null then Ok(Unset)
    else if !author.Dict? then Err(AttributeError("get"))
    else
      var id := Field(author, "id");
      var name := Field(author, "name");
      var badges := Field(author, "badges");
      if badges == Null then Ok(Set(Author(id, name, Int(-1), Set(Flags(false, false, false)))))
      else
        var items :- Elements(badges);
        var months :- MembershipLevel(items);
        var flags :- BadgeFlags(items);
        Ok(Set(Author(id, name, months, flags)))
  }

  // ----- emotes -----

  const StopIds: seq<Value> := [Str("source"), Str("48x48"), Str("24x24")]

  /** An image ends the URL loop: it has a stopping id, or is not a dictionary and raises. */
  predicate Stops(image: Value) {
    !image.Dict? || Field(image, "id") in StopIds
  }

  /** How many images the URL loop visits before it breaks or raises. */
  function Visited(images: seq<Value>): (n: nat)
    ensures n <= |images|
    ensures forall j :: 0 <= j < n - 1 ==> !Stops(images[j])
    ensures n < |images| ==> n >= 1 && Stops(images[n - 1])
  {
    if images == [] then 0
    else if Stops(images[0]) then 1
    else 1 + Visited(images[1..])
  }

  /** The loop visits exactly up to the first image that stops it. */
  lemma {:induction false} VisitedFirstStop(images: seq<Value>, i: nat)
    requires i < |images| && Stops(images[i])
    requires forall j :: 0 <= j < i ==> !Stops(images[j])
    ensures Visited(images) == i + 1
  {
    if i > 0 {
      VisitedFirstStop(images[1..], i - 1);
    }
  }

  /**
   * The emote URL: the url of the first image whose id is any of source,
   * 48x48, 24x24 in list order, else the last image's url, else `None`.
   */
  function EmoteUrl(images: seq<Value>): (r: Result<Value, Failure>)
    ensures images == [] ==> r == Ok(Null)
    ensures r.Ok? && images != [] ==> exists k :: 0 <= k < |images| && r.value == Field(images[k], "url")
  {
    var n := Visited(images);
    if n == 0 then Ok(Null)
    else if !images[n - 1].Dict? then Err(AttributeError("get"))
    else Ok(Field(images[n - 1], "url"))
  }

  /** The first image with a stopping id gives the URL, whatever follows it. */
  lemma EmoteUrlFirstStop(images: seq<Value>, i: nat)
    requires i < |images|
    requires forall j :: 0 <= j < i ==> !Stops(images[j])
    requires images[i].Dict? && Field(images[i], "id") in StopIds
    ensures EmoteUrl(images) == Ok(Field(images[i], "url"))
  {
    VisitedFirstStop(images, i);
  }

  /** With no stopping id, and dictionaries only, the last image's URL is kept. */
  lemma EmoteUrlLast(images: seq<Value>)
    requires images != []
    requires forall j :: 0 <= j < |images| ==> !Stops(images[j])
    ensures EmoteUrl(images) == Ok(Field(images[|images| - 1], "url"))
  {
  }

  /** The image loop with its three `break`s. */
  method ScanImages(images: seq<Value>) returns (r: Result<Value, Failure>)
    ensures r == EmoteUrl(images)
  {
    var url := Null;
    var i := 0;
    while i < |images|
      invariant 0 <= i <= |images|
      invariant forall j :: 0 <= j < i ==> !Stops(images[j])
      invariant i == 0 ==> url == Null
      invariant i > 0 ==> url == Field(images[i - 1], "url")
    {
      var imageId := Get(images[i], "id");
      if imageId.Err? {
        VisitedFirstStop(images, i);
        return Err(imageId.error);
      }
      url := Field(images[i], "url");
      assert imageId.value == Field(images[i], "id");
      if imageId.value == Str("source") {
        EmoteUrlFirstStop(images, i);
        return Ok(url);
      } else if imageId.value == Str("48x48") {
        EmoteUrlFirstStop(images, i);
        return Ok(url);
      } else if imageId.value == Str("24x24") {
        EmoteUrlFirstStop(images, i);
        return Ok(url);
      }
      i := i + 1;
    }
    if i > 0 {
      EmoteUrlLast(images);
    }
    r := Ok(url);
  }

  /** One row of `e_emote_entries`. */
  function EmoteEntry(emote: Value): (r: Result<Row, Failure>)
    ensures r.Ok? ==> HasColumns(r.value, ["id", "name", "url", "custom"])
    ensures r.Ok? ==> r.value[0].1 == Field(emote, "id") && r.value[1].1 == Field(emote, "name")
    ensures r.Ok? && Field(emote, "images") == Null ==> r.value[2].1 == Null
  {
    if !emote.Dict? then Err(AttributeError("get"))
    else
      var images := Field(emote, "images");
      var url :- if images == Null then Ok(Null) else (var xs :- Elements(images); EmoteUrl(xs));
      Ok([("id", Field(emote, "id")), ("name", Field(emote, "name")), ("url", url),
          ("custom", Field(emote, "is_custom_emoji"))])
  }

  /** `e_emote_entries`: one row per emote, in order. */
  function EmoteEntries(emotes: seq<Value>): (r: Result<seq<Row>, Failure>)
    ensures r.Ok? ==> |r.value| == |emotes|
    ensures r.Ok? ==> forall i :: 0 <= i < |emotes| ==> EmoteEntry(emotes[i]) == Ok(r.value[i])
  {
    if emotes == [] then Ok([])
    else
      var first :- EmoteEntry(emotes[0]);
      var rest :- EmoteEntries(emotes[1..]);
      assert forall i :: 1 <= i < |emotes| ==> emotes[1..][i - 1] == emotes[i];
      Ok([first] + rest)
  }

  /** Rows already collected, in front of the outcome for the remaining emotes. */
  function Prepend(done: seq<Row>, rest: Result<seq<Row>, Failure>): Result<seq<Row>, Failure> {
    match rest
    case Ok(rows) => Ok(done + rows)
    case Err(e) => Err(e)
  }

  /** One step of the emote loop: the emote at `i`, then the rest. */
  lemma EntriesStep(emotes: seq<Value>, i: nat, done: seq<Row>)
    requires i < |emotes|
    ensures EmoteEntry(emotes[i]).Err? ==>
      Prepend(done, EmoteEntries(emotes[i..])) == Err(EmoteEntry(emotes[i]).error)
    ensures EmoteEntry(emotes[i]).Ok? ==>
      Prepend(done, EmoteEntries(emotes[i..]))
        == Prepend(done + [EmoteEntry(emotes[i]).value], EmoteEntries(emotes[i + 1..]))
  {
    assert emotes[i..][0] == emotes[i];
    assert emotes[i..][1..] == emotes[i + 1..];
    var r := EmoteEntries(emotes[i + 1..]);
    if EmoteEntry(emotes[i]).Ok? && r.Ok? {
      assert done + ([EmoteEntry(emotes[i]).value] + r.value) == done + [EmoteEntry(emotes[i]).value] + r.value;
    }
  }

  lemma EntriesStart(emotes: seq<Value>)
    ensures Prepend([], EmoteEntries(emotes[0..])) == EmoteEntries(emotes)
  {
    assert emotes[0..] == emotes;
    var r := EmoteEntries(emotes);
    if r.Ok? {
      assert [] + r.value == r.value;
    }
  }

  lemma EntriesDone(emotes: seq<Value>, done: seq<Row>)
    ensures Prepend(done, EmoteEntries(emotes[|emotes|..])) == Ok(done)
  {
    assert emotes[|emotes|..] == [];
    assert done + [] == done;
  }

  /** The emote loop, appending to `e_emote_entries`. */
  method CollectEmotes(emotes: seq<Value>) returns (r: Result<seq<Row>, Failure>)
    ensures r == EmoteEntries(emotes)
  {
    var entries: seq<Row> := [];
    var i := 0;
    EntriesStart(emotes);
    while i < |emotes|
      invariant 0 <= i <= |emotes|
      invariant Prepend(entries, EmoteEntries(emotes[i..])) == EmoteEntries(emotes)
    {
      EntriesStep(emotes, i, entries);
      var e := EmoteEntry(emotes[i]);
      if e.Err? {
        return Err(e.error);
      }
      entries := entries + [e.value];
      i := i + 1;
    }
    EntriesDone(emotes, entries);
    r := Ok(entries);
  }

  /** The `emotes` block: no emotes key gives no entries. */
  function ReadEmotes(emotes: Value): (r: Result<seq<Row>, Failure>)
    ensures emotes == Null ==> r == Ok([])
    ensures emotes.List? ==> r == EmoteEntries(emotes.items)
  {
    if emotes == Null then Ok([])
    else
      var xs :- Elements(emotes);
      EmoteEntries(xs)
  }

  // ----- messages -----

  /** A normalised message: the attributes later code reads, and `entry`. */
  datatype Message = Message(id: Value, text: Value, userId: Value, emotes: seq<Row>, entry: Row)

  const MessageColumns: seq<string> := [
    "message_id", "message", "timestamp", "time_in_seconds", "type", "video_id",
    "user_id", "user_name", "user_member_status", "ismoderator", "isverified", "isowner",
    "amount", "currency", "symbol", "color"]

  /** `timestamp / 1000000`, kept in microseconds; `bool` divides as 0 or 1, other types raise. */
  function Microseconds(ts: Value): (r: Result<Slot<int>, Failure>)
    ensures ts == Null <==> r == Ok(Unset)
    ensures ts.Int? ==> r == Ok(Set(ts.i))
    ensures r.Err? <==> !(ts == Null || ts.Int? || ts.Bool?)
  {
    match ts
    case Null => Ok(Unset)
    case Int(i) => Ok(Set(i))
    case Bool(b) => Ok(Set(if b then 1 else 0))
    case _ => Err(TypeError)
  }

  /** `amount`, `currency` and `currency_symbol`, all `None` without `money`. */
  function ReadMoney(money: Value): (r: Result<(Value, Value, Value), Failure>)
    ensures money == Null ==> r == Ok((Null, Null, Null))
    ensures r.Ok? ==>
      r.value == (Field(money, "amount"), Field(money, "currency"), Field(money, "currency_symbol"))
  {
    if money == Null then Ok((Null, Null, Null))
    else if !money.Dict? then Err(AttributeError("get"))
    else Ok((Field(money, "amount"), Field(money, "currency"), Field(money, "currency_symbol")))
  }

  /** The `entry` dictionary, read attribute by attribute in its key order. */
  function MessageEntry(
    id: Value, text: Value, micros: Slot<int>, relative: Value, kind: Value, videoId: Value,
    author: Slot<Author>, money: (Value, Value, Value), colour: Value): (r: Result<Row, Failure>)
    ensures micros == Unset ==> r == Err(AttributeError("time_absolute"))
    ensures micros != Unset && author == Unset ==> r == Err(AttributeError("usr_id"))
    ensures r.Ok? <==> micros != Unset && author != Unset && author.value.flags != Unset
    ensures r.Ok? ==> HasColumns(r.value, MessageColumns)
    ensures r.Ok? ==> r.value[0].1 == id && r.value[1].1 == text && r.value[5].1 == videoId
    ensures r.Ok? ==> var f := author.value.flags.value;
      r.value[9].1 == Bool(f.moderator) && r.value[10].1 == Bool(f.verified) && r.value[11].1 == Bool(f.owner)
    ensures r.Ok? ==> r.value[6].1 == author.value.userId && r.value[8].1 == author.value.memberMonths
  {
    if micros == Unset then Err(AttributeError("time_absolute"))
    else if author == Unset then Err(AttributeError("usr_id"))
    else if author.value.flags == Unset then Err(AttributeError("is_moderator"))
    else
      var a := author.value;
      var f := a.flags.value;
      Ok([
        ("message_id", id), ("message", text), ("timestamp", Int(micros.value)),
        ("time_in_seconds", relative), ("type", kind), ("video_id", videoId),
        ("user_id", a.userId), ("user_name", a.userName), ("user_member_status", a.memberMonths),
        ("ismoderator", Bool(f.moderator)), ("isverified", Bool(f.verified)), ("isowner", Bool(f.owner)),
        ("amount", money.0), ("currency", money.1), ("symbol", money.2), ("color", colour)])
  }

  /** The badges an author dictionary carries, as the loops see them. */
  function AuthorBadges(message: Value): Value {
    Field(Field(message, "author"), "badges")
  }

  /** `MessageClass(message, video)`, with the video's id. */
  function NormalizeMessage(message: Value, videoId: Value): (r: Result<Message, Failure>)
    ensures message.Dict? && Field(message, "timestamp") == Null ==> r.Err?
    ensures message.Dict? && Field(message, "author") == Null ==> r.Err?
    ensures message.Dict? && Field(message, "author").Dict? && AuthorBadges(message) == List([]) ==> r.Err?
    ensures r.Ok? ==> HasColumns(r.value.entry, MessageColumns)
    ensures r.Ok? ==> r.value.id == Field(message, "message_id") && r.value.text == Field(message, "message")
    ensures r.Ok? ==> r.value.entry[0].1 == r.value.id && r.value.entry[5].1 == videoId
    ensures r.Ok? ==> r.value.userId == Field(Field(message, "author"), "id") == r.value.entry[6].1
    ensures r.Ok? ==> ReadEmotes(Field(message, "emotes")) == Ok(r.value.emotes)
    ensures !message.Dict? ==> r == Err(AttributeError("id"))
  {
    // As for videos: the handler reads the unbound `self.id` and raises.
    if !message.Dict? then Err(AttributeError("id"))
    else
      var micros :- Microseconds(Field(message, "timestamp"));
      var author :- ReadAuthor(Field(message, "author"));
      var money :- ReadMoney(Field(message, "money"));
      var emotes :- ReadEmotes(Field(message, "emotes"));
      var entry :- MessageEntry(
        Field(message, "message_id"), Field(message, "message"), micros,
        Field(message, "time_in_seconds"), Field(message, "message_type"), videoId,
        author, money, Field(message, "header_background_colour"));
      Ok(Message(Field(message, "message_id"), Field(message, "message"), author.value.userId, emotes, entry))
  }

  /**
   * With a badges list present, the three flags reflect only the last badge's
   * title; without a badges key the member status is -1 and every flag is false.
   */
  lemma MessageFlags(message: Value, videoId: Value)
    requires NormalizeMessage(message, videoId).Ok?
    ensures var e := NormalizeMessage(message, videoId).value.entry;
      var badges := AuthorBadges(message);
      && (badges == Null ==>
            e[8].1 == Int(-1) && e[9].1 == Bool(false) && e[10].1 == Bool(false) && e[11].1 == Bool(false))
      && (badges.List? ==>
            (badges.items != [] &&
             var last := Field(badges.items[|badges.items| - 1], "title");
             e[9].1 == Bool(last == Str("Moderator")) &&
             e[10].1 == Bool(last == Str("Verified")) &&
             e[11].1 == Bool(last == Str("Owner"))))
  {
    EntryFlags(message, videoId);
  }

  /** A built message's member and flag columns are those of its author block. */
  lemma EntryFlags(message: Value, videoId: Value)
    requires NormalizeMessage(message, videoId).Ok?
    ensures var author := ReadAuthor(Field(message, "author"));
      && author.Ok? && author.value.Set? && author.value.value.flags.Set?
      && var e, a := NormalizeMessage(message, videoId).value.entry, author.value.value;
      && e[8].1 == a.memberMonths
      && e[9].1 == Bool(a.flags.value.moderator) && e[10].1 == Bool(a.flags.value.verified)
      && e[11].1 == Bool(a.flags.value.owner)
  {
    var author := ReadAuthor(Field(message, "author"));
    assert author.Ok? && author.value.Set?;
    var micros := Microseconds(Field(message, "timestamp")).value;
    var money := ReadMoney(Field(message, "money")).value;
    var entry := MessageEntry(
      Field(message, "message_id"), Field(message, "message"), micros,
      Field(message, "time_in_seconds"), Field(message, "message_type"), videoId,
      author.value, money, Field(message, "header_background_colour"));
    assert entry.Ok? && NormalizeMessage(message, videoId).value.entry == entry.value;
  }

  // ----- users -----

  /** A normalised user: id, profile-picture URL (if the attribute was set) and `entry`. */
  datatype User = User(id: Value, pfp: Slot<Value>, entry: Row)

  const UserColumns: seq<string> := ["latest_name", "custom_url", "created", "viewcount", "subscribers", "region"]

  /** `UserClass(user)`. */
  function NormalizeUser(user: Value): (r: Result<User, Failure>)
    ensures (user.Dict? && Field(user, "snippet") == Null &&
             (Field(user, "statistics") == Null || Field(user, "statistics").Dict?))
      ==> r == Err(AttributeError("name"))
    ensures r.Ok? ==> Field(user, "snippet").Dict? && Field(user, "statistics").Dict?
    ensures r.Ok? ==> HasColumns(r.value.entry, UserColumns) && r.value.id == Field(user, "id")
    ensures r.Ok? ==> r.value.entry[0].1 == Field(Field(user, "snippet"), "title")
    ensures r.Ok? ==> (Field(Field(user, "snippet"), "thumbnails") == Null <==> r.value.pfp == Unset)
    ensures !user.Dict? ==> r == Err(AttributeError("id"))
  {
    // As for videos: the handler reads the unbound `self.id` and raises.
    if !user.Dict? then Err(AttributeError("id"))
    else
      var id := Field(user, "id");
      var snippet := Field(user, "snippet");
      if snippet == Null then
        var stats := Field(user, "statistics");
        if stats != Null && !stats.Dict? then Err(AttributeError("get")) else Err(AttributeError("name"))
      else if !snippet.Dict? then Err(AttributeError("get"))
      else
        var created :- OptionalDate(Field(snippet, "publishedAt"));
        var pfp :- ImageSlot(Field(snippet, "thumbnails"));
        var stats := Field(user, "statistics");
        if stats == Null then Err(AttributeError("viewcount"))
        else if !stats.Dict? then Err(AttributeError("get"))
        else
          Ok(User(id, pfp, UserRow(snippet, stats, created)))
  }

  /** The columns `UserClass` fills, in table order. */
  function UserRow(snippet: Value, stats: Value, created: Value): (row: Row)
    ensures HasColumns(row, UserColumns) && row[0].1 == Field(snippet, "title")
  {
    var row := [
      ("latest_name", Field(snippet, "title")), ("custom_url", Field(snippet, "customUrl")),
      ("created", created), ("viewcount", Field(stats, "viewCount")),
      ("subscribers", Field(stats, "subscriberCount")), ("region", Field(snippet, "country"))];
    assert forall i :: 0 <= i < 6 ==> row[i].0 == UserColumns[i];
    row
  }
}
