/**
 * The nickname matcher of `Get_Messages`: every stored alias is searched
 * for as a whole word, case-insensitively, longest alias first; an
 * occurrence is recorded only when none of its character positions has
 * been claimed by an earlier recorded occurrence. Word characters and case
 * folding are ASCII.
 */
module Nicknames {
  import opened Wrappers
  import opened Values

  // ----- the pattern `\b` + re.escape(alias) + `\b` under IGNORECASE -----

  predicate IsWordChar(c: char) {
    ('a' <= c <= 'z') || ('A' <= c <= 'Z') || ('0' <= c <= '9') || c == '_'
  }

  function Fold(c: char): char {
    if 'A' <= c <= 'Z' then (c as int + 32) as char else c
  }

  /** `\b` at position `p`: a word character on exactly one side. */
  predicate Boundary(t: string, p: int)
    requires 0 <= p <= |t|
  {
    (p > 0 && IsWordChar(t[p - 1])) != (p < |t| && IsWordChar(t[p]))
  }

  /** `alias` occurs in `text` at `s`, ignoring case. */
  predicate SameAt(alias: string, text: string, s: int) {
    0 <= s && s + |alias| <= |text| && forall i :: 0 <= i < |alias| ==> Fold(text[s + i]) == Fold(alias[i])
  }

  /** The pattern matches at `s`. */
  predicate MatchAt(alias: string, text: string, s: int) {
    SameAt(alias, text, s) && Boundary(text, s) && Boundary(text, s + |alias|)
  }

  /** Where the search resumes after a match at 0: past it, or one on for an empty match. */
  function Step(alias: string): nat {
    if |alias| == 0 then 1 else |alias|
  }

  /** `re.finditer` from `from`: the leftmost match, then the rest after it. */
  function Occurrences(alias: string, text: string, from: nat): (r: seq<nat>)
    ensures forall k :: 0 <= k < |r| ==> from <= r[k] && MatchAt(alias, text, r[k])
    ensures forall k :: 0 <= k < |r| - 1 ==> r[k] + Step(alias) <= r[k + 1]
    decreases |text| + 1 - from
  {
    if from > |text| then []
    else if MatchAt(alias, text, from) then [from] + Occurrences(alias, text, from + Step(alias))
    else Occurrences(alias, text, from + 1)
  }

  /** `p` is one of the starts, or lies strictly inside a found match. */
  predicate Found(r: seq<nat>, p: nat, width: nat) {
    p in r || exists k :: 0 <= k < |r| && r[k] < p < r[k] + width
  }

  /** Every match is found, unless it overlaps a found one. */
  lemma {:induction false} OccurrencesComplete(alias: string, text: string, from: nat, p: nat)
    requires from <= p && MatchAt(alias, text, p)
    ensures Found(Occurrences(alias, text, from), p, |alias|)
    decreases |text| + 1 - from
  {
    OccurrencesFrom(alias, text, from);
    if !MatchAt(alias, text, from) {
      OccurrencesComplete(alias, text, from + 1, p);
    } else {
      var rest := Occurrences(alias, text, from + Step(alias));
      if p < from + Step(alias) {
        FoundHead(from, rest, p, |alias|);
      } else {
        OccurrencesComplete(alias, text, from + Step(alias), p);
        FoundCons(from, rest, p, |alias|);
      }
    }
  }

  /** One step of the scan, at a position inside the text. */
  lemma OccurrencesFrom(alias: string, text: string, from: nat)
    requires from <= |text|
    ensures Occurrences(alias, text, from) ==
      if MatchAt(alias, text, from) then [from] + Occurrences(alias, text, from + Step(alias))
      else Occurrences(alias, text, from + 1)
  {
  }

  /** A start at `s` finds `s` itself and everything strictly inside its match. */
  lemma FoundHead(s: nat, rest: seq<nat>, p: nat, width: nat)
    requires s <= p && (p == s || p < s + width)
    ensures Found([s] + rest, p, width)
  {
    var r := [s] + rest;
    assert r[0] == s;
  }

  /** Putting a start in front keeps whatever was found. */
  lemma FoundCons(s: nat, rest: seq<nat>, p: nat, width: nat)
    requires Found(rest, p, width)
    ensures Found([s] + rest, p, width)
  {
    var r := [s] + rest;
    if p !in rest {
      var k :| 0 <= k < |rest| && rest[k] < p < rest[k] + width;
      assert r[k + 1] == rest[k];
    }
  }


  // ----- claiming positions -----

  datatype Match = Match(nick: string, start: nat, end: nat)

  /** The `used_positions` set and the `entries` list. */
  datatype State = State(used: set<int>, entries: seq<Match>)

  /** `range(s, e)` as a set. */
  function Span(s: int, e: int): (r: set<int>)
    ensures forall p :: p in r <==> s <= p < e
    decreases e - s
  {
    if e <= s then {} else Span(s, e - 1) + {e - 1}
  }

  /** `not any(pos in used_positions for pos in range(start, end))`. */
  predicate Free(used: set<int>, s: int, e: int) {
    forall p :: s <= p < e ==> p !in used
  }

  /** The positions the entries claim. */
  function Covered(entries: seq<Match>): set<int> {
    if entries == [] then {}
    else Covered(entries[..|entries| - 1]) + Span(entries[|entries| - 1].start, entries[|entries| - 1].end)
  }

  /** Record the occurrences at `starts` of `nick` whose positions are all free. */
  function Claim(st: State, nick: string, starts: seq<nat>): State
    decreases |starts|
  {
    if starts == [] then st
    else
      var s := starts[0];
      var e := s + |nick|;
      var next := if Free(st.used, s, e) then State(st.used + Span(s, e), st.entries + [Match(nick, s, e)]) else st;
      Claim(next, nick, starts[1..])
  }

  /** The inner `for match in re.finditer(...)` loop for one alias. */
  function MatchAlias(st: State, nick: string, text: string): State {
    Claim(st, nick, Occurrences(nick, text, 0))
  }

  /** The outer loop over the sorted aliases. */
  function MatchAliases(st: State, nicks: seq<string>, text: string): State
    decreases |nicks|
  {
    if nicks == [] then st else MatchAliases(MatchAlias(st, nicks[0], text), nicks[1..], text)
  }

  /**
   * The matcher's two nested loops from empty `used_positions` and
   * `entries`: over the sorted aliases, then over each alias's occurrences.
   */
  method ScanAliases(nicks: seq<string>, text: string) returns (st: State)
    ensures st == MatchAliases(State({}, []), nicks, text)
  {
    st := State({}, []);
    for i := 0 to |nicks|
      invariant MatchAliases(st, nicks[i..], text) == MatchAliases(State({}, []), nicks, text)
    {
      assert nicks[i..][0] == nicks[i] && nicks[i..][1..] == nicks[i + 1..];
      var nick := nicks[i];
      var starts := Occurrences(nick, text, 0);
      ghost var before := st;
      for j := 0 to |starts|
        invariant Claim(st, nick, starts[j..]) == MatchAlias(before, nick, text)
      {
        assert starts[j..][0] == starts[j] && starts[j..][1..] == starts[j + 1..];
        var s := starts[j];
        var e := s + |nick|;
        if Free(st.used, s, e) {
          st := State(st.used + Span(s, e), st.entries + [Match(nick, s, e)]);
        }
      }
      assert starts[|starts|..] == [];
    }
    assert nicks[|nicks|..] == [];
  }

  // ----- the state invariant -----

  /** Spans that share no position. */
  predicate Apart(a: Match, b: Match) {
    a.end <= b.start || b.end <= a.start || a.end <= a.start || b.end <= b.start
  }

  predicate AllApart(entries: seq<Match>) {
    forall i, j :: 0 <= i < j < |entries| ==> Apart(entries[i], entries[j])
  }

  /** `used_positions` is exactly what the entries claim, and the entries are pairwise apart. */
  predicate Good(st: State) {
    st.used == Covered(st.entries) && AllApart(st.entries)
  }

  lemma {:induction false} CoveredMeans(entries: seq<Match>, p: int)
    ensures p in Covered(entries) <==> exists k :: 0 <= k < |entries| && entries[k].start <= p < entries[k].end
    decreases |entries|
  {
    if entries != [] {
      var init := entries[..|entries| - 1];
      CoveredMeans(init, p);
      assert forall k :: 0 <= k < |init| ==> init[k] == entries[k];
    }
  }

  /** A free span is apart from every entry. */
  lemma FreeApart(st: State, m: Match)
    requires Good(st) && Free(st.used, m.start, m.end)
    ensures forall k :: 0 <= k < |st.entries| ==> Apart(st.entries[k], m)
  {
    forall k | 0 <= k < |st.entries|
      ensures Apart(st.entries[k], m)
    {
      var x := st.entries[k];
      if !Apart(x, m) {
        var p := if x.start < m.start then m.start else x.start;
        CoveredMeans(st.entries, p);
      }
    }
  }

  /** Recording a free occurrence keeps the invariant. */
  lemma Record(st: State, m: Match)
    requires Good(st) && Free(st.used, m.start, m.end)
    ensures Good(State(st.used + Span(m.start, m.end), st.entries + [m]))
  {
    var es := st.entries + [m];
    assert es[..|es| - 1] == st.entries;
    FreeApart(st, m);
  }

  // ----- what one alias contributes -----

  /** An entry recorded for `nick` at `s` with its end. */
  predicate IsEntry(m: Match, nick: string, text: string) {
    m.nick == nick && MatchAt(nick, text, m.start) && m.end == m.start + |nick|
  }

  /** The occurrence at `s` was recorded, or overlaps claimed positions. */
  predicate Settled(st: State, nick: string, s: nat) {
    Match(nick, s, s + |nick|) in st.entries || !Free(st.used, s, s + |nick|)
  }

  /** Claiming keeps the invariant, only appends entries for `starts`, and settles every start. */
  lemma {:induction false} ClaimFacts(st: State, nick: string, starts: seq<nat>)
    requires Good(st)
    ensures var r := Claim(st, nick, starts);
      && Good(r)
      && st.used <= r.used
      && |st.entries| <= |r.entries| && r.entries[..|st.entries|] == st.entries
      && (forall k :: |st.entries| <= k < |r.entries| ==>
            r.entries[k].nick == nick && r.entries[k].start in starts && r.entries[k].end == r.entries[k].start + |nick|)
      && (forall s :: s in starts ==> Settled(r, nick, s))
    decreases |starts|
  {
    if starts != [] {
      var s := starts[0];
      var e := s + |nick|;
      var next := if Free(st.used, s, e) then State(st.used + Span(s, e), st.entries + [Match(nick, s, e)]) else st;
      if Free(st.used, s, e) {
        Record(st, Match(nick, s, e));
      }
      ClaimFacts(next, nick, starts[1..]);
      var r := Claim(next, nick, starts[1..]);
      assert r == Claim(st, nick, starts);
      assert r.entries[..|next.entries|] == next.entries;
      assert r.entries[..|st.entries|] == st.entries by {
        assert next.entries[..|st.entries|] == st.entries;
      }
      assert Settled(r, nick, s) by {
        if Free(st.used, s, e) {
          assert next.entries[|st.entries|] == Match(nick, s, e);
          assert r.entries[|st.entries|] == next.entries[|st.entries|];
        } else {
          var p :| s <= p < e && p in st.used;
          assert p in r.used;
        }
      }
      forall x | x in starts
        ensures Settled(r, nick, x)
      {
        if x != s {
          assert x in starts[1..];
        }
      }
    }
  }

  /** A later claim never removes or alters an entry. */
  lemma {:induction false} MatchAliasesFacts(st: State, nicks: seq<string>, text: string)
    requires Good(st)
    ensures var r := MatchAliases(st, nicks, text);
      && Good(r)
      && st.used <= r.used
      && |st.entries| <= |r.entries| && r.entries[..|st.entries|] == st.entries
      && (forall k :: |st.entries| <= k < |r.entries| ==>
            r.entries[k].nick in nicks && IsEntry(r.entries[k], r.entries[k].nick, text))
    decreases |nicks|
  {
    if nicks != [] {
      var mid := MatchAlias(st, nicks[0], text);
      ClaimFacts(st, nicks[0], Occurrences(nicks[0], text, 0));
      MatchAliasesFacts(mid, nicks[1..], text);
      var r := MatchAliases(mid, nicks[1..], text);
      assert r.entries[..|st.entries|] == st.entries by {
        assert r.entries[..|mid.entries|][..|st.entries|] == r.entries[..|st.entries|];
      }
      forall k | |st.entries| <= k < |r.entries|
        ensures r.entries[k].nick in nicks && IsEntry(r.entries[k], r.entries[k].nick, text)
      {
        if k < |mid.entries| {
          assert r.entries[k] == mid.entries[k];
        } else {
          assert r.entries[k].nick in nicks[1..];
        }
      }
    }
  }

  /** Settled occurrences stay settled: entries are kept and positions stay claimed. */
  lemma SettledStays(a: State, b: State, nick: string, s: nat)
    requires Settled(a, nick, s)
    requires a.used <= b.used && |a.entries| <= |b.entries| && b.entries[..|a.entries|] == a.entries
    ensures Settled(b, nick, s)
  {
    if Match(nick, s, s + |nick|) in a.entries {
      var k :| 0 <= k < |a.entries| && a.entries[k] == Match(nick, s, s + |nick|);
      assert b.entries[k] == a.entries[k];
    }
  }

  /** Every occurrence of every alias is recorded or overlaps a claimed position. */
  lemma {:induction false} AllSettled(st: State, nicks: seq<string>, text: string, i: nat, s: nat)
    requires Good(st) && i < |nicks| && s in Occurrences(nicks[i], text, 0)
    ensures Settled(MatchAliases(st, nicks, text), nicks[i], s)
    decreases |nicks|
  {
    var mid := MatchAlias(st, nicks[0], text);
    ClaimFacts(st, nicks[0], Occurrences(nicks[0], text, 0));
    if i == 0 {
      MatchAliasesFacts(mid, nicks[1..], text);
      SettledStays(mid, MatchAliases(mid, nicks[1..], text), nicks[0], s);
    } else {
      AllSettled(mid, nicks[1..], text, i - 1, s);
    }
  }

  // ----- repeated aliases -----

  /** Claiming a non-empty alias whose every start is already settled adds nothing. */
  lemma {:induction false} ClaimSettled(st: State, nick: string, starts: seq<nat>)
    requires |nick| >= 1 && Good(st)
    requires forall s :: s in starts ==> !Free(st.used, s, s + |nick|)
    ensures Claim(st, nick, starts) == st
    decreases |starts|
  {
    if starts != [] {
      assert starts[0] in starts;
      assert !Free(st.used, starts[0], starts[0] + |nick|);
      assert Claim(st, nick, starts) == Claim(st, nick, starts[1..]);
      forall s | s in starts[1..]
        ensures !Free(st.used, s, s + |nick|)
      {
        assert s in starts;
      }
      ClaimSettled(st, nick, starts[1..]);
    }
  }

  /** A settled occurrence of a non-empty alias has a claimed position. */
  lemma SettledClaimed(st: State, nick: string, s: nat)
    requires |nick| >= 1 && Good(st) && Settled(st, nick, s)
    ensures !Free(st.used, s, s + |nick|)
  {
    if Free(st.used, s, s + |nick|) {
      var k :| 0 <= k < |st.entries| && st.entries[k] == Match(nick, s, s + |nick|);
      CoveredMeans(st.entries, s);
    }
  }

  /**
   * An alias that comes again after it was already searched adds nothing:
   * all its occurrences are recorded or blocked, and positions stay claimed.
   */
  lemma RepeatAddsNothing(st: State, nicks: seq<string>, text: string, i: nat, j: nat)
    requires Good(st) && i < j < |nicks| && nicks[i] == nicks[j] && |nicks[j]| >= 1
    ensures MatchAliases(st, nicks, text) == MatchAliases(st, nicks[..j] + nicks[j + 1..], text)
  {
    var nick := nicks[j];
    var before := MatchAliases(st, nicks[..j], text);
    RunSplit(st, nicks[..j], nicks[j..], text);
    assert nicks[..j] + nicks[j..] == nicks;
    RunSplit(st, nicks[..j], nicks[j + 1..], text);
    MatchAliasesFacts(st, nicks[..j], text);
    forall s | s in Occurrences(nick, text, 0)
      ensures !Free(before.used, s, s + |nick|)
    {
      AllSettled(st, nicks[..j], text, i, s);
      SettledClaimed(before, nick, s);
    }
    ClaimSettled(before, nick, Occurrences(nick, text, 0));
    assert nicks[j..][0] == nick && nicks[j..][1..] == nicks[j + 1..];
  }

  lemma {:induction false} RunSplit(st: State, p: seq<string>, q: seq<string>, text: string)
    ensures MatchAliases(st, p + q, text) == MatchAliases(MatchAliases(st, p, text), q, text)
    decreases |p|
  {
    if p == [] {
      assert p + q == q;
    } else {
      assert (p + q)[0] == p[0] && (p + q)[1..] == p[1..] + q;
      RunSplit(MatchAlias(st, p[0], text), p[1..], q, text);
    }
  }

  // ----- longest first -----

  /** `x` goes after every alias at least as long, so equal lengths keep their order. */
  function InsertByLength(sorted: seq<string>, x: string): (r: seq<string>)
    ensures |r| == |sorted| + 1
  {
    if sorted == [] then [x]
    else if |sorted[0]| < |x| then [x] + sorted
    else [sorted[0]] + InsertByLength(sorted[1..], x)
  }

  lemma {:induction false} InsertPermutes(sorted: seq<string>, x: string)
    ensures multiset(InsertByLength(sorted, x)) == multiset(sorted) + multiset{x}
    decreases |sorted|
  {
    if sorted != [] && |sorted[0]| >= |x| {
      InsertPermutes(sorted[1..], x);
      assert sorted == [sorted[0]] + sorted[1..];
    }
  }

  /** `sorted(nicknames, key=len, reverse=True)`. */
  function SortByLength(xs: seq<string>): (r: seq<string>)
    ensures multiset(r) == multiset(xs)
    ensures |r| == |xs|
  {
    if xs == [] then []
    else
      assert xs == xs[..|xs| - 1] + [xs[|xs| - 1]];
      InsertPermutes(SortByLength(xs[..|xs| - 1]), xs[|xs| - 1]);
      InsertByLength(SortByLength(xs[..|xs| - 1]), xs[|xs| - 1])
  }

  predicate Descending(xs: seq<string>) {
    forall i, j :: 0 <= i < j < |xs| ==> |xs[i]| >= |xs[j]|
  }

  /** The aliases of one length, in order. */
  function OfLength(xs: seq<string>, n: nat): seq<string> {
    if xs == [] then []
    else (if |xs[0]| == n then [xs[0]] else []) + OfLength(xs[1..], n)
  }

  lemma {:induction false} InsertDescending(sorted: seq<string>, x: string)
    requires Descending(sorted)
    ensures Descending(InsertByLength(sorted, x))
    decreases |sorted|
  {
    if sorted != [] && |sorted[0]| >= |x| {
      DescendingTail(sorted);
      InsertDescending(sorted[1..], x);
      HeadOutlasts(sorted, x);
      DescendingCons(sorted[0], InsertByLength(sorted[1..], x));
      assert InsertByLength(sorted, x) == [sorted[0]] + InsertByLength(sorted[1..], x);
    }
  }

  /** The head of a descending list is at least as long as anything inserted after it. */
  lemma HeadOutlasts(sorted: seq<string>, x: string)
    requires Descending(sorted) && sorted != [] && |sorted[0]| >= |x|
    ensures forall y :: y in InsertByLength(sorted[1..], x) ==> |sorted[0]| >= |y|
  {
    var tail := InsertByLength(sorted[1..], x);
    InsertPermutes(sorted[1..], x);
    forall y | y in tail
      ensures |sorted[0]| >= |y|
    {
      assert y in multiset(tail);
      if y != x {
        assert y in multiset(sorted[1..]);
        var k :| 0 <= k < |sorted[1..]| && sorted[1..][k] == y;
        assert sorted[k + 1] == y;
      }
    }
  }

  /** A head at least as long as every element keeps a descending list descending. */
  lemma DescendingCons(h: string, tail: seq<string>)
    requires Descending(tail) && forall y :: y in tail ==> |h| >= |y|
    ensures Descending([h] + tail)
  {
    var r := [h] + tail;
    forall i, j | 0 <= i < j < |r|
      ensures |r[i]| >= |r[j]|
    {
      assert r[j] == tail[j - 1];
      if i == 0 {
        assert tail[j - 1] in tail;
      } else {
        assert r[i] == tail[i - 1];
      }
    }
  }


  lemma {:induction false} OfLengthConcat(a: seq<string>, b: seq<string>, n: nat)
    ensures OfLength(a + b, n) == OfLength(a, n) + OfLength(b, n)
    decreases |a|
  {
    if a == [] {
      assert a + b == b;
    } else {
      assert (a + b)[0] == a[0] && (a + b)[1..] == a[1..] + b;
      OfLengthConcat(a[1..], b, n);
    }
  }

  /** Inserting `x` appends it to its own length class and leaves the others alone. */
  lemma {:induction false} InsertOfLength(sorted: seq<string>, x: string, n: nat)
    requires Descending(sorted)
    ensures OfLength(InsertByLength(sorted, x), n) == OfLength(sorted, n) + (if |x| == n then [x] else [])
    decreases |sorted|
  {
    if sorted == [] {
    } else if |sorted[0]| < |x| {
      var r := InsertByLength(sorted, x);
      assert r == [x] + sorted;
      assert r[0] == x && r[1..] == sorted;
      if |x| == n {
        assert OfLength(sorted, n) == [] by { ShorterNone(sorted, n); }
      }
    } else {
      InsertOfLength(sorted[1..], x, n);
      var r := InsertByLength(sorted, x);
      assert r[0] == sorted[0] && r[1..] == InsertByLength(sorted[1..], x);
    }
  }

  /** In a descending list headed by something shorter than `n`, nothing has length `n`. */
  lemma {:induction false} ShorterNone(sorted: seq<string>, n: nat)
    requires Descending(sorted) && sorted != [] && |sorted[0]| < n
    ensures OfLength(sorted, n) == []
    decreases |sorted|
  {
    if |sorted| > 1 {
      assert |sorted[1]| <= |sorted[0]|;
      ShorterNone(sorted[1..], n);
    }
  }

  /** The sort is descending by length and stable: each length class keeps its input order. */
  lemma {:induction false} SortFacts(xs: seq<string>, n: nat)
    ensures Descending(SortByLength(xs))
    ensures OfLength(SortByLength(xs), n) == OfLength(xs, n)
    decreases |xs|
  {
    if xs != [] {
      var init := xs[..|xs| - 1];
      var x := xs[|xs| - 1];
      SortFacts(init, n);
      InsertDescending(SortByLength(init), x);
      InsertOfLength(SortByLength(init), x, n);
      assert xs == init + [x];
      OfLengthConcat(init, [x], n);
    }
  }

  // ----- the alias list and the result -----

  /** `for nick_entry in nickname_entries: for key in nick_entry.keys(): nicknames.append(key)`. */
  function AliasesFromRows(rows: seq<Row>): seq<string> {
    if rows == [] then [] else Keys(rows[0]) + AliasesFromRows(rows[1..])
  }

  /** Rows fetched with the single column `nickname` contribute that column name once each. */
  lemma {:induction false} AliasesAreColumnName(rows: seq<Row>)
    requires forall i :: 0 <= i < |rows| ==> HasColumns(rows[i], ["nickname"])
    ensures AliasesFromRows(rows) == seq(|rows|, i => "nickname")
  {
    if rows != [] {
      AliasesAreColumnName(rows[1..]);
      assert rows[0] == [rows[0][0]];
      assert Keys(rows[0]) == ["nickname"];
    }
  }

  lemma {:induction false} KeysAt(row: Row)
    ensures |Keys(row)| == |row| && forall i :: 0 <= i < |row| ==> Keys(row)[i] == row[i].0
  {
    if row != [] {
      KeysAt(row[1..]);
    }
  }

  /** The nested loops that append every key of every fetched row. */
  method CollectAliases(rows: seq<Row>) returns (nicknames: seq<string>)
    ensures nicknames == AliasesFromRows(rows)
  {
    nicknames := [];
    for i := 0 to |rows|
      invariant nicknames + AliasesFromRows(rows[i..]) == AliasesFromRows(rows)
    {
      assert rows[i..][0] == rows[i] && rows[i..][1..] == rows[i + 1..];
      var row := rows[i];
      KeysAt(row);
      var before := nicknames;
      for j := 0 to |row|
        invariant nicknames == before + Keys(row)[..j]
      {
        assert Keys(row)[..j + 1] == Keys(row)[..j] + [row[j].0];
        nicknames := nicknames + [row[j].0];
      }
      assert Keys(row)[..|row|] == Keys(row);
    }
    assert rows[|rows|..] == [];
  }

  /**
   * The entries recorded for one new message, with `None` text searching
   * nothing; another non-string text makes `re.finditer` raise.
   */
  function FindMatches(nicknames: seq<string>, text: Value): (r: Result<seq<Match>, Failure>)
    ensures text == Null ==> r == Ok([])
    ensures text.Str? ==> r == Ok(MatchAliases(State({}, []), SortByLength(nicknames), text.s).entries)
  {
    if nicknames == [] || text == Null then Ok([])
    else if text.Str? then Ok(MatchAliases(State({}, []), SortByLength(nicknames), text.s).entries)
    else Err(TypeError)
  }

  /** The search for one new message, running the matcher's loops. */
  method SearchMessage(nicknames: seq<string>, text: Value) returns (r: Result<seq<Match>, Failure>)
    ensures r == FindMatches(nicknames, text)
  {
    if nicknames == [] || text == Null {
      return Ok([]);
    }
    if !text.Str? {
      return Err(TypeError);
    }
    var st := ScanAliases(SortByLength(nicknames), text.s);
    r := Ok(st.entries);
  }

  /**
   * What the matcher promises: the recorded spans are pairwise apart, each is
   * a whole-word case-insensitive occurrence of an alias in the list, and
   * every occurrence of every alias is recorded or overlaps a recorded one.
   */
  lemma MatchesSound(nicknames: seq<string>, text: string)
    ensures var es := MatchAliases(State({}, []), SortByLength(nicknames), text).entries;
      && AllApart(es)
      && (forall k :: 0 <= k < |es| ==> es[k].nick in nicknames && IsEntry(es[k], es[k].nick, text))
  {
    var sorted := SortByLength(nicknames);
    assert Good(State({}, []));
    MatchAliasesFacts(State({}, []), sorted, text);
    var es := MatchAliases(State({}, []), sorted, text).entries;
    forall k | 0 <= k < |es|
      ensures es[k].nick in nicknames
    {
      assert es[k].nick in multiset(sorted);
    }
  }

  lemma MatchesMaximal(nicknames: seq<string>, text: string, a: string, s: nat)
    requires a in nicknames && s in Occurrences(a, text, 0)
    ensures var st := MatchAliases(State({}, []), SortByLength(nicknames), text);
      Match(a, s, s + |a|) in st.entries
      || exists k :: 0 <= k < |st.entries| && Overlap(st.entries[k], s, s + |a|)
  {
    var sorted := SortByLength(nicknames);
    assert a in multiset(sorted);
    var i :| 0 <= i < |sorted| && sorted[i] == a;
    assert Good(State({}, []));
    AllSettled(State({}, []), sorted, text, i, s);
    MatchAliasesFacts(State({}, []), sorted, text);
    var st := MatchAliases(State({}, []), sorted, text);
    if !Free(st.used, s, s + |a|) {
      var p :| s <= p < s + |a| && p in st.used;
      CoveredMeans(st.entries, p);
    }
  }

  /** The span `[s, e)` shares a position with the entry. */
  predicate Overlap(m: Match, s: int, e: int) {
    s < e && m.start < m.end && m.start < e && s < m.end
  }

  /** Appending an alias already in the list, if it is not empty, changes nothing. */
  lemma RepeatedAlias(nicknames: seq<string>, a: string, text: string)
    requires a in nicknames && |a| >= 1
    ensures MatchAliases(State({}, []), SortByLength(nicknames + [a]), text)
         == MatchAliases(State({}, []), SortByLength(nicknames), text)
  {
    var xs := nicknames + [a];
    assert xs[..|xs| - 1] == nicknames && xs[|xs| - 1] == a;
    var sorted := SortByLength(nicknames);
    var r := SortByLength(xs);
    assert r == InsertByLength(sorted, a);
    SortFacts(nicknames, |a|);
    var j := InsertedAt(sorted, a);
    assert a in multiset(sorted);
    var i :| 0 <= i < |sorted| && sorted[i] == a;
    Splice(sorted, a, i, j);
    assert Good(State({}, []));
    RepeatAddsNothing(State({}, []), r, text, i, j);
  }

  lemma Splice(s: seq<string>, x: string, i: nat, j: nat)
    requires i < j <= |s|
    ensures var r := s[..j] + [x] + s[j..];
      r[i] == s[i] && r[j] == x && r[..j] + r[j + 1..] == s
  {
    var r := s[..j] + [x] + s[j..];
    assert r[..j] == s[..j];
    assert r[j + 1..] == s[j..];
  }


  /** `InsertByLength` places `x` after every alias at least as long and before every shorter one. */
  lemma {:induction false} InsertedAt(sorted: seq<string>, x: string) returns (j: nat)
    requires Descending(sorted)
    ensures j <= |sorted| && InsertByLength(sorted, x) == sorted[..j] + [x] + sorted[j..]
    ensures forall k :: 0 <= k < j ==> |sorted[k]| >= |x|
    ensures forall k :: j <= k < |sorted| ==> |sorted[k]| < |x|
    decreases |sorted|
  {
    if sorted == [] {
      j := 0;
      assert InsertByLength(sorted, x) == [x];
    } else if |sorted[0]| < |x| {
      j := 0;
      assert InsertByLength(sorted, x) == [x] + sorted;
      assert sorted[..0] + [x] + sorted[0..] == [x] + sorted;
      forall k | 0 <= k < |sorted|
        ensures |sorted[k]| < |x|
      {
        assert |sorted[k]| <= |sorted[0]|;
      }
    } else {
      var t := sorted[1..];
      DescendingTail(sorted);
      var j' := InsertedAt(t, x);
      j := j' + 1;
      var rest := InsertByLength(t, x);
      assert InsertByLength(sorted, x) == [sorted[0]] + rest;
      assert rest == t[..j'] + [x] + t[j'..];
      assert sorted[..j] == [sorted[0]] + t[..j'];
      assert sorted[j..] == t[j'..];
      assert [sorted[0]] + rest == sorted[..j] + [x] + sorted[j..];
      forall k | 0 < k < |sorted|
        ensures sorted[k] == t[k - 1]
      {
      }
    }
  }

  /** A descending list stays descending without its head. */
  lemma DescendingTail(xs: seq<string>)
    requires xs != [] && Descending(xs)
    ensures Descending(xs[1..])
  {
    forall i, j | 0 <= i < j < |xs| - 1
      ensures |xs[1..][i]| >= |xs[1..][j]|
    {
      assert xs[1..][i] == xs[i + 1] && xs[1..][j] == xs[j + 1];
    }
  }

  /**
   * Every whole-word occurrence of a listed alias is recorded, overlaps a
   * recorded entry, or lies inside another occurrence of the same alias
   * that the scan found first.
   */
  lemma MatchesComplete(nicknames: seq<string>, text: string, a: string, p: nat)
    requires a in nicknames && MatchAt(a, text, p)
    ensures var st := MatchAliases(State({}, []), SortByLength(nicknames), text);
      || Match(a, p, p + |a|) in st.entries
      || (exists k :: 0 <= k < |st.entries| && Overlap(st.entries[k], p, p + |a|))
      || (exists k :: 0 <= k < |Occurrences(a, text, 0)| && Occurrences(a, text, 0)[k] < p < Occurrences(a, text, 0)[k] + |a|)
  {
    var occ := Occurrences(a, text, 0);
    OccurrencesComplete(a, text, 0, p);
    assert Found(occ, p, |a|);
    if p in occ {
      MatchesMaximal(nicknames, text, a, p);
    } else {
      var k :| 0 <= k < |occ| && occ[k] < p < occ[k] + |a|;
      assert exists k :: 0 <= k < |Occurrences(a, text, 0)| && Occurrences(a, text, 0)[k] < p < Occurrences(a, text, 0)[k] + |a|;
      var st := MatchAliases(State({}, []), SortByLength(nicknames), text);
      assert || Match(a, p, p + |a|) in st.entries
      || (exists k :: 0 <= k < |st.entries| && Overlap(st.entries[k], p, p + |a|))
      || (exists k :: 0 <= k < |Occurrences(a, text, 0)| && Occurrences(a, text, 0)[k] < p < Occurrences(a, text, 0)[k] + |a|);
    }
  }

  // ----- an example -----

  const Text: string := "hi " + "Kiara" + " " + "Hime" + "!"
  const Short: string := "Kiara"
  const Long: string := "Kiara" + " " + "Hime"

  /** No match where the first character differs. */
  lemma FirstDiffers(alias: string, text: string, s: nat)
    requires |alias| >= 1 && s < |text| && Fold(text[s]) != Fold(alias[0])
    ensures !MatchAt(alias, text, s)
  {
  }

  lemma LongOccurrences()
    ensures Occurrences(Long, Text, 0) == [3]
  {
    assert |Text| == 14 && |Long| == 10;
    assert Text[3..13] == Long;
    FirstDiffers(Long, Text, 0);
    FirstDiffers(Long, Text, 1);
    FirstDiffers(Long, Text, 2);
    assert MatchAt(Long, Text, 3);
    assert Occurrences(Long, Text, 15) == [];
    assert Occurrences(Long, Text, 14) == [];
    assert Occurrences(Long, Text, 13) == [];
    assert Occurrences(Long, Text, 3) == [3];
    assert Occurrences(Long, Text, 2) == [3];
    assert Occurrences(Long, Text, 1) == [3];
  }

  lemma ShortTail()
    ensures Occurrences(Short, Text, 8) == []
  {
    assert |Text| == 14 && |Short| == 5;
    FirstDiffers(Short, Text, 8);
    FirstDiffers(Short, Text, 9);
    assert Occurrences(Short, Text, 15) == [];
    assert Occurrences(Short, Text, 14) == [];
    assert Occurrences(Short, Text, 13) == [];
    assert Occurrences(Short, Text, 12) == [];
    assert Occurrences(Short, Text, 11) == [];
    assert Occurrences(Short, Text, 10) == [];
    assert Occurrences(Short, Text, 9) == [];
  }

  lemma ShortOccurrences()
    ensures Occurrences(Short, Text, 0) == [3]
  {
    assert |Text| == 14 && |Short| == 5;
    assert Text[3..8] == Short;
    FirstDiffers(Short, Text, 0);
    FirstDiffers(Short, Text, 1);
    FirstDiffers(Short, Text, 2);
    assert MatchAt(Short, Text, 3);
    ShortTail();
    assert Occurrences(Short, Text, 3) == [3];
    assert Occurrences(Short, Text, 2) == [3];
    assert Occurrences(Short, Text, 1) == [3];
  }

  lemma SortExample()
    ensures SortByLength([Short, Long]) == [Long, Short]
  {
    assert |Long| == 10 && |Short| == 5;
    assert [Short, Long][..1] == [Short];
    assert [Short][..0] == [];
    assert SortByLength([Short]) == [Short];
  }

  lemma ClaimLong()
    ensures MatchAlias(State({}, []), Long, Text) == State(Span(3, 13), [Match(Long, 3, 13)])
  {
    LongOccurrences();
    assert |Long| == 10;
    var first := State(Span(3, 13), [Match(Long, 3, 13)]);
    assert Claim(State({}, []), Long, [3]) == Claim(first, Long, []);
  }

  lemma ClaimShort()
    ensures var first := State(Span(3, 13), [Match(Long, 3, 13)]);
      MatchAlias(first, Short, Text) == first
  {
    ShortOccurrences();
    assert |Short| == 5;
    var first := State(Span(3, 13), [Match(Long, 3, 13)]);
    assert 3 in first.used;
    assert Claim(first, Short, [3]) == Claim(first, Short, []);
  }

  lemma ClaimExample()
    ensures MatchAliases(State({}, []), [Long, Short], Text) == State(Span(3, 13), [Match(Long, 3, 13)])
  {
    var first := State(Span(3, 13), [Match(Long, 3, 13)]);
    ClaimLong();
    ClaimShort();
    assert [Long, Short][1..] == [Short] && [Short][1..] == [];
    assert MatchAliases(State({}, []), [Long, Short], Text) == MatchAliases(first, [Short], Text);
    assert MatchAliases(first, [Short], Text) == MatchAliases(first, [], Text);
  }

  /** With the aliases `Kiara` and `Kiara Hime`, only the longer one is recorded in `hi Kiara Hime!`. */
  lemma KiaraExample()
    ensures FindMatches([Short, Long], Str(Text)) == Ok([Match(Long, 3, 13)])
  {
    SortExample();
    ClaimExample();
  }
}