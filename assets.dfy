/**
 * Rotate-on-change storage of downloaded assets. The synchroniser keeps one
 * canonical file per asset (a video's JSON, its thumbnail, a user's JSON, a
 * profile picture). A fresh download is first written to a temporary file;
 * if its digest matches the canonical file or any numbered older version the
 * download is dropped, otherwise the canonical file moves to the first free
 * numbered slot and the download takes its place.
 *
 * The filesystem is a map from paths to contents; the digest (`xxh128`) is a
 * function parameter about which nothing is assumed.
 */
module Assets {
  import opened Values

  type Bytes = seq<bv8>
  type Digest = string

  datatype AssetKind = VideoJson | Thumbnail | UserJson | ProfilePicture

  /** The asset whose files share a name stem: `{kind}` of the object with id `id`. */
  datatype Asset = Asset(kind: AssetKind, id: Value)

  /**
   * The three file names of one asset: `{id}.json` / `{id}_Thumbnail.jpg`
   * (canonical), `{id}_TEMP.json` / `{id}_Thumbnail_TEMP.jpg` (temporary)
   * and `{id}_{n}.json` / `{id}_Thumbnail_{n}.jpg` (numbered older versions).
   */
  datatype Path = Canonical(asset: Asset) | Temp(asset: Asset) | Numbered(asset: Asset, n: nat)

  type Files = map<Path, Bytes>

  /** The status string `Get_Video_Info` hands to `VideoClass`. */
  datatype Status = New | Existing | Update

  /** Numbered slots `i..` of `a` that exist in `fs`: finite, shrinking as `i` grows. */
  function Above(fs: Files, a: Asset, i: nat): set<Path> {
    set p | p in fs.Keys && p.Numbered? && p.asset == a && p.n >= i
  }

  /** Slots `1..n-1` of `a` all exist. */
  predicate Present(fs: Files, a: Asset, n: nat) {
    forall j :: 1 <= j < n ==> Numbered(a, j) in fs
  }

  /** The first free numbered slot at or after `i`. */
  function FreeFrom(fs: Files, a: Asset, i: nat): (n: nat)
    requires i >= 1
    ensures n >= i && Numbered(a, n) !in fs
    ensures forall j :: i <= j < n ==> Numbered(a, j) in fs
    decreases Above(fs, a, i)
  {
    if Numbered(a, i) !in fs then i
    else
      assert Numbered(a, i) in Above(fs, a, i) - Above(fs, a, i + 1);
      FreeFrom(fs, a, i + 1)
  }

  /** `N`, the least `i >= 1` whose numbered slot is free. */
  function FirstFree(fs: Files, a: Asset): (n: nat)
    ensures n >= 1 && Numbered(a, n) !in fs && Present(fs, a, n)
  {
    FreeFrom(fs, a, 1)
  }

  /** The digests of the canonical file and of slots `1..n-1`: the set `thumbnail_hashes` collects. */
  function Known(fs: Files, a: Asset, hash: Bytes -> Digest, n: nat): (ds: set<Digest>)
    requires n >= 1 && Canonical(a) in fs && Present(fs, a, n)
    ensures forall d :: d in ds <==>
      (d == hash(fs[Canonical(a)]) || exists j :: 1 <= j < n && d == hash(fs[Numbered(a, j)]))
  {
    if n == 1 then {hash(fs[Canonical(a)])}
    else Known(fs, a, hash, n - 1) + {hash(fs[Numbered(a, n - 1)])}
  }

  /** What one fetch of `fetched` leaves on disk, and the status it reports. */
  function Rotate(fs: Files, a: Asset, fetched: Bytes, hash: Bytes -> Digest): (Files, Status) {
    var c := Canonical(a);
    if c !in fs then (fs[c := fetched] - {Temp(a)}, New)
    else
      var n := FirstFree(fs, a);
      if hash(fetched) in Known(fs, a, hash, n) then (fs - {Temp(a)}, Existing)
      else (fs[Numbered(a, n) := fs[c]][c := fetched] - {Temp(a)}, Update)
  }

  /**
   * The rotate-on-change block: write the temporary file, hash it, collect the
   * digests of the canonical file and its numbered versions while looking for
   * the first free slot, then drop the download or rotate.
   */
  method Commit(fs: Files, a: Asset, fetched: Bytes, hash: Bytes -> Digest) returns (files: Files, status: Status)
    ensures (files, status) == Rotate(fs, a, fetched, hash)
  {
    files := fs[Temp(a) := fetched];
    var newHash := hash(files[Temp(a)]);
    if Canonical(a) in files {
      var hashes := {hash(files[Canonical(a)])};
      var number := 1;
      while Numbered(a, number) in files
        invariant number >= 1 && Present(fs, a, number)
        invariant FreeFrom(fs, a, number) == FirstFree(fs, a)
        invariant hashes == Known(fs, a, hash, number)
        decreases Above(fs, a, number)
      {
        hashes := hashes + {hash(files[Numbered(a, number)])};
        assert Numbered(a, number) in Above(fs, a, number) - Above(fs, a, number + 1);
        number := number + 1;
      }
      assert number == FirstFree(fs, a);
      if newHash in hashes {
        files := files - {Temp(a)};
        status := Existing;
        assert files == fs - {Temp(a)};
      } else {
        files := files[Numbered(a, number) := files[Canonical(a)]];
        files := files[Canonical(a) := files[Temp(a)]] - {Temp(a)};
        status := Update;
        assert files == fs[Numbered(a, number) := fs[Canonical(a)]][Canonical(a) := fetched] - {Temp(a)};
      }
    } else {
      files := files[Canonical(a) := files[Temp(a)]] - {Temp(a)};
      status := New;
      assert files == fs[Canonical(a) := fetched] - {Temp(a)};
    }
  }

  // ----- the three cases -----

  /** No canonical file: the download becomes canonical and no numbered file is made. */
  lemma RotateNew(fs: Files, a: Asset, fetched: Bytes, hash: Bytes -> Digest)
    requires Canonical(a) !in fs
    ensures Rotate(fs, a, fetched, hash).1 == New
    ensures Rotate(fs, a, fetched, hash).0 == (fs - {Temp(a)})[Canonical(a) := fetched]
    ensures forall p: Path :: p.Numbered? ==> (p in Rotate(fs, a, fetched, hash).0 <==> p in fs)
  {
    assert fs[Canonical(a) := fetched] - {Temp(a)} == (fs - {Temp(a)})[Canonical(a) := fetched];
  }

  /** A download whose digest matches the canonical file or a slot below `N` only loses the temporary file. */
  lemma RotateExisting(fs: Files, a: Asset, fetched: Bytes, hash: Bytes -> Digest)
    requires Canonical(a) in fs
    requires hash(fetched) == hash(fs[Canonical(a)]) ||
      exists j :: 1 <= j < FirstFree(fs, a) && hash(fetched) == hash(fs[Numbered(a, j)])
    ensures Rotate(fs, a, fetched, hash) == (fs - {Temp(a)}, Existing)
  {
  }

  /** Any other download moves the canonical file to slot `N` and takes its place. */
  lemma RotateUpdate(fs: Files, a: Asset, fetched: Bytes, hash: Bytes -> Digest)
    requires Canonical(a) in fs
    requires hash(fetched) != hash(fs[Canonical(a)])
    requires forall j :: 1 <= j < FirstFree(fs, a) ==> hash(fetched) != hash(fs[Numbered(a, j)])
    ensures var n := FirstFree(fs, a);
      Rotate(fs, a, fetched, hash) ==
        ((fs - {Temp(a)})[Numbered(a, n) := fs[Canonical(a)]][Canonical(a) := fetched], Update)
  {
    var n := FirstFree(fs, a);
    assert hash(fetched) !in Known(fs, a, hash, n);
    assert fs[Numbered(a, n) := fs[Canonical(a)]][Canonical(a) := fetched] - {Temp(a)}
      == (fs - {Temp(a)})[Numbered(a, n) := fs[Canonical(a)]][Canonical(a) := fetched];
  }

  // ----- what every fetch preserves -----

  /** The temporary file never survives, and the download is always kept or already known. */
  lemma TempNeverSurvives(fs: Files, a: Asset, fetched: Bytes, hash: Bytes -> Digest)
    ensures var (r, s) := Rotate(fs, a, fetched, hash);
      && Temp(a) !in r
      && Canonical(a) in r
      && (s != Existing ==> r[Canonical(a)] == fetched)
      && (s == Existing ==> hash(fetched) in Known(r, a, hash, FirstFree(r, a)))
  {
    var (r, s) := Rotate(fs, a, fetched, hash);
    if s == Existing {
      assert r == fs - {Temp(a)};
      var n := FirstFree(fs, a);
      FreeFromTempFree(fs, a, 1);
      assert FirstFree(r, a) == n;
      KnownTempFree(fs, a, hash, n);
    }
  }

  /** Removing the temporary file does not change where the first free slot is. */
  lemma {:induction false} FreeFromTempFree(fs: Files, a: Asset, i: nat)
    requires i >= 1
    ensures FreeFrom(fs - {Temp(a)}, a, i) == FreeFrom(fs, a, i)
    decreases Above(fs, a, i)
  {
    if Numbered(a, i) in fs {
      assert Numbered(a, i) in Above(fs, a, i) - Above(fs, a, i + 1);
      FreeFromTempFree(fs, a, i + 1);
    }
  }

  /** Removing the temporary file does not change the known digests. */
  lemma {:induction false} KnownTempFree(fs: Files, a: Asset, hash: Bytes -> Digest, n: nat)
    requires n >= 1 && Canonical(a) in fs && Present(fs, a, n)
    ensures Present(fs - {Temp(a)}, a, n)
    ensures Known(fs - {Temp(a)}, a, hash, n) == Known(fs, a, hash, n)
  {
    if n > 1 {
      KnownTempFree(fs, a, hash, n - 1);
    }
  }

  /**
   * No stored version is lost: every path other than the temporary file keeps
   * its content, except the canonical file on an update, whose old content
   * is then in slot `N`.
   */
  lemma NothingLost(fs: Files, a: Asset, fetched: Bytes, hash: Bytes -> Digest, p: Path)
    requires p in fs && p != Temp(a)
    ensures var (r, s) := Rotate(fs, a, fetched, hash);
      && p in r
      && (s == Update && p == Canonical(a) ==> r[Numbered(a, FirstFree(fs, a))] == fs[p])
      && (s != Update || p != Canonical(a) ==> r[p] == fs[p])
  {
  }

  /** Slots `1..N-1` are never written, and files of other assets are untouched. */
  lemma OthersUntouched(fs: Files, a: Asset, fetched: Bytes, hash: Bytes -> Digest, p: Path)
    requires p.asset != a || (p.Numbered? && 1 <= p.n < FirstFree(fs, a))
    ensures var r := Rotate(fs, a, fetched, hash).0;
      (p in r <==> p in fs) && (p in fs ==> r[p] == fs[p])
  {
    if p.asset == a {
      assert p == Numbered(a, p.n);
    }
  }

  /** Fetching the same content again reports `Existing` and changes nothing. */
  lemma FetchTwice(fs: Files, a: Asset, fetched: Bytes, hash: Bytes -> Digest)
    ensures var r := Rotate(fs, a, fetched, hash).0;
      Rotate(r, a, fetched, hash) == (r, Existing)
  {
    var r := Rotate(fs, a, fetched, hash).0;
    TempNeverSurvives(fs, a, fetched, hash);
    assert r - {Temp(a)} == r;
    if Rotate(fs, a, fetched, hash).1 != Existing {
      assert hash(fetched) == hash(r[Canonical(a)]);
    }
  }

  // ----- a sequence of fetches -----

  /** The files left by fetching each of `fetched` in turn. */
  function FetchAll(fs: Files, a: Asset, fetched: seq<Bytes>, hash: Bytes -> Digest): Files
    decreases |fetched|
  {
    if fetched == [] then fs
    else Rotate(FetchAll(fs, a, fetched[..|fetched| - 1], hash), a, fetched[|fetched| - 1], hash).0
  }

  predicate Distinct(fetched: seq<Bytes>, hash: Bytes -> Digest) {
    forall i, j :: 0 <= i < j < |fetched| ==> hash(fetched[i]) != hash(fetched[j])
  }

  /** No file of asset `a` exists. */
  predicate Fresh(fs: Files, a: Asset) {
    forall p :: p in fs ==> p.asset != a
  }

  /** The canonical file holds the last of `fetched` and slot `j` the `j`-th, for `j < |fetched|`. */
  ghost predicate Chain(fs: Files, a: Asset, fetched: seq<Bytes>) {
    && |fetched| >= 1
    && Canonical(a) in fs && fs[Canonical(a)] == fetched[|fetched| - 1]
    && Temp(a) !in fs
    && (forall j :: 1 <= j < |fetched| ==> Numbered(a, j) in fs && fs[Numbered(a, j)] == fetched[j - 1])
    && (forall j :: j >= |fetched| ==> Numbered(a, j) !in fs)
    && (forall j :: Numbered(a, j) in fs ==> 1 <= j)
  }

  /**
   * `k` fetches with pairwise-distinct digests from a start with no files of the
   * asset leave the last one canonical and exactly slots `1..k-1`, in fetch order.
   */
  lemma {:induction false} DistinctFetches(fs: Files, a: Asset, fetched: seq<Bytes>, hash: Bytes -> Digest)
    requires Fresh(fs, a) && |fetched| >= 1 && Distinct(fetched, hash)
    ensures Chain(FetchAll(fs, a, fetched, hash), a, fetched)
    ensures forall p: Path :: p.asset != a ==>
      (p in FetchAll(fs, a, fetched, hash) <==> p in fs)
    decreases |fetched|
  {
    var k := |fetched|;
    var prefix := fetched[..k - 1];
    var x := fetched[k - 1];
    assert FetchAll(fs, a, fetched, hash) == Rotate(FetchAll(fs, a, prefix, hash), a, x, hash).0;
    if k == 1 {
      assert fetched == [x];
      FirstFetch(fs, a, x, hash);
    } else {
      DistinctPrefix(fetched, hash);
      DistinctFetches(fs, a, prefix, hash);
      ChainStep(FetchAll(fs, a, prefix, hash), a, prefix, x, hash);
      assert prefix + [x] == fetched;
    }
  }

  /** Dropping the last fetch keeps the digests distinct, and the last differs from all before it. */
  lemma DistinctPrefix(fetched: seq<Bytes>, hash: Bytes -> Digest)
    requires |fetched| >= 1 && Distinct(fetched, hash)
    ensures Distinct(fetched[..|fetched| - 1], hash)
    ensures forall j :: 0 <= j < |fetched| - 1 ==>
      hash(fetched[|fetched| - 1]) != hash(fetched[j])
  {
  }

  /** The first fetch into an empty start makes a chain of one. */
  lemma FirstFetch(fs: Files, a: Asset, x: Bytes, hash: Bytes -> Digest)
    requires Fresh(fs, a)
    ensures Chain(FetchAll(fs, a, [x], hash), a, [x])
    ensures forall p: Path :: p.asset != a ==> (p in FetchAll(fs, a, [x], hash) <==> p in fs)
  {
    assert [x][..0] == [];
    assert Canonical(a) !in fs;
  }

  /** A fetch whose digest is new extends a chain by one version. */
  lemma ChainStep(fs: Files, a: Asset, prefix: seq<Bytes>, x: Bytes, hash: Bytes -> Digest)
    requires Chain(fs, a, prefix)
    requires forall j :: 0 <= j < |prefix| ==> hash(x) != hash(prefix[j])
    ensures Chain(Rotate(fs, a, x, hash).0, a, prefix + [x])
    ensures forall p: Path :: p.asset != a ==> (p in Rotate(fs, a, x, hash).0 <==> p in fs)
  {
    var k := |prefix|;
    ChainFirstFree(fs, a, prefix);
    ChainKnown(fs, a, prefix, hash, k);
    assert hash(x) !in Known(fs, a, hash, k);
    var after := Rotate(fs, a, x, hash).0;
    assert after == fs[Numbered(a, k) := fs[Canonical(a)]][Canonical(a) := x] - {Temp(a)};
    var fetched := prefix + [x];
    forall j | 1 <= j < k + 1
      ensures Numbered(a, j) in after && after[Numbered(a, j)] == fetched[j - 1]
    {
      assert fetched[j - 1] == prefix[j - 1];
    }
  }

  /** Slots `i..k-1` present and slot `k` free put the first free slot from `i` at `k`. */
  lemma {:induction false} FreeFromIs(fs: Files, a: Asset, i: nat, k: nat)
    requires 1 <= i <= k && Numbered(a, k) !in fs
    requires forall j :: i <= j < k ==> Numbered(a, j) in fs
    ensures FreeFrom(fs, a, i) == k
    decreases k - i
  {
    if i < k {
      FreeFromIs(fs, a, i + 1, k);
    }
  }

  /** After a chain of `k` versions the first free slot is `k`. */
  lemma ChainFirstFree(fs: Files, a: Asset, fetched: seq<Bytes>)
    requires Chain(fs, a, fetched)
    ensures FirstFree(fs, a) == |fetched|
  {
    FreeFromIs(fs, a, 1, |fetched|);
  }

  /** After a chain of `k` versions the known digests are exactly the digests of all `k`. */
  lemma {:induction false} ChainKnown(fs: Files, a: Asset, fetched: seq<Bytes>, hash: Bytes -> Digest, n: nat)
    requires Chain(fs, a, fetched) && 1 <= n <= |fetched|
    ensures Present(fs, a, n)
    ensures forall d :: d in Known(fs, a, hash, n) <==>
      (d == hash(fetched[|fetched| - 1]) || exists j :: 0 <= j < n - 1 && d == hash(fetched[j]))
  {
    if n > 1 {
      ChainKnown(fs, a, fetched, hash, n - 1);
      forall d
        ensures d in Known(fs, a, hash, n) <==>
          (d == hash(fetched[|fetched| - 1]) || exists j :: 0 <= j < n - 1 && d == hash(fetched[j]))
      {
        if exists j :: 0 <= j < n - 1 && d == hash(fetched[j]) {
          var j :| 0 <= j < n - 1 && d == hash(fetched[j]);
          if j < n - 2 {
            assert d in Known(fs, a, hash, n - 1);
          } else {
            assert fs[Numbered(a, n - 1)] == fetched[n - 2];
          }
        }
        if d in Known(fs, a, hash, n) && d != hash(fetched[|fetched| - 1]) {
          if d in Known(fs, a, hash, n - 1) {
          } else {
            assert d == hash(fetched[n - 2]);
          }
        }
      }
    }
  }
}
