/** Requests for bundles: which artifacts may be asked for, the text that names
    a bundle, and the whole download in front of the cache. */
module BundleRequests {
  import opened Prelude
  import opened Text
  import opened BundleCaches

  const PRIVATE_KEY := "private.key"
  const ARTIFACTS: seq<string> := ["certificate.crt", "chain.crt", "fullchain.crt", PRIVATE_KEY]

  /** A stored version; its row never changes. */
  datatype VersionRow = VersionRow(id: nat, path: string, fingerprint: string)

  datatype Problem = InvalidFiles | Forbidden | NoVersion | StorageError

  datatype Response = Failed(problem: Problem) | NotModified | Bundle(contents: Bytes)

  // ---------------------------------------------------------------------
  // The key
  // ---------------------------------------------------------------------

  function Join(parts: seq<string>): string {
    if parts == [] then "" else if |parts| == 1 then parts[0] else parts[0] + "," + Join(parts[1..])
  }

  const KEY_PREFIX := "bundle-v1:"

  function KeyHead(v: VersionRow): string {
    v.path + ":" + v.fingerprint + ":"
  }

  function Key(v: VersionRow, files: seq<string>): string {
    KEY_PREFIX + (Decimal(v.id) + [':'] + (KeyHead(v) + Join(files)))
  }

  predicate NoCommas(parts: seq<string>) {
    parts != [] && forall p :: p in parts ==> ',' !in p
  }

  lemma CommaSeparates(parts: seq<string>)
    requires NoCommas(parts)
    ensures ',' in Join(parts) <==> |parts| > 1
  {
  }

  lemma {:induction false} JoinIsInjective(a: seq<string>, b: seq<string>)
    requires NoCommas(a) && NoCommas(b) && Join(a) == Join(b)
    ensures a == b
    decreases |a|
  {
    CommaSeparates(a);
    CommaSeparates(b);
    if |a| == 1 {
      assert a == [a[0]] && b == [b[0]];
    } else {
      assert Join(a) == a[0] + [','] + Join(a[1..]);
      assert Join(b) == b[0] + [','] + Join(b[1..]);
      UniqueSplit(a[0], Join(a[1..]), b[0], Join(b[1..]), ',');
      JoinIsInjective(a[1..], b[1..]);
      assert a == [a[0]] + a[1..] && b == [b[0]] + b[1..];
    }
  }

  lemma CommonPrefix(p: string, a: string, b: string)
    requires p + a == p + b
    ensures a == b
  {
    assert a == (p + a)[|p|..] && b == (p + b)[|p|..];
  }

  /** Keys of the same version row differ when the file lists differ, and keys
      of different rows always differ: the row id alone decides. */
  lemma KeyIsInjective(v: VersionRow, files: seq<string>, w: VersionRow, others: seq<string>)
    requires v.id == w.id ==> v == w
    requires NoCommas(files) && NoCommas(others)
    ensures Key(v, files) == Key(w, others) <==> v == w && files == others
  {
    if Key(v, files) == Key(w, others) {
      var u, t := KeyHead(v) + Join(files), KeyHead(w) + Join(others);
      CommonPrefix(KEY_PREFIX, Decimal(v.id) + [':'] + u, Decimal(w.id) + [':'] + t);
      DecimalHasNoColon(v.id);
      DecimalHasNoColon(w.id);
      UniqueSplit(Decimal(v.id), u, Decimal(w.id), t, ':');
      DecimalIsInjective(v.id, w.id);
      CommonPrefix(KeyHead(v), Join(files), Join(others));
      JoinIsInjective(files, others);
    }
  }

  // ---------------------------------------------------------------------
  // The requested files
  // ---------------------------------------------------------------------

  /** Supported, and no file twice. */
  ghost predicate Selectable(files: seq<string>) {
    Distinct(files) && forall f :: f in files ==> f in ARTIFACTS
  }

  /** The sorted files pass when each is supported, allowed and unlike its neighbour. */
  predicate Passes(sorted: seq<string>, i: nat, allows: string -> bool)
    requires i < |sorted|
  {
    sorted[i] in ARTIFACTS && (i > 0 ==> sorted[i - 1] != sorted[i]) && allows(sorted[i])
  }

  lemma AllPassing(files: seq<string>, allows: string -> bool)
    requires forall k :: 0 <= k < |Sort(files)| ==> Passes(Sort(files), k, allows)
    ensures Selectable(files) && forall f :: f in files ==> allows(f)
  {
    forall k | 0 < k < |Sort(files)| ensures Sort(files)[k - 1] != Sort(files)[k] {
      assert Passes(Sort(files), k, allows);
    }
    SortedIsSelectable(files);
    forall f | f in files ensures f in ARTIFACTS && allows(f) {
      SortKeepsMembers(files, f);
      var k :| 0 <= k < |Sort(files)| && Sort(files)[k] == f;
      assert Passes(Sort(files), k, allows);
    }
  }

  lemma NotPassing(files: seq<string>, i: nat, allows: string -> bool)
    requires i < |Sort(files)| && !Passes(Sort(files), i, allows)
    ensures !(Selectable(files) && forall f :: f in files ==> allows(f))
  {
    SortedIsSelectable(files);
    assert Sort(files)[i] in Sort(files);
    SortKeepsMembers(files, Sort(files)[i]);
  }

  /** The checks of a request, on the sorted files, where equal files are neighbours. */
  method CheckFiles(files: seq<string>, allows: string -> bool) returns (r: Result<seq<string>, Problem>)
    ensures r.Ok? <==> Selectable(files) && forall f :: f in files ==> allows(f)
    ensures r.Ok? ==> r.value == Sort(files)
    ensures r.Err? ==> r.error == InvalidFiles || r.error == Forbidden
    ensures r == Err(Forbidden) ==> exists f :: f in files && f in ARTIFACTS && !allows(f)
    ensures r == Err(InvalidFiles) ==> !Selectable(files)
  {
    var sorted := Sort(files);
    var i := 0;
    while i < |sorted|
      invariant 0 <= i <= |sorted|
      invariant forall k :: 0 <= k < i ==> Passes(sorted, k, allows)
    {
      if sorted[i] !in ARTIFACTS || (i > 0 && sorted[i - 1] == sorted[i]) {
        NotPassing(files, i, f => true);
        NotPassing(files, i, allows);
        return Err(InvalidFiles);
      }
      if !allows(sorted[i]) {
        NotPassing(files, i, allows);
        assert sorted[i] in sorted;
        SortKeepsMembers(files, sorted[i]);
        return Err(Forbidden);
      }
      i := i + 1;
    }
    AllPassing(files, allows);
    r := Ok(sorted);
  }

  lemma NeighboursSuffice(s: seq<string>)
    requires Sorted(s) && forall k :: 0 < k < |s| ==> s[k - 1] != s[k]
    ensures Distinct(s)
  {
    forall i, j | 0 <= i < j < |s| ensures s[i] != s[j] {
      if s[i] == s[j] {
        LeqAntisymmetric(s[j - 1], s[j]);
      }
    }
  }

  /** Comparing neighbours of the sorted list finds every duplicate. */
  lemma SortedIsSelectable(files: seq<string>)
    ensures Distinct(files) <==> forall k :: 0 < k < |Sort(files)| ==> Sort(files)[k - 1] != Sort(files)[k]
  {
    SortSorts(files);
    DistinctIsMultiset(files);
    DistinctIsMultiset(Sort(files));
    if forall k :: 0 < k < |Sort(files)| ==> Sort(files)[k - 1] != Sort(files)[k] {
      NeighboursSuffice(Sort(files));
    }
  }

  /** Main result: the order in which a request names its files does not matter. */
  lemma KeyIgnoresFileOrder(v: VersionRow, a: seq<string>, b: seq<string>)
    requires multiset(a) == multiset(b)
    ensures Key(v, Sort(a)) == Key(v, Sort(b))
  {
    SortIgnoresOrder(a, b);
  }

  // ---------------------------------------------------------------------
  // Building and serving bundles
  // ---------------------------------------------------------------------

  datatype TarEntry = TarEntry(name: string, mode: int, contents: Bytes)

  /** Reading an artifact of a version, and the tar format. */
  datatype Storage = Storage(read: (VersionRow, string) -> Result<Bytes, string>, pack: seq<TarEntry> -> Bytes)

  function Mode(file: string): int {
    if file == PRIVATE_KEY then 0x180 else 0x1A4
  }

  /** The archive holds every file once, in order, the private key readable by its owner only. */
  ghost predicate IsArchive(storage: Storage, v: VersionRow, files: seq<string>, entries: seq<TarEntry>) {
    |entries| == |files| &&
    forall i :: 0 <= i < |files| ==>
      entries[i].name == files[i]
      && storage.read(v, files[i]) == Ok(entries[i].contents)
      && (entries[i].mode == 0x180 <==> files[i] == PRIVATE_KEY)
      && (entries[i].mode == 0x1A4 <==> files[i] != PRIVATE_KEY)
  }

  /** The archive entries, or the error of the first file that cannot be read. */
  function ArchiveOf(storage: Storage, v: VersionRow, files: seq<string>): (r: Result<seq<TarEntry>, string>)
    ensures r.Ok? <==> forall f :: f in files ==> storage.read(v, f).Ok?
    ensures r.Ok? ==> IsArchive(storage, v, files, r.value)
  {
    if files == [] then Ok([]) else
      var last := files[|files| - 1];
      assert files == files[..|files| - 1] + [last];
      var before := ArchiveOf(storage, v, files[..|files| - 1]);
      if before.Err? then before
      else
        var contents := storage.read(v, last);
        if contents.Err? then Err(contents.error) else Ok(before.value + [TarEntry(last, Mode(last), contents.value)])
  }

  function BuildOf(storage: Storage, v: VersionRow, files: seq<string>): Built {
    var archive := ArchiveOf(storage, v, files);
    if archive.Err? then Err(archive.error) else Ok(storage.pack(archive.value))
  }

  /** The bundle packs an archive of exactly the files; it fails with the error
      of the first file that cannot be read, and only if there is one. */
  ghost predicate IsBundle(storage: Storage, v: VersionRow, files: seq<string>, r: Built) {
    match r
    case Ok(contents) =>
      exists entries :: IsArchive(storage, v, files, entries) && contents == storage.pack(entries)
    case Err(error) =>
      exists i :: 0 <= i < |files| && storage.read(v, files[i]) == Err(error)
                  && forall j :: 0 <= j < i ==> storage.read(v, files[j]).Ok?
  }

  lemma {:induction false} BuildIsBundle(storage: Storage, v: VersionRow, files: seq<string>)
    ensures IsBundle(storage, v, files, BuildOf(storage, v, files))
    ensures BuildOf(storage, v, files).Ok? <==> forall f :: f in files ==> storage.read(v, f).Ok?
    decreases |files|
  {
    var archive := ArchiveOf(storage, v, files);
    if archive.Ok? {
      assert IsArchive(storage, v, files, archive.value);
    } else {
      var last := |files| - 1;
      var before := ArchiveOf(storage, v, files[..last]);
      if before.Err? {
        BuildIsBundle(storage, v, files[..last]);
        var i :| 0 <= i < last && storage.read(v, files[..last][i]) == Err(before.error)
          && forall j :: 0 <= j < i ==> storage.read(v, files[..last][j]).Ok?;
        assert files[i] == files[..last][i] && forall j :: 0 <= j < i ==> files[j] == files[..last][j];
      } else {
        forall j | 0 <= j < last ensures storage.read(v, files[j]).Ok? {
          assert files[j] == files[..last][j] && files[..last][j] in files[..last];
        }
      }
    }
  }

  method BuildBundle(storage: Storage, v: VersionRow, files: seq<string>) returns (r: Built)
    ensures r == BuildOf(storage, v, files)
    ensures IsBundle(storage, v, files, r) && (r.Ok? <==> forall f :: f in files ==> storage.read(v, f).Ok?)
  {
    BuildIsBundle(storage, v, files);
    var entries := [];
    var i := 0;
    while i < |files|
      invariant 0 <= i <= |files|
      invariant ArchiveOf(storage, v, files[..i]) == Ok(entries)
    {
      assert files[..i + 1][..i] == files[..i];
      var contents := storage.read(v, files[i]);
      if contents.Err? {
        FailureSpreads(storage, v, files, i + 1);
        return Err(contents.error);
      }
      entries := entries + [TarEntry(files[i], Mode(files[i]), contents.value)];
      i := i + 1;
    }
    assert files[..i] == files;
    r := Ok(storage.pack(entries));
  }

  lemma {:induction false} FailureSpreads(storage: Storage, v: VersionRow, files: seq<string>, n: nat)
    requires n <= |files| && ArchiveOf(storage, v, files[..n]).Err?
    ensures ArchiveOf(storage, v, files) == ArchiveOf(storage, v, files[..n])
  {
    if n == |files| {
      assert files[..n] == files;
    } else {
      assert files[..|files| - 1][..n] == files[..n];
      FailureSpreads(storage, v, files[..|files| - 1], n);
    }
  }

  /** The whole download: checks, version, entity tag, cache. `digest` is SHA-256. */
  method Download(cache: BundleCache, storage: Storage, files: seq<string>, allows: string -> bool,
                  version: Option<VersionRow>, ifNoneMatch: string, digest: string -> string)
    returns (r: Response, etag: string)
    requires cache.Valid()
    modifies cache
    ensures cache.Valid()
    ensures r == Failed(InvalidFiles) || r == Failed(Forbidden) <==>
            !(Selectable(files) && forall f :: f in files ==> allows(f))
    ensures r == Failed(InvalidFiles) ==> !Selectable(files)
    ensures r == Failed(Forbidden) ==> exists f :: f in files && f in ARTIFACTS && !allows(f)
    ensures r == Failed(NoVersion) <==>
      Selectable(files) && (forall f :: f in files ==> allows(f)) && version.None?
    ensures r == NotModified <==>
      && Selectable(files) && (forall f :: f in files ==> allows(f))
      && version.Some? && ifNoneMatch == digest(Key(version.value, Sort(files)))
    ensures r == Failed(StorageError) ==>
      && version.Some?
      && BuildOf(storage, version.value, Sort(files)).Err?
      && etag == digest(Key(version.value, Sort(files))) != ifNoneMatch
    ensures r == NotModified ==> version.Some? && ifNoneMatch == etag == digest(Key(version.value, Sort(files)))
    ensures r.Bundle? ==>
      && version.Some?
      && (cache.Abstract(), Ok(r.contents))
         == Lookup(old(cache.Abstract()), Key(version.value, Sort(files)), BuildOf(storage, version.value, Sort(files)))
      && etag == digest(Key(version.value, Sort(files))) != ifNoneMatch
    ensures r.Failed? || r.NotModified? ==> cache.Abstract() == old(cache.Abstract())
    ensures r == Failed(StorageError) ==> exists f :: f in files && storage.read(version.value, f).Err?
    ensures r.Bundle? ==> forall table, requests ::
      files != [] && Stored(table, requests, version) && old(cache.Abstract()) == CacheAfter(storage, requests) ==>
        && IsBundle(storage, version.value, Sort(files), Ok(r.contents))
        && forall f :: f in files ==> storage.read(version.value, f).Ok?
  {
    etag := "";
    var checked := CheckFiles(files, allows);
    if checked.Err? {
      return Failed(checked.error), etag;
    }
    if version.None? {
      return Failed(NoVersion), etag;
    }
    var key := Key(version.value, checked.value);
    etag := digest(key);
    if ifNoneMatch == etag {
      return NotModified, etag;
    }
    ghost var was := cache.Abstract();
    var contents := cache.Get(key, () => BuildOf(storage, version.value, checked.value));
    forall table, requests | files != [] && Stored(table, requests, version) && was == CacheAfter(storage, requests)
      ensures contents == BuildOf(storage, version.value, checked.value)
    {
      SortedHasNoCommas(files);
      DownloadsAreFresh(table, storage, requests, Request(version.value, checked.value));
    }
    FilesOfBundle(storage, version.value, files);
    r := if contents.Err? then Failed(StorageError) else Bundle(contents.value);
  }

  /** Row ids are unique. */
  ghost predicate UniqueIds(table: set<VersionRow>) {
    forall v, w :: v in table && w in table && v.id == w.id ==> v == w
  }

  datatype Request = Request(version: VersionRow, files: seq<string>)

  ghost predicate Valid(table: set<VersionRow>, r: Request) {
    r.version in table && NoCommas(r.files)
  }

  /** The version and those of all requests are rows of one table. */
  ghost predicate Stored(table: set<VersionRow>, requests: seq<Request>, version: Option<VersionRow>) {
    && UniqueIds(table) && (forall q :: q in requests ==> Valid(table, q))
    && version.Some? && version.value in table
  }

  lemma ArtifactHasNoComma(file: string)
    requires file in ARTIFACTS
    ensures ',' !in file
  {
    assert ',' !in "certificate.crt" && ',' !in "chain.crt" && ',' !in "fullchain.crt" && ',' !in PRIVATE_KEY;
  }

  lemma SortedHasNoCommas(files: seq<string>)
    requires files != [] && forall f :: f in files ==> f in ARTIFACTS
    ensures NoCommas(Sort(files))
  {
    assert files[0] in files;
    SortKeepsMembers(files, files[0]);
    forall f | f in Sort(files) ensures ',' !in f {
      SortKeepsMembers(files, f);
      ArtifactHasNoComma(f);
    }
  }

  /** Building the sorted files succeeds exactly if every requested file can be read. */
  lemma FilesOfBundle(storage: Storage, v: VersionRow, files: seq<string>)
    ensures IsBundle(storage, v, Sort(files), BuildOf(storage, v, Sort(files)))
    ensures BuildOf(storage, v, Sort(files)).Ok? <==> forall f :: f in files ==> storage.read(v, f).Ok?
  {
    BuildIsBundle(storage, v, Sort(files));
    forall f ensures f in Sort(files) <==> f in files {
      SortKeepsMembers(files, f);
    }
  }

  /** The bundle a key stands for. */
  ghost function BundleOf(table: set<VersionRow>, storage: Storage, key: string): Built {
    if exists r: Request :: Valid(table, r) && Key(r.version, r.files) == key then
      var r: Request :| Valid(table, r) && Key(r.version, r.files) == key;
      BuildOf(storage, r.version, r.files)
    else Err("")
  }

  lemma BundleOfKey(table: set<VersionRow>, storage: Storage, r: Request)
    requires UniqueIds(table) && Valid(table, r)
    ensures BundleOf(table, storage, Key(r.version, r.files)) == BuildOf(storage, r.version, r.files)
  {
    var key := Key(r.version, r.files);
    forall q: Request | Valid(table, q) && Key(q.version, q.files) == key ensures q == r {
      KeyIsInjective(r.version, r.files, q.version, q.files);
    }
  }

  /** The cache after the given requests, each building its own bundle when it misses. */
  function CacheAfter(storage: Storage, requests: seq<Request>): Cache {
    if requests == [] then EMPTY else
      var r := requests[|requests| - 1];
      var cache := CacheAfter(storage, requests[..|requests| - 1]);
      Lookup(cache, Key(r.version, r.files), BuildOf(storage, r.version, r.files)).0
  }

  ghost function KeysOf(requests: seq<Request>): seq<string> {
    seq(|requests|, i requires 0 <= i < |requests| => Key(requests[i].version, requests[i].files))
  }

  lemma {:induction false} CacheAfterIsServed(
    table: set<VersionRow>, storage: Storage, requests: seq<Request>, build: Builder)
    requires UniqueIds(table) && forall r :: r in requests ==> Valid(table, r)
    requires forall key :: build(key) == BundleOf(table, storage, key)
    ensures CacheAfter(storage, requests) == Serve(EMPTY, build, KeysOf(requests))
  {
    if requests != [] {
      var last := |requests| - 1;
      assert KeysOf(requests)[..last] == KeysOf(requests[..last]);
      CacheAfterIsServed(table, storage, requests[..last], build);
      BundleOfKey(table, storage, requests[last]);
    }
  }

  /** Main result: whatever was downloaded before, a download gets the bundle
      of its own version and files, as if it had been built for it. */
  lemma DownloadsAreFresh(table: set<VersionRow>, storage: Storage, requests: seq<Request>, r: Request)
    requires UniqueIds(table) && Valid(table, r) && forall q :: q in requests ==> Valid(table, q)
    ensures var built := BuildOf(storage, r.version, r.files);
      Lookup(CacheAfter(storage, requests), Key(r.version, r.files), built).1 == built
  {
    var build: Builder := key => BundleOf(table, storage, key);
    CacheAfterIsServed(table, storage, requests, build);
    BundleOfKey(table, storage, r);
    CacheIsTransparent(build, KeysOf(requests), Key(r.version, r.files));
  }
}
