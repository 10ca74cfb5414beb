/** The two files that cross the gap: writing and reading requests, building and importing responses. */
module Transfer {
  import opened Prelude
  import opened Strings
  import opened Crypto
  import opened Manifests
  import opened Resolver
  import opened Fetching
  import opened ManifestCaches
  import opened OnlineFetch
  import opened Stores

  /** An extracted response: blob files by name, the error list, manifest files by path. */
  datatype Tar = Tar(blobs: map<string, Bytes>, errors: Option<seq<FetchError>>, manifests: map<Path, Body>)

  /** JSON and tar serialisation. */
  datatype Codec = Codec(
    dumpRequest: Request -> Bytes, loadRequest: Bytes -> Option<Request>,
    packTar: Tar -> Bytes, unpackTar: Bytes -> Option<Tar>)

  /** Reading back what was written gives it back. */
  ghost predicate GoodCodec(c: Codec) {
    && (forall r :: c.loadRequest(c.dumpRequest(r)) == Some(r))
    && (forall t :: c.unpackTar(c.packTar(t)) == Some(t))
  }

  datatype TransferError = CannotOpen(cause: OpenError) | BadJson | BadArchive

  datatype ImportResult = ImportResult(imported: nat, skipped: nat, errors: seq<FetchError>)

  /** Everything shared by the two sides. */
  datatype Link = Link(keys: Keys, primitives: Primitives, codec: Codec)

  ghost predicate GoodLink(l: Link) {
    GoodPrimitives(l.primitives) && GoodCodec(l.codec)
  }

  // --- requests ---

  function WriteRequest(r: Request, nonce: Bytes, l: Link): Bytes {
    Wrap(l.codec.dumpRequest(r), nonce, l.keys, l.primitives)
  }

  function ProcessRequest(data: Bytes, l: Link): Result<Request, TransferError> {
    var payload := Unwrap(data, l.keys, l.primitives);
    if payload.Err? then Err(CannotOpen(payload.error))
    else
      var r := l.codec.loadRequest(payload.value);
      if r.None? then Err(BadJson) else Ok(r.value)
  }

  /** The online side reads exactly the request that the offline side wrote. */
  lemma RequestArrives(r: Request, nonce: Bytes, l: Link)
    requires GoodLink(l)
    ensures ProcessRequest(WriteRequest(r, nonce, l), l) == Ok(r)
  {
    WrapUnwraps(l.codec.dumpRequest(r), nonce, l.keys, l.primitives);
  }

  // --- responses ---

  const NOT_IN_CACHE := "Blob not in cache"

  /** The blobs that go into the archive, and the errors for those that are not cached. */
  function PackBlobs(blobs: seq<MissingBlob>, cached: map<string, Bytes>): map<string, Bytes> {
    if blobs == [] then map[]
    else
      var before := PackBlobs(blobs[..|blobs| - 1], cached);
      var hex := Bare(blobs[|blobs| - 1].digest);
      if hex in cached then before[hex := cached[hex]] else before
  }

  function PackErrors(blobs: seq<MissingBlob>, cached: map<string, Bytes>): seq<FetchError> {
    if blobs == [] then []
    else
      var before := PackErrors(blobs[..|blobs| - 1], cached);
      var digest := blobs[|blobs| - 1].digest;
      if Bare(digest) in cached then before else before + [FetchError(digest, NOT_IN_CACHE)]
  }

  /** Where a shipped manifest lies after extraction. */
  function ExtractedPath(s: Shipped): Path {
    Components(ShippedName(s.registry, s.repository, s.tag, s.platformFile))
  }

  /** Of two members with the same path the later one is extracted last. */
  function PackManifests(shipped: seq<Shipped>): map<Path, Body> {
    if shipped == [] then map[]
    else
      var s := shipped[|shipped| - 1];
      PackManifests(shipped[..|shipped| - 1])[ExtractedPath(s) := s.body]
  }

  function TarOf(f: Fetch, cached: map<string, Bytes>): Tar {
    var errors := f.errors + PackErrors(f.blobs, cached);
    Tar(PackBlobs(f.blobs, cached), if errors == [] then None else Some(errors), PackManifests(f.shipped))
  }

  lemma {:induction false} PackedBlobs(blobs: seq<MissingBlob>, cached: map<string, Bytes>)
    ensures forall k :: k in PackBlobs(blobs, cached) <==> k in cached && exists b :: b in blobs && Bare(b.digest) == k
    ensures forall k :: k in PackBlobs(blobs, cached) ==> PackBlobs(blobs, cached)[k] == cached[k]
    ensures forall b :: b in blobs && Bare(b.digest) !in cached ==>
              FetchError(b.digest, NOT_IN_CACHE) in PackErrors(blobs, cached)
  {
    if blobs != [] {
      var n := |blobs| - 1;
      PackedBlobs(blobs[..n], cached);
      assert blobs == blobs[..n] + [blobs[n]];
    }
  }

  lemma {:induction false} PackedManifests(shipped: seq<Shipped>)
    ensures forall q :: q in PackManifests(shipped) ==>
              exists s :: s in shipped && ExtractedPath(s) == q && s.body == PackManifests(shipped)[q]
    ensures forall s :: s in shipped ==> ExtractedPath(s) in PackManifests(shipped)
  {
    hide ExtractedPath;
    if shipped != [] {
      var n := |shipped| - 1;
      PackedManifests(shipped[..n]);
      assert shipped == shipped[..n] + [shipped[n]];
    }
  }

  /** Appends the blobs to the archive, notes the uncached ones, adds errors and manifests, wraps it all. */
  method BuildResponse(cache: Cache, f: Fetch, nonce: Bytes, l: Link) returns (data: Bytes)
    ensures data == Wrap(l.codec.packTar(TarOf(f, cache.blobs)), nonce, l.keys, l.primitives)
  {
    hide ExtractedPath;
    var blobs: map<string, Bytes>, errors := map[], f.errors;
    for k := 0 to |f.blobs|
      invariant blobs == PackBlobs(f.blobs[..k], cache.blobs)
      invariant errors == f.errors + PackErrors(f.blobs[..k], cache.blobs)
    {
      assert f.blobs[..k + 1][..k] == f.blobs[..k];
      var digest := f.blobs[k].digest;
      if Bare(digest) in cache.blobs {
        blobs := blobs[Bare(digest) := cache.blobs[Bare(digest)]];
      } else {
        errors := errors + [FetchError(digest, NOT_IN_CACHE)];
      }
    }
    assert f.blobs[..|f.blobs|] == f.blobs;
    var manifests: map<Path, Body> := map[];
    for k := 0 to |f.shipped|
      invariant manifests == PackManifests(f.shipped[..k])
    {
      assert f.shipped[..k + 1][..k] == f.shipped[..k];
      manifests := manifests[ExtractedPath(f.shipped[k]) := f.shipped[k].body];
    }
    assert f.shipped[..|f.shipped|] == f.shipped;
    var tar := Tar(blobs, if errors == [] then None else Some(errors), manifests);
    return Wrap(l.codec.packTar(tar), nonce, l.keys, l.primitives);
  }

  /** The errors a response brings. */
  function ErrorsOf(tar: Tar): seq<FetchError> {
    if tar.errors.Some? then tar.errors.value else []
  }

  /** No error is added exactly when every listed blob is cached. */
  lemma {:induction false} PackErrorsIff(blobs: seq<MissingBlob>, cached: map<string, Bytes>)
    ensures PackErrors(blobs, cached) == [] <==> forall b :: b in blobs ==> Bare(b.digest) in cached
  {
    if blobs != [] {
      var n := |blobs| - 1;
      PackErrorsIff(blobs[..n], cached);
      assert blobs == blobs[..n] + [blobs[n]];
    }
  }

  // --- import ---

  const SHA_MISMATCH := "SHA256 mismatch"
  const STORE_FAILED := "store failed"
  const MEDIA_TYPE := "application/octet-stream"

  /** The blob files that import accepts: right hash, and no storage failure. */
  ghost function Accepted(blobs: map<string, Bytes>, sha: Bytes -> string, failing: set<string>): set<string> {
    set k | k in blobs && sha(blobs[k]) == k && k !in failing
  }

  /** What has been imported, and what reported, when `todo` is still to be visited. */
  ghost predicate ImportedSoFar(
      blobs: map<string, Bytes>, sha: Bytes -> string, failing: set<string>, todo: set<string>,
      before: State, s: State, first: seq<FetchError>, r: ImportResult)
  {
    && todo <= blobs.Keys
    && StoredSoFar(Accepted(blobs, sha, failing) - todo, sha, before, s)
    && CountedSoFar(blobs, sha, blobs.Keys - todo, Accepted(blobs, sha, failing) - todo, first, r)
  }

  /** Exactly the names `done` were added, with matching content; nothing that was there changed; the store's
      invariants survive. */
  ghost predicate StoredSoFar(done: set<string>, sha: Bytes -> string, before: State, s: State) {
    && s.report == before.report
    && s.blobs.Keys == before.blobs.Keys + done
    && Extends(before.blobs, s.blobs)
    && (forall k :: k in s.blobs && k !in before.blobs ==> sha(s.blobs[k]) == k)
    && (WellFormed(before, sha) ==> WellFormed(s, sha)) && (Tidy(before) ==> Tidy(s))
  }

  /** Why a blob file is not imported. */
  function Why(blobs: map<string, Bytes>, sha: Bytes -> string, k: string): string
    requires k in blobs
  {
    if sha(blobs[k]) != k then SHA_MISMATCH else STORE_FAILED
  }

  function Rejections(blobs: map<string, Bytes>, sha: Bytes -> string, names: set<string>): set<FetchError> {
    set k | k in names && k in blobs :: FetchError(Named(k), Why(blobs, sha, k))
  }

  /** The counters add up; the error list is the shipped one and then exactly one error, with its cause, for every
      visited file that was not imported. */
  ghost predicate CountedSoFar(
      blobs: map<string, Bytes>, sha: Bytes -> string, visited: set<string>, done: set<string>, first: seq<FetchError>,
      r: ImportResult)
  {
    && done <= visited <= blobs.Keys && r.imported == |done| && r.imported + r.skipped == |visited|
    && first <= r.errors && |r.errors| == |first| + r.skipped
    && ToSet(r.errors[|first|..]) == Rejections(blobs, sha, visited - done)
  }

  lemma RejectedIsNamed(
      blobs: map<string, Bytes>, sha: Bytes -> string, visited: set<string>, done: set<string>, first: seq<FetchError>,
      r: ImportResult, k: string)
    requires CountedSoFar(blobs, sha, visited, done, first, r) && k in visited && k !in done
    ensures exists e :: e in r.errors && e.digest == Named(k)
  {
    hide Named;
    var e := FetchError(Named(k), Why(blobs, sha, k));
    assert e in ToSet(r.errors[|first|..]);
    assert e in r.errors;
  }

  lemma ImportStarts(
      blobs: map<string, Bytes>, sha: Bytes -> string, failing: set<string>, before: State, first: seq<FetchError>)
    ensures ImportedSoFar(blobs, sha, failing, blobs.Keys, before, before, first, ImportResult(0, 0, first))
  {
    assert Accepted(blobs, sha, failing) - blobs.Keys == {};
    assert blobs.Keys - blobs.Keys == {};
  }

  lemma ImportKeeps(s: State, sha: Bytes -> string, data: Bytes, digest: string, now: int)
    requires GoodHash(sha)
    ensures var after := Import(s, sha, data, digest, MEDIA_TYPE, "", now).0;
            (Tidy(s) ==> Tidy(after)) && (WellFormed(s, sha) ==> WellFormed(after, sha))
  {
    hide Import, Tidy, WellFormed;
    var e := Importing(data, digest, MEDIA_TYPE, "", now);
    assert Apply(s, sha, e) == Import(s, sha, data, digest, MEDIA_TYPE, "", now).0;
    if Tidy(s) { StepKeepsTidy(s, sha, e); }
    if WellFormed(s, sha) { StepKeepsWellFormed(s, sha, e); }
  }

  lemma StoreOneMore(done: set<string>, sha: Bytes -> string, before: State, s: State, data: Bytes, hex: string, now: int)
    requires StoredSoFar(done, sha, before, s) && GoodHash(sha) && sha(data) == hex
    ensures var after := Import(s, sha, data, Named(hex), MEDIA_TYPE, "", now);
            after.1.None? && StoredSoFar(done + {hex}, sha, before, after.0)
  {
    ImportKeeps(s, sha, data, Named(hex), now);
    HexIsBare(hex);
    hide Tidy, WellFormed, WithSidecar, GoodHash, Named, Bare;
  }

  lemma CountAccepted(
      blobs: map<string, Bytes>, sha: Bytes -> string, visited: set<string>, done: set<string>, first: seq<FetchError>,
      r: ImportResult, k: string)
    requires CountedSoFar(blobs, sha, visited, done, first, r) && k !in visited && k in blobs
    ensures CountedSoFar(blobs, sha, visited + {k}, done + {k}, first, r.(imported := r.imported + 1))
  {
    hide Rejections, ToSet;
    StillRejected(visited, done, k);
    assert r.(imported := r.imported + 1).errors == r.errors;
  }

  lemma StillRejected(visited: set<string>, done: set<string>, k: string)
    requires k !in visited && done <= visited
    ensures visited + {k} - (done + {k}) == visited - done
    ensures |visited + {k}| == |visited| + 1 && |done + {k}| == |done| + 1 && done + {k} <= visited + {k}
  {
  }

  lemma OneMoreRejection(blobs: map<string, Bytes>, sha: Bytes -> string, names: set<string>, k: string)
    requires k in blobs
    ensures Rejections(blobs, sha, names + {k}) == Rejections(blobs, sha, names) + {FetchError(Named(k), Why(blobs, sha, k))}
  {
    hide Named, Why;
  }

  lemma CountRejected(
      blobs: map<string, Bytes>, sha: Bytes -> string, visited: set<string>, done: set<string>, first: seq<FetchError>,
      r: ImportResult, k: string)
    requires CountedSoFar(blobs, sha, visited, done, first, r) && k !in visited && k in blobs
    ensures CountedSoFar(blobs, sha, visited + {k}, done, first,
                         ImportResult(r.imported, r.skipped + 1, r.errors + [FetchError(Named(k), Why(blobs, sha, k))]))
  {
    hide Named, Why, Rejections, ToSet;
    var e := FetchError(Named(k), Why(blobs, sha, k));
    assert visited + {k} - done == visited - done + {k};
    OneMoreRejection(blobs, sha, visited - done, k);
    OneMoreError(first, r.errors, e);
  }

  lemma OneMoreError(first: seq<FetchError>, errors: seq<FetchError>, e: FetchError)
    requires first <= errors
    ensures first <= errors + [e] && |errors + [e]| == |errors| + 1
    ensures ToSet((errors + [e])[|first|..]) == ToSet(errors[|first|..]) + {e}
  {
    assert (errors + [e])[|first|..] == errors[|first|..] + [e];
    ToSetAppend(errors[|first|..], [e]);
  }

  lemma ImportGoesOn(
      blobs: map<string, Bytes>, sha: Bytes -> string, failing: set<string>, todo: set<string>,
      before: State, s: State, first: seq<FetchError>, r: ImportResult, k: string, now: int)
    requires ImportedSoFar(blobs, sha, failing, todo, before, s, first, r) && GoodHash(sha) && k in todo
    ensures k in blobs
    ensures k in Accepted(blobs, sha, failing) ==>
              var after := Import(s, sha, blobs[k], Named(k), MEDIA_TYPE, "", now);
              after.1.None? &&
              ImportedSoFar(blobs, sha, failing, todo - {k}, before, after.0, first, r.(imported := r.imported + 1))
    ensures k !in Accepted(blobs, sha, failing) ==>
              ImportedSoFar(blobs, sha, failing, todo - {k}, before, s, first,
                            ImportResult(r.imported, r.skipped + 1, r.errors + [FetchError(Named(k), Why(blobs, sha, k))]))
  {
    hide Import, Why, StoredSoFar, CountedSoFar;
    var accepted := Accepted(blobs, sha, failing);
    assert blobs.Keys - (todo - {k}) == blobs.Keys - todo + {k};
    if k in accepted {
      assert accepted - (todo - {k}) == accepted - todo + {k};
      CountAccepted(blobs, sha, blobs.Keys - todo, accepted - todo, first, r, k);
      StoreOneMore(accepted - todo, sha, before, s, blobs[k], k, now);
    } else {
      CountRejected(blobs, sha, blobs.Keys - todo, accepted - todo, first, r, k);
      assert accepted - (todo - {k}) == accepted - todo;
    }
  }

  /** Blob by blob, in any order: verify the hash, import, or note an error. */
  method ImportBlobs(
      blobs: map<string, Bytes>, store: Store, failing: set<string>, first: seq<FetchError>, now: int)
    returns (r: ImportResult)
    requires GoodHash(store.sha)
    modifies store
    ensures ImportedSoFar(blobs, store.sha, failing, {}, old(store.Current()), store.Current(), first, r)
  {
    hide ImportedSoFar, Import;
    r := ImportResult(0, 0, first);
    ghost var before := store.Current();
    var todo := blobs.Keys;
    ImportStarts(blobs, store.sha, failing, before, first);
    while todo != {}
      invariant todo <= blobs.Keys
      invariant ImportedSoFar(blobs, store.sha, failing, todo, before, store.Current(), first, r)
      decreases todo
    {
      var k :| k in todo;
      ImportGoesOn(blobs, store.sha, failing, todo, before, store.Current(), first, r, k, now);
      if store.sha(blobs[k]) != k {
        r := ImportResult(r.imported, r.skipped + 1, r.errors + [FetchError(Named(k), SHA_MISMATCH)]);
      } else if k in failing {
        r := ImportResult(r.imported, r.skipped + 1, r.errors + [FetchError(Named(k), STORE_FAILED)]);
      } else {
        var error := store.ImportBlob(blobs[k], Named(k), MEDIA_TYPE, "", now);
        r := r.(imported := r.imported + 1);
      }
      todo := todo - {k};
    }
  }

  /** An import adds no error exactly when every file of the archive has the right hash and can be stored. */
  lemma NoRejectionIff(
      blobs: map<string, Bytes>, sha: Bytes -> string, failing: set<string>, before: State, s: State,
      first: seq<FetchError>, r: ImportResult)
    requires ImportedSoFar(blobs, sha, failing, {}, before, s, first, r)
    ensures r.errors == [] <==> first == [] && forall k :: k in blobs ==> sha(blobs[k]) == k && k !in failing
  {
    hide StoredSoFar, Rejections;
    var accepted := Accepted(blobs, sha, failing);
    assert accepted - {} == accepted && blobs.Keys - {} == blobs.Keys;
    if r.skipped == 0 {
      SameSize(accepted, blobs.Keys);
    } else {
      assert accepted != blobs.Keys;
    }
  }

  lemma SameSize(a: set<string>, b: set<string>)
    requires a <= b && |a| == |b|
    ensures a == b
  {
    assert |b - a| == 0;
  }

  // --- manifests of a response ---

  /** Every file is as before and no member aims at it, or it is one of the members aiming at it; and every
      member with a usable path has landed. */
  ghost predicate CachedFrom(
      before: map<Path, Cached>, manifests: map<Path, Body>, todo: set<Path>, after: map<Path, Cached>)
  {
    && (forall p :: p in after ==>
         (p in before && after[p] == before[p]) || LandedAt(manifests, todo, p, after[p].body))
    && (forall p :: p in before ==> p in after)
    && forall q :: q in manifests && q !in todo && TargetPath(q).Some? ==>
         TargetPath(q).value in after && LandedAt(manifests, todo, TargetPath(q).value, after[TargetPath(q).value].body)
  }

  ghost predicate LandedAt(manifests: map<Path, Body>, todo: set<Path>, p: Path, body: Body) {
    exists q :: q in manifests && q !in todo && TargetPath(q) == Some(p) && manifests[q] == body
  }

  lemma CachingStarts(before: map<Path, Cached>, manifests: map<Path, Body>)
    ensures CachedFrom(before, manifests, manifests.Keys, before)
  {
  }

  lemma LandedLater(manifests: map<Path, Body>, todo: set<Path>, p: Path, body: Body, q: Path)
    requires LandedAt(manifests, todo, p, body)
    ensures LandedAt(manifests, todo - {q}, p, body)
  {
  }

  lemma CachingGoesOn(
      before: map<Path, Cached>, manifests: map<Path, Body>, todo: set<Path>, files: map<Path, Cached>, q: Path,
      after: map<Path, Cached>)
    requires CachedFrom(before, manifests, todo, files) && q in todo && q in manifests
    requires if TargetPath(q).None? then after == files
             else after.Keys == files.Keys + {TargetPath(q).value} && after[TargetPath(q).value].body == manifests[q] &&
                  forall p :: p in files && p != TargetPath(q).value ==> after[p] == files[p]
    ensures CachedFrom(before, manifests, todo - {q}, after)
  {
    hide TargetPath;
    if TargetPath(q).Some? {
      assert LandedAt(manifests, todo - {q}, TargetPath(q).value, manifests[q]);
    }
    forall p | p in after
      ensures (p in before && after[p] == before[p]) || LandedAt(manifests, todo - {q}, p, after[p].body)
    {
      if TargetPath(q) != Some(p) && LandedAt(manifests, todo, p, after[p].body) {
        LandedLater(manifests, todo, p, after[p].body, q);
      }
    }
    forall x | x in manifests && x !in todo - {q} && TargetPath(x).Some?
      ensures TargetPath(x).value in after &&
              LandedAt(manifests, todo - {q}, TargetPath(x).value, after[TargetPath(x).value].body)
    {
      var p := TargetPath(x).value;
      if p != (if TargetPath(q).Some? then TargetPath(q).value else []) || TargetPath(q).None? {
        LandedLater(manifests, todo, p, after[p].body, q);
      }
    }
  }

  /** The manifest files of a response, in any order, through the cache's own writer. */
  method CacheManifestsFromResponse(manifests: map<Path, Body>, cache: ManifestCache, now: int)
    requires cache.Valid()
    modifies cache
    ensures cache.Valid() && CachedFrom(old(cache.files), manifests, {}, cache.files)
  {
    hide CachedFrom, CachePath, ManifestCaches.Labelled;
    var todo := manifests.Keys;
    ghost var before := cache.files;
    CachingStarts(before, manifests);
    while todo != {}
      invariant todo <= manifests.Keys && cache.Valid()
      invariant CachedFrom(before, manifests, todo, cache.files)
      decreases todo
    {
      var parts :| parts in todo;
      ghost var files := cache.files;
      if |parts| >= 4 {
        var n := |parts|;
        var platform := ReplaceChar(RemoveAll(parts[n - 1], JSON), '-', '/');
        cache.CacheManifest(parts[0], JoinPath(parts[1..n - 2]), parts[n - 2], platform, manifests[parts], now);
      }
      CachingGoesOn(before, manifests, todo, files, parts, cache.files);
      todo := todo - {parts};
    }
  }

  /** The whole import. On any error nothing has changed. */
  method ImportResponse(data: Bytes, l: Link, store: Store, cache: ManifestCache, failing: set<string>, now: int)
    returns (r: Result<ImportResult, TransferError>)
    requires GoodHash(store.sha) && cache.Valid()
    modifies store, cache
    ensures cache.Valid()
    ensures var payload := Unwrap(data, l.keys, l.primitives);
            match r
            case Err(e) =>
              store.Current() == old(store.Current()) && cache.files == old(cache.files) &&
              (if payload.Err? then e == CannotOpen(payload.error)
               else e == BadArchive && l.codec.unpackTar(payload.value).None?)
            case Ok(result) =>
              payload.Ok? && l.codec.unpackTar(payload.value).Some? &&
              var tar := l.codec.unpackTar(payload.value).value;
              ImportedSoFar(tar.blobs, store.sha, failing, {}, old(store.Current()), store.Current(),
                            ErrorsOf(tar), result) &&
              CachedFrom(old(cache.files), tar.manifests, {}, cache.files)
  {
    hide ImportedSoFar, CachedFrom, Unwrap, ManifestCaches.Labelled;
    var payload := Unwrap(data, l.keys, l.primitives);
    if payload.Err? {
      return Err(CannotOpen(payload.error));
    }
    var tar := l.codec.unpackTar(payload.value);
    if tar.None? {
      return Err(BadArchive);
    }
    var result := ImportBlobs(tar.value.blobs, store, failing, ErrorsOf(tar.value), now);
    CacheManifestsFromResponse(tar.value.manifests, cache, now);
    return Ok(result);
  }
}
