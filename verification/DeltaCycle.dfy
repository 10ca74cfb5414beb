/** One whole turn of the delta-sync cycle, and what it guarantees. */
module DeltaCycle {
  import opened Prelude
  import opened Crypto
  import opened Manifests
  import opened ImageRefs
  import opened Dockerfile
  import opened Resolver
  import opened Analysis
  import opened Stores
  import opened Fetching
  import opened ManifestCaches
  import opened OnlineFetch
  import opened Transfer
  import Requests
  import opened Strings

  /** A digest has arrived: its blob is in the store under content that hashes to it, or an error names it. */
  ghost predicate Covered(digest: string, blobs: map<string, Bytes>, sha: Bytes -> string, errors: seq<FetchError>) {
    (Bare(digest) in blobs && sha(blobs[Bare(digest)]) == Bare(digest)) || NamedBy(digest, errors)
  }

  ghost predicate NamedBy(digest: string, errors: seq<FetchError>) {
    exists e :: e in errors && Bare(e.digest) == Bare(digest)
  }

  /** A blob file of that name is there, with other content. */
  predicate Damaged(digest: string, blobs: map<string, Bytes>, sha: Bytes -> string) {
    Bare(digest) in blobs && sha(blobs[Bare(digest)]) != Bare(digest)
  }

  /** Coverage fails only for a digest whose file was damaged before, since a present file is never rewritten. */
  ghost predicate Settled(
      digest: string, before: map<string, Bytes>, blobs: map<string, Bytes>, sha: Bytes -> string, errors: seq<FetchError>)
  {
    Covered(digest, blobs, sha, errors) <==> !Damaged(digest, before, sha) || NamedBy(digest, errors)
  }

  ghost predicate ListCovered(
      requested: seq<MissingBlob>, before: map<string, Bytes>, blobs: map<string, Bytes>, sha: Bytes -> string,
      errors: seq<FetchError>)
  {
    forall b :: b in requested ==> Settled(b.digest, before, blobs, sha, errors)
  }

  /** Every config and layer digest of a shipped manifest that is not the empty string. */
  ghost predicate ManifestsCovered(
      shipped: seq<Shipped>, before: map<string, Bytes>, blobs: map<string, Bytes>, sha: Bytes -> string,
      errors: seq<FetchError>)
  {
    forall s, d :: s in shipped && d in NeededDigests(s.body) && d != "" ==> Settled(d, before, blobs, sha, errors)
  }

  // --- coverage ---

  /** What leaves the online side: each blob of the list with matching bytes, or an error naming its digest. */
  lemma ResponseCarries(f: Fetch, cached: map<string, Bytes>, sha: Bytes -> string, b: MissingBlob)
    requires Addressed(sha, cached) && b in f.blobs
    ensures var tar := TarOf(f, cached); var hex := Bare(b.digest);
            (hex in tar.blobs && sha(tar.blobs[hex]) == hex) || exists e :: e in ErrorsOf(tar) && e.digest == b.digest
  {
    PackedBlobs(f.blobs, cached);
    var errors := f.errors + PackErrors(f.blobs, cached);
    if Bare(b.digest) !in cached {
      var e := FetchError(b.digest, NOT_IN_CACHE);
      assert e in PackErrors(f.blobs, cached);
      assert e in errors;
    }
  }

  /** An archive file settles its digest: it is stored with its content unless another content is there already, or
      rejected by name. */
  lemma FileSettles(
      tar: Tar, sha: Bytes -> string, failing: set<string>, before: State, s: State, r: ImportResult, digest: string)
    requires ImportedSoFar(tar.blobs, sha, failing, {}, before, s, ErrorsOf(tar), r)
    requires Bare(digest) in tar.blobs && sha(tar.blobs[Bare(digest)]) == Bare(digest)
    ensures Settled(digest, before.blobs, s.blobs, sha, r.errors)
  {
    var hex := Bare(digest);
    var done := Accepted(tar.blobs, sha, failing) - {};
    if hex in done {
      AcceptedIsStored(done, sha, before, s, hex);
      hide ImportedSoFar, Accepted, Bare;
    } else {
      RejectedIsNamed(tar.blobs, sha, tar.blobs.Keys - {}, done, ErrorsOf(tar), r, hex);
      hide ImportedSoFar, Accepted, ErrorsOf;
      var e :| e in r.errors && e.digest == Named(hex);
      assert Bare(e.digest) == hex;
      NamedSettles(digest, before.blobs, s.blobs, sha, r.errors, e);
    }
  }

  lemma AcceptedIsStored(done: set<string>, sha: Bytes -> string, before: State, s: State, hex: string)
    requires StoredSoFar(done, sha, before, s) && hex in done
    ensures hex in s.blobs
    ensures if hex in before.blobs then s.blobs[hex] == before.blobs[hex] else sha(s.blobs[hex]) == hex
  {
  }

  lemma NamedSettles(
      digest: string, before: map<string, Bytes>, blobs: map<string, Bytes>, sha: Bytes -> string, errors: seq<FetchError>,
      e: FetchError)
    requires e in errors && Bare(e.digest) == Bare(digest)
    ensures Settled(digest, before, blobs, sha, errors)
  {
    hide Bare;
  }

  /** Import turns what the response carries into coverage, whatever state the store is in. */
  lemma ImportSettles(
      tar: Tar, sha: Bytes -> string, failing: set<string>, before: State, s: State, r: ImportResult, digest: string)
    requires ImportedSoFar(tar.blobs, sha, failing, {}, before, s, ErrorsOf(tar), r)
    requires var hex := Bare(digest);
             (hex in tar.blobs && sha(tar.blobs[hex]) == hex) || exists e :: e in ErrorsOf(tar) && e.digest == digest
    ensures Settled(digest, before.blobs, s.blobs, sha, r.errors)
  {
    var hex := Bare(digest);
    if hex in tar.blobs && sha(tar.blobs[hex]) == hex {
      FileSettles(tar, sha, failing, before, s, r, digest);
    } else {
      hide Bare, Settled, StoredSoFar, Rejections, ErrorsOf, Accepted;
      var e :| e in ErrorsOf(tar) && e.digest == digest;
      assert e in r.errors;
      NamedSettles(digest, before.blobs, s.blobs, sha, r.errors, e);
    }
  }

  lemma CycleCovers(
      f: Fetch, cached: map<string, Bytes>, sha: Bytes -> string, failing: set<string>, before: State, s: State,
      r: ImportResult)
    requires Addressed(sha, cached)
    requires ImportedSoFar(TarOf(f, cached).blobs, sha, failing, {}, before, s, ErrorsOf(TarOf(f, cached)), r)
    ensures ListCovered(f.blobs, before.blobs, s.blobs, sha, r.errors)
  {
    hide ImportedSoFar, TarOf, Settled, Addressed, ErrorsOf;
    forall b | b in f.blobs ensures Settled(b.digest, before.blobs, s.blobs, sha, r.errors) {
      ResponseCarries(f, cached, sha, b);
      ImportSettles(TarOf(f, cached), sha, failing, before, s, r, b.digest);
    }
  }

  lemma ManifestsAreCovered(
      f: Fetch, before: map<string, Bytes>, blobs: map<string, Bytes>, sha: Bytes -> string, errors: seq<FetchError>)
    requires ListCovered(f.blobs, before, blobs, sha, errors)
    requires forall s :: s in f.shipped ==> Knows(s.body, ToSet(DigestList(f.blobs)))
    ensures ManifestsCovered(f.shipped, before, blobs, sha, errors)
  {
    hide Settled, NeededDigests;
    forall s, d | s in f.shipped && d in NeededDigests(s.body) && d != "" ensures Settled(d, before, blobs, sha, errors) {
      assert Knows(s.body, ToSet(DigestList(f.blobs)));
      assert d in ToSet(DigestList(f.blobs));
      var k :| 0 <= k < |DigestList(f.blobs)| && DigestList(f.blobs)[k] == d;
      assert f.blobs[k] in f.blobs;
    }
  }

  // --- exactly when there are no errors ---

  /** Every download of both passes brings its blob, every listed digest is a file of the cache, and the store can
      keep all of them. */
  ghost predicate Flawless(
      request: Request, have: set<string>, sha: Bytes -> string, net: Network, failing: set<string>)
  {
    && OnlineFetches(request, have, sha, net)
    && forall b :: b in request.blobs + ExtraFor(request, net) ==>
         Bare(b.digest) in HaveAtEnd(request, have, sha, net) && Bare(b.digest) !in failing
  }

  /** A response brings no errors and every file of it is accepted exactly when the fetch had no errors, every listed
      blob is cached, and none of them fails to be stored. */
  lemma CleanResponseIff(f: Fetch, cached: map<string, Bytes>, sha: Bytes -> string, failing: set<string>)
    requires Addressed(sha, cached)
    ensures var tar := TarOf(f, cached);
            (ErrorsOf(tar) == [] && forall k :: k in tar.blobs ==> sha(tar.blobs[k]) == k && k !in failing) <==>
            f.errors == [] && forall b :: b in f.blobs ==> Bare(b.digest) in cached && Bare(b.digest) !in failing
  {
    PackErrorsIff(f.blobs, cached);
    PackedBlobs(f.blobs, cached);
    hide PackErrors, PackBlobs, PackManifests, Bare;
    if forall b :: b in f.blobs ==> Bare(b.digest) in cached {
      ArchiveIsTheList(f.blobs, cached, failing);
    }
  }

  /** The import of a response has no errors exactly when the run before it was flawless. */
  lemma NoErrorsIff(
      f: Fetch, request: Request, have: set<string>, cached: map<string, Bytes>, sha: Bytes -> string, net: Network,
      failing: set<string>, before: State, s: State, r: ImportResult)
    requires IsFetchFor(f, request, have, sha, net) && !OnlineCrashes(request, have, sha, net)
    requires cached.Keys == HaveAtEnd(request, have, sha, net) && Addressed(sha, cached)
    requires ImportedSoFar(TarOf(f, cached).blobs, sha, failing, {}, before, s, ErrorsOf(TarOf(f, cached)), r)
    ensures r.errors == [] <==> Flawless(request, have, sha, net, failing)
  {
    hide OnlineFetches, OnlineCrashes, OnlineErrors, HaveAtEnd, ExtraFor, ImportedSoFar, TarOf, ErrorsOf, ShippedFor, Bare,
         Addressed;
    OnlineFetchesIff(request, have, sha, net);
    NoRejectionIff(TarOf(f, cached).blobs, sha, failing, before, s, ErrorsOf(TarOf(f, cached)), r);
    CleanResponseIff(f, cached, sha, failing);
    SameEmptiness(f.errors, OnlineErrors(request, have, sha, net));
  }

  lemma SameEmptiness(a: seq<FetchError>, b: seq<FetchError>)
    requires multiset(a) == multiset(b)
    ensures a == [] <==> b == []
  {
    assert |multiset(a)| == |a| && |multiset(b)| == |b|;
  }

  lemma ArchiveIsTheList(blobs: seq<MissingBlob>, cached: map<string, Bytes>, failing: set<string>)
    requires forall b :: b in blobs ==> Bare(b.digest) in cached
    ensures (forall k :: k in PackBlobs(blobs, cached) ==> k !in failing) <==>
            (forall b :: b in blobs ==> Bare(b.digest) !in failing)
  {
    PackedBlobs(blobs, cached);
    hide PackBlobs, Bare;
    forall b | b in blobs ensures Bare(b.digest) in PackBlobs(blobs, cached) {}
  }

  // --- closure ---

  /** The manifest found for an image after the import is the one found before, or one of those shipped. */
  lemma LookAfterImport(
      before: map<Path, Cached>, manifests: map<Path, Body>, after: map<Path, Cached>, digestOf: Body -> string,
      registry: string, repository: string, reference: string, platform: string)
    requires Labelled(before, digestOf) && Labelled(after, digestOf) && GoodDigest(digestOf)
    requires CachedFrom(before, manifests, {}, after)
    ensures var m := Look(after, registry, repository, reference, platform);
            m.Some? ==> m == Look(before, registry, repository, reference, platform) || m.value in manifests.Values
  {
    hide CachePath;
    var m := Look(after, registry, repository, reference, platform);
    if m.Some? {
      var p :| p in after && after[p].body == m.value &&
               if PREFIX <= reference then after[p].sourceDigest == reference
               else p == CachePath(registry, repository, reference, platform);
      if !(p in before && after[p] == before[p]) {
        assert LandedAt(manifests, {}, p, after[p].body);
      } else if PREFIX <= reference {
        assert before[p].sourceDigest == reference;
        var o :| o in before && before[o].sourceDigest == reference &&
                 Look(before, registry, repository, reference, platform) == Some(before[o].body);
        assert digestOf(before[o].body) == digestOf(before[p].body);
      }
    }
  }

  /** All digests that any shipped manifest needs. */
  ghost predicate FromManifests(d: string, manifests: map<Path, Body>) {
    exists q :: q in manifests && d in NeededDigests(manifests[q])
  }

  lemma ImageDigestsAfterImport(
      img: Image, before: map<Path, Cached>, manifests: map<Path, Body>, after: map<Path, Cached>,
      digestOf: Body -> string, default: string, d: string)
    requires HasPin(img.ref) && Labelled(before, digestOf) && Labelled(after, digestOf) && GoodDigest(digestOf)
    requires CachedFrom(before, manifests, {}, after)
    requires d in ImageDigests(img, after, default)
    ensures d in ImageDigests(img, before, default) || FromManifests(d, manifests)
  {
    hide Look, CachedFrom, Labelled, GoodDigest, NeededDigests;
    LookAfterImport(before, manifests, after, digestOf, img.ref.registry, img.ref.repository, Reference(img.ref),
                    PlatformOf(img, default));
    var m := ManifestOf(img, after, default);
    if m != ManifestOf(img, before, default) {
      var q :| q in manifests && manifests[q] == m.value;
    }
  }

  /** What the images need after an import they needed before, or a shipped manifest needs it. */
  lemma {:induction false} AllDigestsAfterImport(
      images: seq<Image>, before: map<Path, Cached>, manifests: map<Path, Body>, after: map<Path, Cached>,
      digestOf: Body -> string, default: string, d: string)
    requires Pinned(images) && Labelled(before, digestOf) && Labelled(after, digestOf) && GoodDigest(digestOf)
    requires CachedFrom(before, manifests, {}, after)
    requires d in AllDigests(images, after, default)
    ensures d in AllDigests(images, before, default) || FromManifests(d, manifests)
  {
    hide ImageDigests, CachedFrom, Labelled, GoodDigest, FromManifests;
    if images != [] {
      var n := |images| - 1;
      if d in AllDigests(images[..n], after, default) {
        AllDigestsAfterImport(images[..n], before, manifests, after, digestOf, default, d);
      } else {
        ImageDigestsAfterImport(images[n], before, manifests, after, digestOf, default, d);
      }
    }
  }

  /** The same for what a Compose service needs. */
  lemma ServiceDigestsAfterImport(
      svc: Service, before: map<Path, Cached>, manifests: map<Path, Body>, after: map<Path, Cached>,
      digestOf: Body -> string, c: Setup, d: string)
    requires Labelled(before, digestOf) && Labelled(after, digestOf) && GoodDigest(digestOf)
    requires CachedFrom(before, manifests, {}, after)
    requires d in ServiceDigests(svc, after, c)
    ensures d in ServiceDigests(svc, before, c) || FromManifests(d, manifests)
  {
    hide ImageDigests, AllDigests, CachedFrom, Labelled, GoodDigest, FromManifests, ImagesAt, ImageFromRef;
    if svc.imageRef != "" {
      ImageDigestsAfterImport(ImageFromRef(svc.imageRef, c.patterns), before, manifests, after, digestOf, c.defaultPlatform, d);
    } else {
      AllDigestsAfterImport(ImagesAt(svc.dockerfilePath, c).value, before, manifests, after, digestOf, c.defaultPlatform, d);
    }
  }

  /** What an import without errors leaves behind, as far as closure is concerned. */
  ghost predicate ImportedAll(
      f: Fetch, missing: seq<MissingBlob>, before: map<Path, Cached>, after: map<Path, Cached>,
      blobs0: map<string, Bytes>, blobs: map<string, Bytes>, sha: Bytes -> string)
  {
    && missing <= f.blobs && Extends(blobs0, blobs)
    && CachedFrom(before, PackManifests(f.shipped), {}, after)
    && ListCovered(f.blobs, blobs0, blobs, sha, []) && ManifestsCovered(f.shipped, blobs0, blobs, sha, [])
  }

  lemma SettledIsThere(digest: string, blobs0: map<string, Bytes>, blobs: map<string, Bytes>, sha: Bytes -> string)
    requires Settled(digest, blobs0, blobs, sha, []) && Extends(blobs0, blobs)
    ensures Has(digest, blobs.Keys)
  {
    hide Bare;
  }

  /** Without errors, the store has every digest of a shipped manifest. */
  lemma ShippedDigestIsStored(
      f: Fetch, blobs0: map<string, Bytes>, blobs: map<string, Bytes>, sha: Bytes -> string, d: string)
    requires ManifestsCovered(f.shipped, blobs0, blobs, sha, []) && Extends(blobs0, blobs)
    requires FromManifests(d, PackManifests(f.shipped))
    ensures Has(d, blobs.Keys)
  {
    hide PackManifests, NeededDigests, Settled, Extends;
    var q :| q in PackManifests(f.shipped) && d in NeededDigests(PackManifests(f.shipped)[q]);
    PackedManifests(f.shipped);
    var s :| s in f.shipped && s.body == PackManifests(f.shipped)[q];
    if d != "" { SettledIsThere(d, blobs0, blobs, sha); } else { assert Bare("") == ""; }
  }

  lemma OldDigestIsStored(
      t: Totals, f: Fetch, all: set<string>, blobs0: map<string, Bytes>, blobs: map<string, Bytes>, sha: Bytes -> string,
      d: string)
    requires Accounts(t, all, blobs0.Keys) && d in all && t.missing <= f.blobs && Extends(blobs0, blobs)
    requires ListCovered(f.blobs, blobs0, blobs, sha, [])
    ensures Has(d, blobs.Keys)
  {
    hide Settled;
    if !Has(d, blobs0.Keys) {
      assert d in NotInStore(all, blobs0.Keys);
      assert d in DigestList(t.missing);
      var k :| 0 <= k < |DigestList(t.missing)| && DigestList(t.missing)[k] == d;
      assert t.missing[k] == f.blobs[k] && f.blobs[k] in f.blobs;
      SettledIsThere(d, blobs0, blobs, sha);
    }
  }

  /** Closure: after an import without errors the same images miss nothing, and the size is 0, also when the import
      has replaced cached manifests by newer ones. (An empty digest, which the online side skips, names the blob
      directory itself and so is never missing.) */
  lemma ErrorFreeCycleCloses(
      images: seq<Image>, t: Totals, f: Fetch, before: map<Path, Cached>, after: map<Path, Cached>, digestOf: Body -> string,
      default: string, blobs0: map<string, Bytes>, blobs: map<string, Bytes>, sha: Bytes -> string)
    requires Pinned(images) && Labelled(before, digestOf) && Labelled(after, digestOf) && GoodDigest(digestOf)
    requires AddImages(NOTHING, images, before, blobs0.Keys, default) == Some(t)
    requires ImportedAll(f, t.missing, before, after, blobs0, blobs, sha)
    ensures var again := AddImages(NOTHING, images, after, blobs.Keys, default);
            again.Some? ==> again.value.missing == [] && again.value.size == 0
  {
    var again := AddImages(NOTHING, images, after, blobs.Keys, default);
    if again.Some? {
      NothingMissingIff(images, after, blobs.Keys, default);
      AnalysisAccounts(images, before, blobs0.Keys, default);
      hide AddImages, AllDigests, CachedFrom, Labelled, GoodDigest, ListCovered, ManifestsCovered, PackManifests, FromManifests,
           Extends;
      forall d | d in AllDigests(images, after, default) ensures Has(d, blobs.Keys) {
        AllDigestsAfterImport(images, before, PackManifests(f.shipped), after, digestOf, default, d);
        if FromManifests(d, PackManifests(f.shipped)) {
          ShippedDigestIsStored(f, blobs0, blobs, sha, d);
        } else {
          OldDigestIsStored(t, f, AllDigests(images, before, default), blobs0, blobs, sha, d);
        }
      }
    }
  }

  /** Closure for a Compose file: the same services miss nothing. */
  lemma ErrorFreeComposeCycleCloses(
      services: seq<Service>, t: Totals, f: Fetch, before: map<Path, Cached>, after: map<Path, Cached>,
      digestOf: Body -> string, c: Setup, blobs0: map<string, Bytes>, blobs: map<string, Bytes>, sha: Bytes -> string)
    requires Labelled(before, digestOf) && Labelled(after, digestOf) && GoodDigest(digestOf)
    requires AddServices(services, before, blobs0.Keys, c).Some? && AddServices(services, before, blobs0.Keys, c).value.totals == t
    requires ImportedAll(f, t.missing, before, after, blobs0, blobs, sha)
    ensures var again := AddServices(services, after, blobs.Keys, c);
            again.Some? ==> again.value.totals.missing == [] && again.value.totals.size == 0
  {
    var again := AddServices(services, after, blobs.Keys, c);
    if again.Some? {
      ComposeAccounts(services, before, blobs0.Keys, c);
      ComposeAccounts(services, after, blobs.Keys, c);
      NothingMissingFrom(again.value.totals, UnionDigests(services, after, c), blobs.Keys);
      hide AddServices, UnionDigests, ServiceDigests, CachedFrom, Labelled, GoodDigest, ListCovered, ManifestsCovered,
           PackManifests, FromManifests, Accounts, Extends;
      forall d | d in UnionDigests(services, after, c) ensures Has(d, blobs.Keys) {
        UnionMembers(services, after, c, d);
        var k :| 0 <= k < |services| && d in ServiceDigests(services[k], after, c);
        ServiceDigestsAfterImport(services[k], before, PackManifests(f.shipped), after, digestOf, c, d);
        if FromManifests(d, PackManifests(f.shipped)) {
          ShippedDigestIsStored(f, blobs0, blobs, sha, d);
        } else {
          UnionMembers(services, before, c, d);
          OldDigestIsStored(t, f, UnionDigests(services, before, c), blobs0, blobs, sha, d);
        }
      }
    }
  }

  // --- shipped manifests are found again ---

  /** After an import, looking up a shipped image by its tag and original platform yields what was shipped for it,
      if its path has a registry, a repository and a tag, its platform does not contain `.json`, and no other
      shipped manifest goes to the same path. */
  lemma ShippedIsFound(
      shipped: seq<Shipped>, before: map<Path, Cached>, after: map<Path, Cached>, s: Shipped, platform: string)
    requires CachedFrom(before, PackManifests(shipped), {}, after) && s in shipped
    requires s.platformFile == SafePlatform(platform) && !(PREFIX <= s.tag)
    requires |Components(s.registry) + Components(s.repository) + Components(s.tag)| >= 3
    requires !Contains(platform, JSON)
    requires forall x :: x in shipped && TargetPath(ExtractedPath(x)) == TargetPath(ExtractedPath(s)) ==> x.body == s.body
    ensures Look(after, s.registry, s.repository, s.tag, platform) == Some(s.body)
  {
    PathRoundTripIff(s.registry, s.repository, s.tag, platform);
    hide TargetPath, CachePath, SafePlatform, PackManifests;
    PackedManifests(shipped);
    var manifests, q := PackManifests(shipped), ExtractedPath(s);
    var p := CachePath(s.registry, s.repository, s.tag, platform);
    assert TargetPath(q) == Some(p);
    assert LandedAt(manifests, {}, p, after[p].body);
    var x :| x in manifests && TargetPath(x) == Some(p) && manifests[x] == after[p].body;
    var t :| t in shipped && ExtractedPath(t) == x && t.body == manifests[x];
  }

  /** A name whose parts are path components as they stand. */
  predicate PlainName(registry: string, repository: string, tag: string) {
    && IsComponent(registry) && IsComponent(tag)
    && Components(repository) != [] && JoinPath(Components(repository)) == repository
  }

  predicate PlainRequest(r: ImageRequest) {
    PlainName(r.registry, r.repository, TagText(r.tag)) && !Contains(r.platform, JSON)
  }

  /** A plainly named manifest goes to the path made of its parts. */
  lemma PlainPath(s: Shipped, r: ImageRequest)
    requires PlainRequest(r) && NamedAfter(s, r)
    ensures TargetPath(ExtractedPath(s)) == Some([s.registry] + Components(s.repository) + [s.tag, SafePlatform(r.platform) + JSON])
  {
    PathRoundTripIff(s.registry, s.repository, s.tag, r.platform);
    PlainParts(s.registry, s.repository, s.tag);
    hide TargetPath, Components, JoinPath, SafePlatform, ShippedName, Contains;
    assert [s.registry] + Components(s.repository) + [s.tag] + [SafePlatform(r.platform) + JSON] ==
           [s.registry] + Components(s.repository) + [s.tag, SafePlatform(r.platform) + JSON];
  }

  lemma PathParts(a: seq<string>, x: string, y: string, u: string, b: seq<string>, z: string, w: string, v: string)
    requires [x] + a + [y, u] == [z] + b + [w, v]
    ensures x == z && a == b && y == w
  {
    var p, q := [x] + a + [y, u], [z] + b + [w, v];
    assert |p| == |a| + 3 && |q| == |b| + 3;
    assert p[0] == x && q[0] == z && p[|p| - 2] == y && q[|q| - 2] == w;
    assert p[1..|p| - 2] == a && q[1..|q| - 2] == b;
  }

  /** Plainly named manifests go to different paths. */
  lemma PathTellsName(r: ImageRequest, a: Shipped, q: ImageRequest, b: Shipped)
    requires PlainRequest(r) && NamedAfter(a, r) && PlainRequest(q) && NamedAfter(b, q)
    requires TargetPath(ExtractedPath(a)) == TargetPath(ExtractedPath(b))
    ensures a.registry == b.registry && a.repository == b.repository && a.tag == b.tag
  {
    hide TargetPath, Components, JoinPath, SafePlatform, ShippedName, Contains, ExtractedPath;
    PlainPath(a, r);
    PlainPath(b, q);
    PathParts(Components(a.repository), a.registry, a.tag, SafePlatform(r.platform) + JSON,
              Components(b.repository), b.registry, b.tag, SafePlatform(q.platform) + JSON);
  }

  lemma PlainParts(registry: string, repository: string, tag: string)
    requires PlainName(registry, repository, tag)
    ensures Components(registry) == [registry] && Components(tag) == [tag]
    ensures |Components(registry) + Components(repository) + Components(tag)| >= 3
  {
    ComponentsOfJoin([registry]);
    ComponentsOfJoin([tag]);
  }

  predicate NamedAfter(s: Shipped, r: ImageRequest) {
    s.registry == r.registry && s.repository == r.repository && s.tag == TagText(r.tag) &&
    s.platformFile == SafePlatform(r.platform)
  }

  /** The answer for an image that has a tag, is resolved for the platform it is requested for, and is shipped. */
  predicate Answered(img: Image, answer: string -> Option<Upstream>, default: string) {
    && img.ref.tag.Some? && img.ref.digest.None? && !(PREFIX <= img.ref.tag.value)
    && PlatformOf(img, default) == PlatformOf(img, Requests.DEFAULT_PLATFORM)
    && Ship(Requests.RequestFor(img), answer).Some?
  }

  /** What an exchange asks for. */
  function RequestOf(sourceId: string, images: seq<Image>, missing: seq<MissingBlob>): Request {
    Request(sourceId, Requests.RequestsFor(Requests.FirstOfKey(images)), missing)
  }

  /** Every image whose request is answered is found with exactly the answered manifest, and without errors the store
      has all its digests. */
  ghost predicate AnswersArrive(
      images: seq<Image>, net: Network, files: map<Path, Cached>, blobs: map<string, Bytes>, errors: seq<FetchError>,
      default: string)
  {
    var requests := RequestOf("", images, []).images;
    (forall r :: r in requests ==> PlainRequest(r)) ==>
      forall n, img :: 0 <= n < |requests| && Requests.RequestFor(img) == requests[n] && Answered(img, net.manifests(n), default) ==>
        var body := Ship(requests[n], net.manifests(n)).value.body;
        ManifestOf(img, files, default) == Some(body) && (errors == [] ==> forall d :: d in NeededDigests(body) ==> Has(d, blobs.Keys))
  }

  lemma RequestsDiffer(images: seq<Image>, m: nat, n: nat)
    requires var requests := RequestOf("", images, []).images;
             m < |requests| && n < |requests| && requests[m].registry == requests[n].registry &&
             requests[m].repository == requests[n].repository && TagText(requests[m].tag) == TagText(requests[n].tag)
    ensures m == n
  {
    Requests.KeysOnce(images);
    hide Requests.FirstOfKey;
    var first := Requests.FirstOfKey(images);
    assert Requests.ImageKey(first[m]) == Requests.ImageKey(first[n]);
  }

  /** One answered image. */
  lemma RequestedImageIsFound(
      images: seq<Image>, n: nat, img: Image, net: Network, before: map<Path, Cached>, after: map<Path, Cached>,
      default: string)
    requires var requests := RequestOf("", images, []).images;
             n < |requests| && Requests.RequestFor(img) == requests[n] && Answered(img, net.manifests(n), default) &&
             (forall r :: r in requests ==> PlainRequest(r)) &&
             CachedFrom(before, PackManifests(ShipAll(requests, net.manifests)), {}, after)
    ensures var requests := RequestOf("", images, []).images;
            Ship(requests[n], net.manifests(n)).value in ShipAll(requests, net.manifests) &&
            ManifestOf(img, after, default) == Some(Ship(requests[n], net.manifests(n)).value.body)
  {
    var requests := RequestOf("", images, []).images;
    var shipped := ShipAll(requests, net.manifests);
    var s := Ship(requests[n], net.manifests(n)).value;
    ShippedWhenAnswered(requests, net.manifests, n);
    ShipKeepsName(requests[n], net.manifests(n));
    assert requests[n] in requests;
    PlainParts(s.registry, s.repository, s.tag);
    hide Ship, ShipAll, CachedFrom, PackManifests, Look, TargetPath, ExtractedPath, PlainName;
    forall x | x in shipped && TargetPath(ExtractedPath(x)) == TargetPath(ExtractedPath(s)) ensures x.body == s.body {
      ShippedForSome(requests, net.manifests, x);
      var m :| 0 <= m < |requests| && Ship(requests[m], net.manifests(m)) == Some(x);
      ShipKeepsName(requests[m], net.manifests(m));
      assert requests[m] in requests;
      PathTellsName(requests[m], x, requests[n], s);
      RequestsDiffer(images, m, n);
    }
    ShippedIsFound(shipped, before, after, s, PlatformOf(img, default));
  }

  lemma AnswersAreFound(
      images: seq<Image>, f: Fetch, net: Network, before: map<Path, Cached>, after: map<Path, Cached>,
      blobs0: map<string, Bytes>, blobs: map<string, Bytes>, sha: Bytes -> string, errors: seq<FetchError>, default: string)
    requires f.shipped == ShipAll(RequestOf("", images, []).images, net.manifests)
    requires CachedFrom(before, PackManifests(f.shipped), {}, after)
    requires ManifestsCovered(f.shipped, blobs0, blobs, sha, errors) && Extends(blobs0, blobs)
    ensures AnswersArrive(images, net, after, blobs, errors, default)
  {
    hide Ship, ShipAll, CachedFrom, PackManifests, Look, PlainRequest, Requests.FirstOfKey, NeededDigests, Settled, Extends;
    var requests := RequestOf("", images, []).images;
    if forall r :: r in requests ==> PlainRequest(r) {
      forall n, img | 0 <= n < |requests| && Requests.RequestFor(img) == requests[n] && Answered(img, net.manifests(n), default)
        ensures var body := Ship(requests[n], net.manifests(n)).value.body;
                ManifestOf(img, after, default) == Some(body) &&
                (errors == [] ==> forall d :: d in NeededDigests(body) ==> Has(d, blobs.Keys))
      {
        RequestedImageIsFound(images, n, img, net, before, after, default);
        var s := Ship(requests[n], net.manifests(n)).value;
        if errors == [] {
          forall d | d in NeededDigests(s.body) ensures Has(d, blobs.Keys) {
            if d != "" { SettledIsThere(d, blobs0, blobs, sha); } else { assert Bare("") == ""; }
          }
        }
      }
    }
  }

  // --- images pinned by digest ---

  /** An image pinned by digest is asked for exactly as if it had the tag `None`: nothing is shipped for it, whatever
      the registry knows under its digest, unless the registry has a tag of that name. */
  lemma DigestPinnedIsNotShipped(raw: string, img: Image, answer: string -> Option<Upstream>)
    requires img.ref == ParseImageRef(raw) && img.ref.digest.Some?
    ensures Ship(Requests.RequestFor(img), answer) == Ship(Requests.RequestFor(img).(tag := Some("None")), answer)
    ensures answer("None").None? ==> Ship(Requests.RequestFor(img), answer) == None
  {
    ExactlyOnePin(raw);
  }

  /** A cached file with the digest that no member of the response is written over. */
  ghost predicate KeptWith(before: map<Path, Cached>, manifests: map<Path, Body>, digest: string) {
    exists p :: p in before && before[p].sourceDigest == digest && forall q :: q in manifests ==> TargetPath(q) != Some(p)
  }

  /** A member of the response with the digest that is the one lying at its path afterwards. */
  ghost predicate LandedWith(
      manifests: map<Path, Body>, after: map<Path, Cached>, digestOf: Body -> string, digest: string)
  {
    exists q :: q in manifests && TargetPath(q).Some? && TargetPath(q).value in after &&
      after[TargetPath(q).value].body == manifests[q] && digestOf(manifests[q]) == digest
  }

  /** An image pinned by digest is found after an import exactly when a file that the import left alone has that
      served digest, or a manifest that landed has it. */
  lemma DigestPinnedIsFoundIff(
      img: Image, before: map<Path, Cached>, manifests: map<Path, Body>, after: map<Path, Cached>,
      digestOf: Body -> string, default: string)
    requires img.ref.digest.Some? && PREFIX <= img.ref.digest.value
    requires Labelled(before, digestOf) && Labelled(after, digestOf) && CachedFrom(before, manifests, {}, after)
    ensures ManifestOf(img, after, default).Some? <==>
            KeptWith(before, manifests, img.ref.digest.value) ||
            LandedWith(manifests, after, digestOf, img.ref.digest.value)
  {
    hide TargetPath;
    var digest := img.ref.digest.value;
    if ManifestOf(img, after, default).Some? {
      var p :| p in after && after[p].sourceDigest == digest;
      if exists q :: q in manifests && TargetPath(q) == Some(p) {
        assert LandedAt(manifests, {}, p, after[p].body);
        var q :| q in manifests && q !in {} && TargetPath(q) == Some(p) && manifests[q] == after[p].body;
        assert digestOf(manifests[q]) == digest;
      } else {
        assert p in before && before[p].sourceDigest == digest;
      }
    }
    if KeptWith(before, manifests, digest) {
      var p :| p in before && before[p].sourceDigest == digest && forall q :: q in manifests ==> TargetPath(q) != Some(p);
      assert p in after && !LandedAt(manifests, {}, p, after[p].body);
      assert after[p].sourceDigest == digest;
    }
    if LandedWith(manifests, after, digestOf, digest) {
      var q :| q in manifests && TargetPath(q).Some? && TargetPath(q).value in after &&
               after[TargetPath(q).value].body == manifests[q] && digestOf(manifests[q]) == digest;
      assert after[TargetPath(q).value].sourceDigest == digest;
    }
  }

  /** How an import loses it: a tag whose manifest `old` was the only one with the digest has moved upstream to `new`.
      The import replaces the file, the image pinned to `old` is no longer found, and the analysis then misses
      nothing only because there is nothing to look at. */
  lemma ImportCanLosePinned(
      img: Image, registry: string, repository: string, tag: string, platform: string, old0: Body, new0: Body,
      digestOf: Body -> string, now: int, default: string, have: set<string>)
    requires PlainName(registry, repository, tag) && !Contains(platform, JSON)
    requires GoodDigest(digestOf) && old0 != new0 && External(img) && img.ref.tag.None?
    requires img.ref.digest == Some(digestOf(old0))
    ensures var p := CachePath(registry, repository, tag, platform);
            var s := Shipped(registry, repository, tag, SafePlatform(platform), new0);
            var before := map[p := Cached(old0, None, digestOf(old0))];
            var after := map[p := Cached(new0, Some(now), digestOf(new0))];
            CachedFrom(before, PackManifests([s]), {}, after) && Labelled(before, digestOf) && Labelled(after, digestOf) &&
            ManifestOf(img, before, default) == Some(old0) && ManifestOf(img, after, default) == None &&
            AddImages(NOTHING, [img], after, have, default) == Some(Totals({}, [], 0, {}, [NotCached(img.resolved)]))
  {
    var p := CachePath(registry, repository, tag, platform);
    var s := Shipped(registry, repository, tag, SafePlatform(platform), new0);
    PathRoundTripIff(registry, repository, tag, platform);
    PlainParts(registry, repository, tag);
    hide TargetPath, CachePath, SafePlatform, PackManifests, ExtractedPath;
    assert PackManifests([s]) == map[ExtractedPath(s) := new0] by { PackOne(s); }
    MemberReplaces(ExtractedPath(s), p, old0, new0, digestOf, now);
    PinnedIsLost(img, p, old0, new0, digestOf, now, default, have);
  }

  lemma PackOne(s: Shipped)
    ensures PackManifests([s]) == map[ExtractedPath(s) := s.body]
  {
    assert [s][..0] == [];
  }

  lemma MemberReplaces(q: Path, p: Path, old0: Body, new0: Body, digestOf: Body -> string, now: int)
    requires TargetPath(q) == Some(p)
    ensures CachedFrom(map[p := Cached(old0, None, digestOf(old0))], map[q := new0], {},
                       map[p := Cached(new0, Some(now), digestOf(new0))])
  {
    hide TargetPath;
    assert LandedAt(map[q := new0], {}, p, new0);
  }

  lemma PinnedIsLost(
      img: Image, p: Path, old0: Body, new0: Body, digestOf: Body -> string, now: int, default: string, have: set<string>)
    requires GoodDigest(digestOf) && old0 != new0 && External(img) && img.ref.tag.None?
    requires img.ref.digest == Some(digestOf(old0))
    ensures var before := map[p := Cached(old0, None, digestOf(old0))];
            var after := map[p := Cached(new0, Some(now), digestOf(new0))];
            ManifestOf(img, before, default) == Some(old0) && ManifestOf(img, after, default) == None &&
            AddImages(NOTHING, [img], after, have, default) == Some(Totals({}, [], 0, {}, [NotCached(img.resolved)]))
  {
    var before := map[p := Cached(old0, None, digestOf(old0))];
    assert before[p].sourceDigest == img.ref.digest.value;
    assert digestOf(new0) != digestOf(old0);
    assert [img][..0] == [];
    assert NOTHING.warnings + [NotCached(img.resolved)] == [NotCached(img.resolved)];
  }

  // --- the run ---

  /** How far a turn of the cycle got. */
  datatype Outcome =
    | NoAnalysis(cause: Failure)
    | NothingToRequest
    | NoResponse
    | Completed(images: seq<Image>, missing: seq<MissingBlob>, fetch: Fetch, result: ImportResult)

  /** What the surroundings decide: the network's answers, storage failures, nonces, clock. */
  datatype Weather = Weather(net: Network, failing: set<string>, nonce1: Bytes, nonce2: Bytes, now: int)

  /** Each outcome with its cause: nothing to ask for; an unexpected exception during a download; and otherwise a
      completed exchange of exactly what was asked for and answered, whose import has no errors exactly when the run
      was flawless. */
  ghost predicate IsOutcome(
      o: Outcome, images: seq<Image>, missing: seq<MissingBlob>, sourceId: string, have: set<string>, sha: Bytes -> string,
      w: Weather)
  {
    var request := RequestOf(sourceId, images, missing);
    var nothing := request.blobs == [] && request.images == [];
    && !o.NoAnalysis?
    && (o.NothingToRequest? <==> nothing)
    && (o.NoResponse? <==> !nothing && OnlineCrashes(request, have, sha, w.net))
    && (o.Completed? ==>
          o.images == images && o.missing == missing && IsFetchFor(o.fetch, request, have, sha, w.net) &&
          (o.result.errors == [] <==> Flawless(request, have, sha, w.net, w.failing)))
  }

  /** What a completed exchange has done to the store and the manifest cache. */
  ghost predicate Arrived(
      o: Outcome, files0: map<Path, Cached>, files: map<Path, Cached>, before: State, s: State, cached: map<string, Bytes>,
      sha: Bytes -> string, w: Weather, default: string)
    requires o.Completed?
  {
    var tar := TarOf(o.fetch, cached);
    && ImportedSoFar(tar.blobs, sha, w.failing, {}, before, s, ErrorsOf(tar), o.result)
    && CachedFrom(files0, PackManifests(o.fetch.shipped), {}, files)
    && ListCovered(o.fetch.blobs, before.blobs, s.blobs, sha, o.result.errors)
    && ManifestsCovered(o.fetch.shipped, before.blobs, s.blobs, sha, o.result.errors)
    && AnswersArrive(o.images, w.net, files, s.blobs, o.result.errors, default)
  }

  /** Request, fetch, response and import for one analysis, over real stores and caches in any state. */
  method Exchange(
      images: seq<Image>, missing: seq<MissingBlob>, sourceId: string, ghost default: string, store: Store,
      manifests: ManifestCache, online: Cache, l: Link, w: Weather)
    returns (o: Outcome)
    requires GoodLink(l) && manifests.Valid() && online.Valid()
    requires store.sha == l.primitives.sha && online.sha == l.primitives.sha
    modifies store, manifests, online
    ensures manifests.Valid() && online.Valid() && Extends(old(store.blobs), store.blobs)
    ensures WellFormed(old(store.Current()), store.sha) ==> WellFormed(store.Current(), store.sha)
    ensures IsOutcome(o, images, missing, sourceId, old(online.blobs).Keys, store.sha, w)
    ensures !o.Completed? ==> store.Current() == old(store.Current()) && manifests.files == old(manifests.files)
    ensures Extends(old(online.blobs), online.blobs)
    ensures o.NoAnalysis? || o.NothingToRequest? ==> online.blobs == old(online.blobs)
    ensures o.Completed? ==>
              online.blobs.Keys == HaveAtEnd(RequestOf(sourceId, o.images, o.missing), old(online.blobs).Keys, store.sha, w.net)
    ensures o.Completed? ==>
              Arrived(o, old(manifests.files), manifests.files, old(store.Current()), store.Current(), online.blobs,
                      store.sha, w, default)
  {
    assert GoodHash(store.sha);
    hide Extends, GoodPrimitives, GoodCodec, Unwrap, Wrap, WellFormed, Knows, AllAccounted, TarOf, OnlineCrashes, HaveAtEnd,
         ImportedSoFar, ErrorsOf, IsOutcome, Arrived, IsFetchFor, CachedFrom, PackManifests;
    ExtendsItself(store.blobs);
    ExtendsItself(online.blobs);
    ghost var state0, have, files0 := store.Current(), online.blobs.Keys, manifests.files;
    StopsAre(images, missing, sourceId, have, store.sha, w);
    var imageRequests := Requests.CollectImages(images);
    if missing == [] && imageRequests == [] {
      return NothingToRequest;
    }
    var request := Request(sourceId, imageRequests, missing);
    var requestFile := WriteRequest(request, w.nonce1, l);

    RequestArrives(request, w.nonce1, l);
    var received := ProcessRequest(requestFile, l);
    var fetch := CmdFetch(received.value, online, w.net, w.now);
    if fetch.None? {
      return NoResponse;
    }
    var responseFile := BuildResponse(online, fetch.value, w.nonce2, l);

    ResponseArrives(TarOf(fetch.value, online.blobs), w.nonce2, l);
    var result := ImportResponse(responseFile, l, store, manifests, w.failing, w.now);
    assert result.Ok?;
    o := Completed(images, missing, fetch.value, result.value);
    CompletedIs(o, images, missing, sourceId, default, have, online.blobs, files0, manifests.files, state0, store.Current(),
                store.sha, w);
  }

  /** The two early ends. */
  lemma StopsAre(
      images: seq<Image>, missing: seq<MissingBlob>, sourceId: string, have: set<string>, sha: Bytes -> string, w: Weather)
    ensures var request := RequestOf(sourceId, images, missing); var nothing := request.blobs == [] && request.images == [];
            (nothing ==> IsOutcome(NothingToRequest, images, missing, sourceId, have, sha, w)) &&
            (!nothing && OnlineCrashes(request, have, sha, w.net) ==>
              IsOutcome(NoResponse, images, missing, sourceId, have, sha, w))
  {
    hide OnlineCrashes, Requests.FirstOfKey;
  }

  /** The completed exchange. */
  lemma CompletedIs(
      o: Outcome, images: seq<Image>, missing: seq<MissingBlob>, sourceId: string, default: string, have: set<string>,
      cached: map<string, Bytes>, files0: map<Path, Cached>, files: map<Path, Cached>, before: State, s: State,
      sha: Bytes -> string, w: Weather)
    requires o.Completed? && o.images == images && o.missing == missing
    requires var request := RequestOf(sourceId, images, missing);
             (request.blobs != [] || request.images != []) && !OnlineCrashes(request, have, sha, w.net) &&
             IsFetchFor(o.fetch, request, have, sha, w.net) && cached.Keys == HaveAtEnd(request, have, sha, w.net)
    requires Addressed(sha, cached)
    requires forall m :: m in o.fetch.shipped ==> Knows(m.body, ToSet(DigestList(o.fetch.blobs)))
    requires ImportedSoFar(TarOf(o.fetch, cached).blobs, sha, w.failing, {}, before, s, ErrorsOf(TarOf(o.fetch, cached)), o.result)
    requires CachedFrom(files0, TarOf(o.fetch, cached).manifests, {}, files)
    ensures IsOutcome(o, images, missing, sourceId, have, sha, w)
    ensures Arrived(o, files0, files, before, s, cached, sha, w, default)
    ensures Extends(before.blobs, s.blobs) && (WellFormed(before, sha) ==> WellFormed(s, sha))
  {
    var request := RequestOf(sourceId, images, missing);
    assert TarOf(o.fetch, cached).manifests == PackManifests(o.fetch.shipped);
    assert o.fetch.shipped == ShipAll(RequestOf("", images, []).images, w.net.manifests);
    hide ListCovered, ManifestsCovered, CachedFrom, Extends, WellFormed, Addressed, Knows, TarOf, PackManifests, ShipAll,
         OnlineCrashes, HaveAtEnd, Flawless, AnswersArrive, ImportedSoFar, ErrorsOf, IsFetchFor, Requests.FirstOfKey;
    ImportKeepsStore(TarOf(o.fetch, cached), sha, w.failing, before, s, o.result);
    CycleCovers(o.fetch, cached, sha, w.failing, before, s, o.result);
    ManifestsAreCovered(o.fetch, before.blobs, s.blobs, sha, o.result.errors);
    NoErrorsIff(o.fetch, request, have, cached, sha, w.net, w.failing, before, s, o.result);
    AnswersAreFound(images, o.fetch, w.net, files0, files, before.blobs, s.blobs, sha, o.result.errors, default);
  }

  lemma ImportKeepsStore(
      tar: Tar, sha: Bytes -> string, failing: set<string>, before: State, s: State, r: ImportResult)
    requires ImportedSoFar(tar.blobs, sha, failing, {}, before, s, ErrorsOf(tar), r)
    ensures Extends(before.blobs, s.blobs) && (WellFormed(before, sha) ==> WellFormed(s, sha))
  {
    hide CountedSoFar, Extends, WellFormed, Accepted, ErrorsOf;
  }

  /** A turn for a Dockerfile: analysis, then the exchange; and a turn whose import has no errors closes the delta. */
  method RunCycle(
      path: string, sourceId: string, c: Setup, store: Store, manifests: ManifestCache, online: Cache, l: Link, w: Weather)
    returns (o: Outcome)
    requires GoodLink(l) && manifests.Valid() && GoodDigest(manifests.digestOf) && online.Valid()
    requires store.sha == l.primitives.sha && online.sha == l.primitives.sha
    modifies store, manifests, online
    ensures manifests.Valid() && online.Valid() && Extends(old(store.blobs), store.blobs)
    ensures WellFormed(old(store.Current()), store.sha) ==> WellFormed(store.Current(), store.sha)
    ensures match ImagesAt(path, c)
            case Err(e) => o == NoAnalysis(Unresolved(e))
            case Ok(images) =>
              var first := AddImages(NOTHING, images, old(manifests.files), old(store.blobs).Keys, c.defaultPlatform);
              if first.None? then o == NoAnalysis(Malformed)
              else IsOutcome(o, images, first.value.missing, sourceId, old(online.blobs).Keys, store.sha, w)
    ensures !o.Completed? ==> store.Current() == old(store.Current()) && manifests.files == old(manifests.files)
    ensures Extends(old(online.blobs), online.blobs)
    ensures o.NoAnalysis? || o.NothingToRequest? ==> online.blobs == old(online.blobs)
    ensures o.Completed? ==>
              online.blobs.Keys == HaveAtEnd(RequestOf(sourceId, o.images, o.missing), old(online.blobs).Keys, store.sha, w.net)
    ensures o.Completed? ==>
              Arrived(o, old(manifests.files), manifests.files, old(store.Current()), store.Current(), online.blobs,
                      store.sha, w, c.defaultPlatform)
    // closure
    ensures o.Completed? && o.result.errors == [] ==>
              ImagesAt(path, c) == Ok(o.images) &&
              var again := AddImages(NOTHING, o.images, manifests.files, store.blobs.Keys, c.defaultPlatform);
              again.Some? ==> again.value.missing == [] && again.value.size == 0
  {
    hide AddImages, ListCovered, ManifestsCovered, CachedFrom, Labelled, GoodDigest, Extends, ImagesAt, GoodLink, WellFormed,
         Addressed, PackManifests, AnswersArrive, ImportedSoFar, OnlineCrashes, Flawless, TarOf, ErrorsOf, ExtraFor,
         HaveAtEnd;
    ExtendsItself(store.blobs);
    ExtendsItself(online.blobs);
    var analysis := ResolveDockerfile(path, "", c, store, manifests);
    if analysis.Err? {
      return NoAnalysis(analysis.error);
    }
    var images, missing := analysis.value.images, analysis.value.missingBlobs;
    ghost var before, files0 := store.blobs, manifests.files;
    ghost var first := AddImages(NOTHING, images, files0, before.Keys, c.defaultPlatform).value;
    o := Exchange(images, missing, sourceId, c.defaultPlatform, store, manifests, online, l, w);
    if o.Completed? && o.result.errors == [] {
      ErrorFreeCycleCloses(images, first, o.fetch, files0, manifests.files, manifests.digestOf, c.defaultPlatform,
                           before, store.blobs, store.sha);
    }
  }

  /** A turn for a Compose file, with the same guarantees for its services. */
  method RunComposeCycle(
      services: seq<Service>, sourceId: string, c: Setup, store: Store, manifests: ManifestCache, online: Cache, l: Link,
      w: Weather)
    returns (o: Outcome)
    requires GoodLink(l) && manifests.Valid() && GoodDigest(manifests.digestOf) && online.Valid()
    requires store.sha == l.primitives.sha && online.sha == l.primitives.sha
    modifies store, manifests, online
    ensures manifests.Valid() && online.Valid() && Extends(old(store.blobs), store.blobs)
    ensures WellFormed(old(store.Current()), store.sha) ==> WellFormed(store.Current(), store.sha)
    ensures var first := AddServices(services, old(manifests.files), old(store.blobs).Keys, c);
            if first.None? then o == NoAnalysis(Malformed)
            else IsOutcome(o, first.value.images, first.value.totals.missing, sourceId, old(online.blobs).Keys, store.sha, w)
    ensures !o.Completed? ==> store.Current() == old(store.Current()) && manifests.files == old(manifests.files)
    ensures Extends(old(online.blobs), online.blobs)
    ensures o.NoAnalysis? || o.NothingToRequest? ==> online.blobs == old(online.blobs)
    ensures o.Completed? ==>
              online.blobs.Keys == HaveAtEnd(RequestOf(sourceId, o.images, o.missing), old(online.blobs).Keys, store.sha, w.net)
    ensures o.Completed? ==>
              Arrived(o, old(manifests.files), manifests.files, old(store.Current()), store.Current(), online.blobs,
                      store.sha, w, c.defaultPlatform)
    // closure
    ensures o.Completed? && o.result.errors == [] ==>
              var again := AddServices(services, manifests.files, store.blobs.Keys, c);
              again.Some? ==> again.value.totals.missing == [] && again.value.totals.size == 0
  {
    hide AddServices, ListCovered, ManifestsCovered, CachedFrom, Labelled, GoodDigest, Extends, GoodLink, WellFormed,
         Addressed, PackManifests, AnswersArrive, ImportedSoFar, OnlineCrashes, Flawless, TarOf, ErrorsOf, ExtraFor,
         HaveAtEnd;
    ExtendsItself(store.blobs);
    ExtendsItself(online.blobs);
    var analysis := ResolveCompose(services, "", c, store, manifests);
    if analysis.None? {
      return NoAnalysis(Malformed);
    }
    ghost var before, files0 := store.blobs, manifests.files;
    ghost var first := AddServices(services, files0, before.Keys, c).value;
    o := Exchange(analysis.value.images, analysis.value.missingBlobs, sourceId, c.defaultPlatform, store, manifests, online,
                  l, w);
    if o.Completed? && o.result.errors == [] {
      ErrorFreeComposeCycleCloses(services, first.totals, o.fetch, files0, manifests.files, manifests.digestOf, c,
                                  before, store.blobs, store.sha);
    }
  }

  lemma ResponseArrives(tar: Tar, nonce: Bytes, l: Link)
    requires GoodLink(l)
    ensures var data := Wrap(l.codec.packTar(tar), nonce, l.keys, l.primitives);
            Unwrap(data, l.keys, l.primitives) == Ok(l.codec.packTar(tar)) &&
            l.codec.unpackTar(l.codec.packTar(tar)) == Some(tar)
  {
    WrapUnwraps(l.codec.packTar(tar), nonce, l.keys, l.primitives);
  }
}
