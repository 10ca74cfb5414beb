/** The analysis loops themselves, and Compose files as unions of services. */
module Analysis {
  import opened Prelude
  import opened Manifests
  import opened Crypto
  import opened ImageRefs
  import opened Dockerfile
  import opened Resolver
  import opened ManifestCaches
  import opened Stores

  /** A Compose service with its image, or a Dockerfile to build (empty strings when absent). */
  datatype Service = Service(name: string, imageRef: string, dockerfilePath: string)

  /** Dockerfiles by path, as physical lines, and the options of an analysis. */
  datatype Setup = Setup(
    dockerfiles: map<string, seq<string>>, buildArgs: map<string, string>, patterns: seq<string>, unicode: Unicode,
    defaultPlatform: string)

  function ImagesAt(path: string, c: Setup): (r: Result<seq<Image>, ResolverError>)
    ensures r.Ok? ==> Pinned(r.value)
  {
    if path !in c.dockerfiles then Err(NotFound(path))
    else
      InternalIffEarlierAlias(c.dockerfiles[path], c.buildArgs, c.patterns, c.unicode);
      var r := ImagesOf(c.dockerfiles[path], c.buildArgs, c.patterns, c.unicode);
      PinnedImages(r, c);
      r
  }

  lemma PinnedImages(r: Result<seq<Image>, ResolverError>, c: Setup)
    requires r.Ok? ==> ImagesAgree(r.value, c.patterns, c.unicode)
    ensures r.Ok? ==> Pinned(r.value)
  {
    if r.Ok? { ImagesArePinned(r.value, c.patterns, c.unicode); }
  }

  /** A service image is treated like a single FROM line. */
  function ImageFromRef(raw: string, patterns: seq<string>): (img: Image)
    ensures HasPin(img.ref)
  {
    var ref := ParseImageRef(raw);
    ExactlyOnePin(raw);
    Image(raw, ref, BuildResolved(ref), None, None, false, IsPrivate(ref.registry, patterns), 0)
  }

  // --- Compose ---

  datatype Aggregate = Aggregate(totals: Totals, refs: set<string>, images: seq<Image>)

  const NO_SERVICES := Aggregate(NOTHING, {}, [])

  /** Blobs of a sub-analysis whose digest was not seen before are appended one by one. */
  function MergeMissing(t: Totals, blobs: seq<MissingBlob>): Totals {
    if blobs == [] then t
    else
      var before := MergeMissing(t, blobs[..|blobs| - 1]);
      var blob := blobs[|blobs| - 1];
      if blob.digest in before.seen then before
      else before.(missing := before.missing + [blob], size := before.size + blob.size, seen := before.seen + {blob.digest})
  }

  function Merge(t: Totals, sub: Totals): Totals {
    var merged := MergeMissing(t.(present := t.present + sub.present), sub.missing);
    merged.(warnings := merged.warnings + sub.warnings)
  }

  /** One service; None when a manifest is malformed. A resolver error only leaves a warning. */
  ghost function AddService(a: Aggregate, svc: Service, files: map<Path, Cached>, have: set<string>, c: Setup)
    : Option<Aggregate>
  {
    if svc.imageRef != "" then
      if svc.imageRef in a.refs then Some(a)
      else
        var img := ImageFromRef(svc.imageRef, c.patterns);
        var t := AddImage(a.totals, img, ManifestOf(img, files, c.defaultPlatform), have);
        if t.None? then None else Some(Aggregate(t.value, a.refs + {svc.imageRef}, a.images + [img]))
    else if svc.dockerfilePath != "" then
      match ImagesAt(svc.dockerfilePath, c)
      case Err(e) => Some(a.(totals := Warn(a.totals, ServiceFailed(svc.name, e))))
      case Ok(images) =>
        var sub := AddImages(NOTHING, images, files, have, c.defaultPlatform);
        if sub.None? then None
        else Some(a.(totals := Merge(a.totals, sub.value), images := a.images + images))
    else Some(a)
  }

  ghost function AddServices(services: seq<Service>, files: map<Path, Cached>, have: set<string>, c: Setup)
    : Option<Aggregate>
  {
    if services == [] then Some(NO_SERVICES)
    else
      var before := AddServices(services[..|services| - 1], files, have, c);
      if before.None? then None else AddService(before.value, services[|services| - 1], files, have, c)
  }

  /** What a service needs by itself. */
  ghost function ServiceDigests(svc: Service, files: map<Path, Cached>, c: Setup): set<string> {
    if svc.imageRef != "" then ToSet(ImageDigests(ImageFromRef(svc.imageRef, c.patterns), files, c.defaultPlatform))
    else if svc.dockerfilePath != "" then
      match ImagesAt(svc.dockerfilePath, c)
      case Err(_) => {}
      case Ok(images) => AllDigests(images, files, c.defaultPlatform)
    else {}
  }

  ghost function UnionDigests(services: seq<Service>, files: map<Path, Cached>, c: Setup): set<string> {
    if services == [] then {}
    else UnionDigests(services[..|services| - 1], files, c) + ServiceDigests(services[|services| - 1], files, c)
  }

  lemma {:induction false} MergeMissingAccounts(t: Totals, blobs: seq<MissingBlob>)
    requires t.size == SumSizes(t.missing)
    ensures var m := MergeMissing(t, blobs);
            m.seen == t.seen + ToSet(DigestList(blobs)) && m.present == t.present && m.size == SumSizes(m.missing) &&
            ToSet(DigestList(m.missing)) == ToSet(DigestList(t.missing)) + (ToSet(DigestList(blobs)) - t.seen)
  {
    hide DigestList, SumSizes, ToSet;
    if blobs == [] {
      NoDigests();
    } else {
      var n := |blobs| - 1;
      var before, blob := MergeMissing(t, blobs[..n]), blobs[n];
      MergeMissingAccounts(t, blobs[..n]);
      assert blobs == blobs[..n] + [blob];
      OneMoreBlob(blobs[..n], blob);
      OneMoreBlob(before.missing, blob);
    }
  }

  lemma NoDigests()
    ensures ToSet(DigestList([])) == {}
  {
    assert DigestList([]) == [];
  }

  lemma OneMoreBlob(blobs: seq<MissingBlob>, blob: MissingBlob)
    ensures ToSet(DigestList(blobs + [blob])) == ToSet(DigestList(blobs)) + {blob.digest}
    ensures SumSizes(blobs + [blob]) == SumSizes(blobs) + blob.size
  {
    DigestListAppend(blobs, [blob]);
    assert DigestList([blob]) == [blob.digest];
    ToSetAppend(DigestList(blobs), [blob.digest]);
    assert (blobs + [blob])[..|blobs|] == blobs;
  }

  lemma MergeAccounts(t: Totals, all: set<string>, sub: Totals, more: set<string>, have: set<string>)
    requires Accounts(t, all, have) && t.seen <= all && Accounts(sub, more, have)
    ensures Accounts(Merge(t, sub), all + more, have) && Merge(t, sub).seen <= all + more
  {
    MergeMissingAccounts(t.(present := t.present + sub.present), sub.missing);
    hide MergeMissing, DigestList, SumSizes, ToSet;
  }

  /** The aggregate accounts for the digests `all`, and the references already handled are among them. */
  ghost predicate Gathers(a: Aggregate, all: set<string>, files: map<Path, Cached>, have: set<string>, c: Setup) {
    && Accounts(a.totals, all, have) && a.totals.seen <= all
    && forall r :: r in a.refs ==> ToSet(ImageDigests(ImageFromRef(r, c.patterns), files, c.defaultPlatform)) <= all
  }

  lemma AddServiceGathers(
      a: Aggregate, svc: Service, all: set<string>, files: map<Path, Cached>, have: set<string>, c: Setup)
    requires Gathers(a, all, files, have, c)
    ensures var r := AddService(a, svc, files, have, c);
            r.Some? ==> Gathers(r.value, all + ServiceDigests(svc, files, c), files, have, c)
  {
    hide ImageDigests, AddImage, AllDigests, AddImages, ManifestOf, Accounts, Merge, ImagesAt, ImageFromRef;
    var more := ServiceDigests(svc, files, c);
    if svc.imageRef != "" {
      if svc.imageRef in a.refs {
        assert all + more == all;
      } else {
        AddImageAccounts(a.totals, ImageFromRef(svc.imageRef, c.patterns), files, all, have, c.defaultPlatform);
      }
    } else if svc.dockerfilePath != "" {
      match ImagesAt(svc.dockerfilePath, c)
      case Err(e) =>
        assert all + {} == all;
        WarnAccounts(a.totals, ServiceFailed(svc.name, e), all, have);
      case Ok(images) =>
        AnalysisAccounts(images, files, have, c.defaultPlatform);
        var sub := AddImages(NOTHING, images, files, have, c.defaultPlatform);
        if sub.Some? { MergeAccounts(a.totals, all, sub.value, more, have); }
    } else {
      assert all + {} == all;
    }
  }

  lemma WarnAccounts(t: Totals, w: Warning, all: set<string>, have: set<string>)
    requires Accounts(t, all, have)
    ensures Accounts(Warn(t, w), all, have)
  {
  }

  /** A Compose analysis accounts for exactly the union of what its services need: the missing blobs are those of
      the union that are not in the store, and the total size is the sum over the listed entries. */
  lemma {:induction false} ComposeAccounts(services: seq<Service>, files: map<Path, Cached>, have: set<string>, c: Setup)
    ensures var r := AddServices(services, files, have, c);
            r.Some? ==> Gathers(r.value, UnionDigests(services, files, c), files, have, c)
  {
    hide AddService, ServiceDigests, ImageDigests;
    if services == [] {
      NothingAccounts(have);
    } else {
      var before := services[..|services| - 1];
      ComposeAccounts(before, files, have, c);
      var a := AddServices(before, files, have, c);
      if a.Some? {
        AddServiceGathers(a.value, services[|services| - 1], UnionDigests(before, files, c), files, have, c);
      }
    }
  }

  // --- repetitions in a Compose analysis ---

  /** Every missing blob's digest has been seen. */
  predicate MissingIsSeen(t: Totals) {
    ToSet(DigestList(t.missing)) <= t.seen
  }

  lemma {:induction false} MergeRepeats(t: Totals, blobs: seq<MissingBlob>)
    requires MissingIsSeen(t)
    ensures MissingIsSeen(MergeMissing(t, blobs))
    ensures NoDup(DigestList(MergeMissing(t, blobs).missing)) <==> NoDup(DigestList(t.missing))
  {
    if blobs != [] {
      var n := |blobs| - 1;
      MergeRepeats(t, blobs[..n]);
      var before, blob := MergeMissing(t, blobs[..n]), blobs[n];
      hide DigestList, ToSet, NoDup;
      OneMoreBlob(before.missing, blob);
      if blob.digest !in before.seen { UnseenBlob(before.missing, blob); }
    }
  }

  lemma UnseenBlob(blobs: seq<MissingBlob>, blob: MissingBlob)
    requires blob.digest !in ToSet(DigestList(blobs))
    ensures NoDup(DigestList(blobs + [blob])) <==> NoDup(DigestList(blobs))
  {
    DigestListAppend(blobs, [blob]);
    assert DigestList([blob]) == [blob.digest];
    hide DigestList;
    NoDupAppend(DigestList(blobs), [blob.digest]);
  }

  /** For digests that are not in the store, having been seen and being needed by the services so far is the same. */
  lemma SeenIsNeeded(t: Totals, all: set<string>, have: set<string>, digests: seq<string>)
    requires Accounts(t, all, have) && t.seen <= all && MissingIsSeen(t)
    ensures RepeatsMissing(digests, t.seen, have) <==> RepeatsMissing(digests, all, have)
  {
    forall d | d in all && !Has(d, have) ensures d in t.seen {
      assert d in NotInStore(all, have);
    }
  }

  /** The service's own image has a manifest that repeats a digest which is missing and which no earlier service needs. */
  ghost predicate ServiceRepeats(svc: Service, all: set<string>, files: map<Path, Cached>, have: set<string>, c: Setup) {
    svc.imageRef != "" &&
    RepeatsMissing(ImageDigests(ImageFromRef(svc.imageRef, c.patterns), files, c.defaultPlatform), all, have)
  }

  ghost predicate ServicesRepeatFree(services: seq<Service>, files: map<Path, Cached>, have: set<string>, c: Setup) {
    services != [] ==>
      ServicesRepeatFree(services[..|services| - 1], files, have, c) &&
      !ServiceRepeats(services[|services| - 1], UnionDigests(services[..|services| - 1], files, c), files, have, c)
  }

  lemma AddImageRepeats(
      t: Totals, img: Image, files: map<Path, Cached>, all: set<string>, have: set<string>, default: string)
    requires HasPin(img.ref) && Accounts(t, all, have) && t.seen <= all && MissingIsSeen(t)
    ensures var r := AddImage(t, img, ManifestOf(img, files, default), have);
            r.Some? ==>
              MissingIsSeen(r.value) &&
              (NoDup(DigestList(r.value.missing)) <==>
               NoDup(DigestList(t.missing)) && !RepeatsMissing(ImageDigests(img, files, default), all, have))
  {
    AddImageAccounts(t, img, files, all, have, default);
    SeenIsNeeded(t, all, have, ImageDigests(img, files, default));
    var found := ManifestOf(img, files, default);
    hide AddManifest, NeededDigests, ManifestOf, NoDup, DigestList, RepeatsMissing, ToSet, SumSizes;
    if External(img) && found.Some? && Complete(found.value) {
      var t1 := if img.ref.tag == Some("latest") then Warn(t, UsesLatest(img.resolved)) else t;
      AddManifestRepeats(t1, img, found.value, have);
      MissingStaysSeen(t, AddManifest(t1, img, found.value, have), all, ToSet(NeededDigests(found.value)), have);
    } else {
      NoRepeatInNothing(all, have);
    }
  }

  lemma MissingStaysSeen(t: Totals, after: Totals, all: set<string>, more: set<string>, have: set<string>)
    requires Accounts(t, all, have) && Accounts(after, all + more, have) && MissingIsSeen(t) && after.seen == t.seen + more
    ensures MissingIsSeen(after)
  {
  }

  lemma NeededAlready(digests: seq<string>, all: set<string>, have: set<string>)
    requires ToSet(digests) <= all
    ensures !RepeatsMissing(digests, all, have)
  {
    forall i | 0 <= i < |digests| ensures digests[i] in all { assert digests[i] in ToSet(digests); }
  }

  lemma AddServiceRepeats(
      a: Aggregate, svc: Service, all: set<string>, files: map<Path, Cached>, have: set<string>, c: Setup)
    requires Gathers(a, all, files, have, c) && MissingIsSeen(a.totals)
    ensures var r := AddService(a, svc, files, have, c);
            r.Some? ==>
              MissingIsSeen(r.value.totals) &&
              (NoDup(DigestList(r.value.totals.missing)) <==>
               NoDup(DigestList(a.totals.missing)) && !ServiceRepeats(svc, all, files, have, c))
  {
    hide ImageDigests, AddImage, AllDigests, AddImages, ManifestOf, Accounts, ImagesAt, ImageFromRef, RepeatsMissing, NoDup,
         DigestList, MergeMissing, ToSet;
    if svc.imageRef != "" {
      var img := ImageFromRef(svc.imageRef, c.patterns);
      if svc.imageRef in a.refs {
        NeededAlready(ImageDigests(img, files, c.defaultPlatform), all, have);
      } else {
        AddImageRepeats(a.totals, img, files, all, have, c.defaultPlatform);
      }
    } else if svc.dockerfilePath != "" && ImagesAt(svc.dockerfilePath, c).Ok? {
      var sub := AddImages(NOTHING, ImagesAt(svc.dockerfilePath, c).value, files, have, c.defaultPlatform);
      if sub.Some? {
        MergeRepeats(a.totals.(present := a.totals.present + sub.value.present), sub.value.missing);
      }
    }
  }

  /** A Compose analysis lists a blob twice exactly when some service's own image repeats a missing digest that no
      earlier service needs; blobs merged from Dockerfiles are never listed twice. */
  lemma {:induction false} ComposeListsNothingTwiceIff(
      services: seq<Service>, files: map<Path, Cached>, have: set<string>, c: Setup)
    requires AddServices(services, files, have, c).Some?
    ensures var t := AddServices(services, files, have, c).value.totals;
            MissingIsSeen(t) && (NoDup(DigestList(t.missing)) <==> ServicesRepeatFree(services, files, have, c))
  {
    hide AddService, ServiceRepeats, Gathers, NoDup, DigestList, MissingIsSeen, UnionDigests;
    if services == [] {
      NothingRepeats();
    } else {
      var before := services[..|services| - 1];
      ComposeListsNothingTwiceIff(before, files, have, c);
      ComposeAccounts(before, files, have, c);
      var a := AddServices(before, files, have, c).value;
      AddServiceRepeats(a, services[|services| - 1], UnionDigests(before, files, c), files, have, c);
    }
  }

  lemma NothingRepeats()
    ensures MissingIsSeen(NOTHING) && NoDup(DigestList(NOTHING.missing))
  {
  }

  ghost function MissingOf(services: seq<Service>, files: map<Path, Cached>, have: set<string>, c: Setup): set<string>
    requires AddServices(services, files, have, c).Some?
  {
    ToSet(DigestList(AddServices(services, files, have, c).value.totals.missing))
  }

  lemma {:induction false} UnionMembers(services: seq<Service>, files: map<Path, Cached>, c: Setup, d: string)
    ensures d in UnionDigests(services, files, c) <==>
              exists k :: 0 <= k < |services| && d in ServiceDigests(services[k], files, c)
  {
    hide ServiceDigests;
    if services != [] {
      var n := |services| - 1;
      UnionMembers(services[..n], files, c, d);
      if k :| 0 <= k < n && d in ServiceDigests(services[..n][k], files, c) {
        assert services[..n][k] == services[k];
      }
      if k :| 0 <= k < n && d in ServiceDigests(services[k], files, c) {
        assert services[..n][k] == services[k];
      }
    }
  }

  lemma MissingOfIs(services: seq<Service>, files: map<Path, Cached>, have: set<string>, c: Setup)
    requires AddServices(services, files, have, c).Some?
    ensures MissingOf(services, files, have, c) == NotInStore(UnionDigests(services, files, c), have)
  {
    ComposeAccounts(services, files, have, c);
  }

  /** No manifest that the service looks at is malformed. */
  ghost predicate Readable(svc: Service, files: map<Path, Cached>, have: set<string>, c: Setup) {
    if svc.imageRef != "" then ReadableRef(svc.imageRef, files, have, c)
    else
      svc.dockerfilePath != "" && ImagesAt(svc.dockerfilePath, c).Ok? ==>
        AddImages(NOTHING, ImagesAt(svc.dockerfilePath, c).value, files, have, c.defaultPlatform).Some?
  }

  ghost predicate ReadableRef(raw: string, files: map<Path, Cached>, have: set<string>, c: Setup) {
    var img := ImageFromRef(raw, c.patterns);
    AddImage(NOTHING, img, ManifestOf(img, files, c.defaultPlatform), have).Some?
  }

  lemma ServiceSucceedsIff(a: Aggregate, svc: Service, files: map<Path, Cached>, have: set<string>, c: Setup)
    requires svc.imageRef in a.refs ==> ReadableRef(svc.imageRef, files, have, c)
    ensures AddService(a, svc, files, have, c).Some? <==> Readable(svc, files, have, c)
  {
    hide AddImages, ManifestOf, ImagesAt, ImageFromRef, AddManifest, Merge;
  }

  lemma {:induction false} ServicesSucceedOnlyIfReadable(
      services: seq<Service>, files: map<Path, Cached>, have: set<string>, c: Setup)
    requires AddServices(services, files, have, c).Some?
    ensures forall k :: 0 <= k < |services| ==> Readable(services[k], files, have, c)
    ensures forall r :: r in AddServices(services, files, have, c).value.refs ==> ReadableRef(r, files, have, c)
  {
    hide AddService, Readable, ReadableRef;
    if services != [] {
      var n := |services| - 1;
      ServicesSucceedOnlyIfReadable(services[..n], files, have, c);
      var a := AddServices(services[..n], files, have, c).value;
      ServiceSucceedsIff(a, services[n], files, have, c);
      AddedRefs(a, services[n], files, have, c);
      assert forall k :: 0 <= k < n ==> services[..n][k] == services[k];
    }
  }

  lemma AddedRefs(a: Aggregate, svc: Service, files: map<Path, Cached>, have: set<string>, c: Setup)
    requires AddService(a, svc, files, have, c).Some?
    ensures AddService(a, svc, files, have, c).value.refs <= a.refs + {svc.imageRef}
    ensures svc.imageRef == "" ==> AddService(a, svc, files, have, c).value.refs == a.refs
    ensures svc.imageRef != "" && svc.imageRef !in a.refs ==> ReadableRef(svc.imageRef, files, have, c)
  {
    hide AddImages, ManifestOf, ImagesAt, ImageFromRef, AddManifest, Merge;
  }

  lemma ReadableSucceedsAlone(svc: Service, files: map<Path, Cached>, have: set<string>, c: Setup)
    requires Readable(svc, files, have, c)
    ensures AddServices([svc], files, have, c).Some?
  {
    hide AddService, Readable;
    assert [svc][..0] == [];
    ServiceSucceedsIff(NO_SERVICES, svc, files, have, c);
  }

  /** A Compose analysis misses exactly the union of what each of its services misses when analysed alone. */
  lemma ComposeMissesTheUnion(services: seq<Service>, files: map<Path, Cached>, have: set<string>, c: Setup, d: string)
    requires AddServices(services, files, have, c).Some?
    ensures forall k :: 0 <= k < |services| ==> AddServices([services[k]], files, have, c).Some?
    ensures d in MissingOf(services, files, have, c) <==>
              exists k :: 0 <= k < |services| && d in MissingOf([services[k]], files, have, c)
  {
    MissingOfIs(services, files, have, c);
    UnionMembers(services, files, c, d);
    ServicesSucceedOnlyIfReadable(services, files, have, c);
    hide AddServices, ServiceDigests, Readable;
    forall k | 0 <= k < |services|
      ensures AddServices([services[k]], files, have, c).Some?
      ensures d in MissingOf([services[k]], files, have, c) <==>
                !Has(d, have) && d in ServiceDigests(services[k], files, c)
    {
      ReadableSucceedsAlone(services[k], files, have, c);
      MissingOfIs([services[k]], files, have, c);
      UnionMembers([services[k]], files, c, d);
      assert [services[k]][0] == services[k];
    }
  }

  // --- the class and its loops ---

  class AnalysisResult {
    const analysisId: string
    var images: seq<Image>
    var presentBlobs: set<string>
    var missingBlobs: seq<MissingBlob>
    var totalMissingSize: int
    var warnings: seq<Warning>

    constructor (analysisId: string, images: seq<Image>)
      ensures this.analysisId == analysisId && this.images == images && Current({}) == NOTHING
    {
      this.analysisId, this.images := analysisId, images;
      presentBlobs, missingBlobs, totalMissingSize, warnings := {}, [], 0, [];
    }

    function Current(seen: set<string>): Totals
      reads this
    {
      Totals(presentBlobs, missingBlobs, totalMissingSize, seen, warnings)
    }

    /** One image: skip internal and private ones, look the manifest up, split its unseen digests. */
    method ResolveImageBlobs(
        image: Image, seen: set<string>, store: Store, cache: ManifestCache, defaultPlatform: string)
      returns (ok: bool, nowSeen: set<string>)
      requires HasPin(image.ref) && cache.Valid() && GoodDigest(cache.digestOf)
      modifies this
      ensures images == old(images)
      ensures var r := AddImage(old(Current(seen)), image, ManifestOf(image, cache.files, defaultPlatform), store.blobs.Keys);
              (ok <==> r.Some?) && (ok ==> Current(nowSeen) == r.value)
    {
      nowSeen := seen;
      if image.isInternal {
        return true, nowSeen;
      }
      if image.isPrivate {
        warnings := warnings + [PrivateSkipped(image.ref.registry)];
        return true, nowSeen;
      }
      if image.ref.tag == Some("latest") {
        warnings := warnings + [UsesLatest(image.resolved)];
      }
      var reference, platform := Reference(image.ref), PlatformOf(image, defaultPlatform);
      var manifest := cache.GetManifest(image.ref.registry, image.ref.repository, reference, platform);
      AnyAnswerIsLook(cache.files, manifest, cache.digestOf, image.ref.registry, image.ref.repository, reference, platform);
      if manifest.None? {
        warnings := warnings + [NotCached(image.resolved)];
        return true, nowSeen;
      }
      var body := manifest.value.body;
      if !Complete(body) {
        return false, nowSeen;
      }
      ghost var before := Current(seen);
      var newDigests := Unseen(NeededDigests(body), seen);
      nowSeen := seen + ToSet(newDigests);
      if newDigests == [] {
        NothingNew(before, image, body, store.blobs.Keys);
        return true, nowSeen;
      }
      var missing := store.ListMissing(newDigests);
      presentBlobs := presentBlobs + (ToSet(newDigests) - ToSet(missing));
      AppendMissing(image, body, missing);
      return true, nowSeen;
    }

    method AppendMissing(image: Image, body: Body, missing: seq<string>)
      modifies this`missingBlobs, this`totalMissingSize
      ensures missingBlobs == old(missingBlobs) + EntriesFor(image, body, missing)
      ensures totalMissingSize == old(totalMissingSize) + SumSizes(EntriesFor(image, body, missing))
    {
      ghost var entries := EntriesFor(image, body, missing);
      for k := 0 to |missing|
        invariant missingBlobs == old(missingBlobs) + entries[..k]
        invariant totalMissingSize == old(totalMissingSize) + SumSizes(entries[..k])
      {
        var info := FindLayerInfo(body, missing[k]);
        var size := if info.size.Some? then info.size.value else 0;
        var mediaType := if info.mediaType.Some? then info.mediaType.value else "";
        missingBlobs := missingBlobs + [MissingBlob(image.ref.registry, image.ref.repository, missing[k], size, mediaType)];
        totalMissingSize := totalMissingSize + size;
        assert entries[..k + 1] == entries[..k] + [entries[k]];
        assert entries[..k + 1][..k] == entries[..k];
      }
      assert entries[..|missing|] == entries;
    }

    method MergeBlobs(blobs: seq<MissingBlob>, seen: set<string>) returns (nowSeen: set<string>)
      modifies this`missingBlobs, this`totalMissingSize
      ensures Current(nowSeen) == MergeMissing(old(Current(seen)), blobs)
    {
      nowSeen := seen;
      for k := 0 to |blobs|
        invariant Current(nowSeen) == MergeMissing(old(Current(seen)), blobs[..k])
      {
        assert blobs[..k + 1][..k] == blobs[..k];
        if blobs[k].digest !in nowSeen {
          nowSeen := nowSeen + {blobs[k].digest};
          missingBlobs := missingBlobs + [blobs[k]];
          totalMissingSize := totalMissingSize + blobs[k].size;
        }
      }
      assert blobs[..|blobs|] == blobs;
    }
  }

  lemma NothingNew(t: Totals, img: Image, m: Body, have: set<string>)
    requires Unseen(NeededDigests(m), t.seen) == []
    ensures AddManifest(t, img, m, have) == t.(seen := t.seen + ToSet<string>([]))
  {
    assert EntriesFor(img, m, []) == [];
    assert t.missing + [] == t.missing;
    assert t.present + (ToSet<string>([]) - ToSet<string>([])) == t.present;
  }

  method ResolveImages(images: seq<Image>, analysisId: string, store: Store, cache: ManifestCache, defaultPlatform: string)
    returns (r: Option<AnalysisResult>)
    requires Pinned(images) && cache.Valid() && GoodDigest(cache.digestOf)
    ensures var t := AddImages(NOTHING, images, cache.files, store.blobs.Keys, defaultPlatform);
            (r.Some? <==> t.Some?) &&
            (r.Some? ==> fresh(r.value) && r.value.images == images && r.value.Current(t.value.seen) == t.value)
  {
    var result := new AnalysisResult(analysisId, images);
    var seen: set<string> := {};
    for k := 0 to |images|
      invariant fresh(result) && result.images == images
      invariant AddImages(NOTHING, images[..k], cache.files, store.blobs.Keys, defaultPlatform) == Some(result.Current(seen))
    {
      assert images[..k + 1][..k] == images[..k];
      var ok, nowSeen := result.ResolveImageBlobs(images[k], seen, store, cache, defaultPlatform);
      if !ok {
        FailureStays(images, k + 1, cache.files, store.blobs.Keys, defaultPlatform);
        return None;
      }
      seen := nowSeen;
    }
    assert images[..|images|] == images;
    return Some(result);
  }

  lemma {:induction false} FailureStays(images: seq<Image>, k: nat, files: map<Path, Cached>, have: set<string>, default: string)
    requires Pinned(images) && k <= |images| && AddImages(NOTHING, images[..k], files, have, default).None?
    ensures AddImages(NOTHING, images, files, have, default).None?
    decreases |images|
  {
    if k == |images| {
      assert images[..k] == images;
    } else {
      var n := |images| - 1;
      assert images[..n][..k] == images[..k];
      FailureStays(images[..n], k, files, have, default);
    }
  }

  /** Parse the Dockerfile, then resolve its images one by one. */
  method ResolveDockerfile(path: string, analysisId: string, c: Setup, store: Store, cache: ManifestCache)
    returns (r: Result<AnalysisResult, Failure>)
    requires cache.Valid() && GoodDigest(cache.digestOf)
    ensures match ImagesAt(path, c)
            case Err(e) => r == Err(Unresolved(e))
            case Ok(images) =>
              var t := AddImages(NOTHING, images, cache.files, store.blobs.Keys, c.defaultPlatform);
              (t.None? <==> r == Err(Malformed)) && (t.Some? <==> r.Ok?) &&
              (r.Ok? ==> fresh(r.value) && r.value.images == images && r.value.Current(t.value.seen) == t.value)
  {
    if path !in c.dockerfiles {
      return Err(Unresolved(NotFound(path)));
    }
    var images := ParseDockerfile(c.dockerfiles[path], c.buildArgs, c.patterns, c.unicode);
    if images.Err? {
      return Err(Unresolved(images.error));
    }
    var result := ResolveImages(images.value, analysisId, store, cache, c.defaultPlatform);
    if result.None? {
      return Err(Malformed);
    }
    return Ok(result.value);
  }

  /** The loop over the services of a Compose file. */
  method ResolveCompose(services: seq<Service>, analysisId: string, c: Setup, store: Store, cache: ManifestCache)
    returns (r: Option<AnalysisResult>)
    requires cache.Valid() && GoodDigest(cache.digestOf)
    ensures var a := AddServices(services, cache.files, store.blobs.Keys, c);
            (r.Some? <==> a.Some?) &&
            (r.Some? ==> r.value.Current(a.value.totals.seen) == a.value.totals && r.value.images == a.value.images)
  {
    var aggregated := new AnalysisResult(analysisId, []);
    var seenRefs: set<string>, seen: set<string> := {}, {};
    ghost var files, have := cache.files, store.blobs.Keys;
    for k := 0 to |services|
      invariant fresh(aggregated) && cache.files == files && store.blobs.Keys == have
      invariant AddServices(services[..k], files, have, c) ==
                Some(Aggregate(aggregated.Current(seen), seenRefs, aggregated.images))
    {
      assert services[..k + 1][..k] == services[..k];
      var svc := services[k];
      if svc.imageRef != "" {
        if svc.imageRef !in seenRefs {
          var image := ImageFromRef(svc.imageRef, c.patterns);
          var ok, nowSeen := aggregated.ResolveImageBlobs(image, seen, store, cache, c.defaultPlatform);
          if !ok {
            ServiceFailureStays(services, k + 1, files, have, c);
            return None;
          }
          aggregated.images := aggregated.images + [image];
          seenRefs, seen := seenRefs + {svc.imageRef}, nowSeen;
        }
      } else if svc.dockerfilePath != "" {
        var sub := ResolveDockerfile(svc.dockerfilePath, "", c, store, cache);
        match sub {
          case Err(Malformed) =>
            ServiceFailureStays(services, k + 1, files, have, c);
            return None;
          case Err(Unresolved(e)) =>
            aggregated.warnings := aggregated.warnings + [ServiceFailed(svc.name, e)];
          case Ok(result) =>
            aggregated.images := aggregated.images + result.images;
            aggregated.presentBlobs := aggregated.presentBlobs + result.presentBlobs;
            seen := aggregated.MergeBlobs(result.missingBlobs, seen);
            aggregated.warnings := aggregated.warnings + result.warnings;
        }
      }
    }
    assert services[..|services|] == services;
    return Some(aggregated);
  }

  lemma {:induction false} ServiceFailureStays(services: seq<Service>, k: nat, files: map<Path, Cached>, have: set<string>, c: Setup)
    requires k <= |services| && AddServices(services[..k], files, have, c).None?
    ensures AddServices(services, files, have, c).None?
    decreases |services|
  {
    hide AddService;
    if k == |services| {
      assert services[..k] == services;
    } else {
      var n := |services| - 1;
      assert services[..n][..k] == services[..k];
      ServiceFailureStays(services[..n], k, files, have, c);
    }
  }
}
