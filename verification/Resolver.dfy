/** From images to the blobs that are missing: the analysis of Dockerfiles and Compose files. */
module Resolver {
  import opened Prelude
  import opened Manifests
  import opened Crypto
  import opened ImageRefs
  import opened Dockerfile
  import Stores
  import opened ManifestCaches

  datatype MissingBlob = MissingBlob(registry: string, repository: string, digest: string, size: int, mediaType: string)

  datatype Warning =
    | PrivateSkipped(registry: string)
    | UsesLatest(resolved: string)
    | NotCached(resolved: string)
    | ServiceFailed(service: string, cause: ResolverError)

  /** How an analysis ends early: a resolver error, or a manifest whose descriptor lacks a digest. */
  datatype Failure = Unresolved(cause: ResolverError) | Malformed

  /** The running result of an analysis, and the digests handled so far. */
  datatype Totals = Totals(
    present: set<string>, missing: seq<MissingBlob>, size: int, seen: set<string>, warnings: seq<Warning>)

  const NOTHING := Totals({}, [], 0, {}, [])

  // --- which manifest an image has ---

  function Reference(ref: Ref): string
    requires HasPin(ref)
  {
    if ref.digest.Some? && ref.digest.value != "" then ref.digest.value else ref.tag.value
  }

  function PlatformOf(img: Image, default: string): string {
    if img.platform.Some? && img.platform.value != "" then img.platform.value else default
  }

  /** The manifest content a look-up yields. By digest it does not matter which file is found. */
  ghost function Look(files: map<Path, Cached>, registry: string, repository: string, reference: string, platform: string)
    : Option<Body>
  {
    if PREFIX <= reference then
      if exists p :: p in files && files[p].sourceDigest == reference then
        var p :| p in files && files[p].sourceDigest == reference;
        Some(files[p].body)
      else None
    else
      var path := CachePath(registry, repository, reference, platform);
      if path in files then Some(files[path].body) else None
  }

  ghost function ManifestOf(img: Image, files: map<Path, Cached>, default: string): Option<Body>
    requires HasPin(img.ref)
  {
    Look(files, img.ref.registry, img.ref.repository, Reference(img.ref), PlatformOf(img, default))
  }

  function ContentOf(m: Option<Cached>): Option<Body> {
    if m.Some? then Some(m.value.body) else None
  }

  lemma AnyAnswerIsLook(
      files: map<Path, Cached>, r: Option<Cached>, digestOf: Body -> string,
      registry: string, repository: string, reference: string, platform: string)
    requires Labelled(files, digestOf) && GoodDigest(digestOf)
    requires MayReturn(files, r, registry, repository, reference, platform)
    ensures ContentOf(r) == Look(files, registry, repository, reference, platform)
  {
    if PREFIX <= reference && r.Some? {
      var p :| p in files && files[p] == r.value;
      assert files[p].sourceDigest == reference;
    }
  }

  // --- one image ---

  function FindLayerInfo(m: Body, digest: string): Descriptor {
    if m.config.Some? && m.config.value.digest == Some(digest) then m.config.value else FindLayer(m.layers, digest)
  }

  function FindLayer(layers: seq<Descriptor>, digest: string): Descriptor {
    if layers == [] then Descriptor(None, None, None)
    else if layers[0].digest == Some(digest) then layers[0]
    else FindLayer(layers[1..], digest)
  }

  lemma {:induction false} FindLayerIsFirst(layers: seq<Descriptor>, k: nat, digest: string)
    requires k < |layers| && layers[k].digest == Some(digest)
    requires forall j :: 0 <= j < k ==> layers[j].digest != Some(digest)
    ensures FindLayer(layers, digest) == layers[k]
  {
    if k > 0 { FindLayerIsFirst(layers[1..], k - 1, digest); }
  }

  /** A missing blob is described by the first descriptor, config before layers, that names its digest. */
  lemma DescribedByFirst(m: Body, k: nat, digest: string)
    requires k < |Descriptors(m)| && Descriptors(m)[k].digest == Some(digest)
    requires forall j :: 0 <= j < k ==> Descriptors(m)[j].digest != Some(digest)
    ensures FindLayerInfo(m, digest) == Descriptors(m)[k]
  {
    if m.config.None? {
      FindLayerIsFirst(m.layers, k, digest);
    } else if k > 0 {
      assert forall j :: 0 <= j < |m.layers| ==> Descriptors(m)[j + 1] == m.layers[j];
      assert Descriptors(m)[0] == m.config.value;
      FindLayerIsFirst(m.layers, k - 1, digest);
    }
  }

  function Unseen(digests: seq<string>, seen: set<string>): seq<string> {
    if digests == [] then []
    else if digests[0] in seen then Unseen(digests[1..], seen)
    else [digests[0]] + Unseen(digests[1..], seen)
  }

  function EntryFor(img: Image, m: Body, digest: string): MissingBlob {
    var info := FindLayerInfo(m, digest);
    MissingBlob(img.ref.registry, img.ref.repository, digest,
                if info.size.Some? then info.size.value else 0,
                if info.mediaType.Some? then info.mediaType.value else "")
  }

  function EntriesFor(img: Image, m: Body, digests: seq<string>): seq<MissingBlob> {
    seq(|digests|, k requires 0 <= k < |digests| => EntryFor(img, m, digests[k]))
  }

  function SumSizes(blobs: seq<MissingBlob>): int {
    if blobs == [] then 0 else SumSizes(blobs[..|blobs| - 1]) + blobs[|blobs| - 1].size
  }

  function AddManifest(t: Totals, img: Image, m: Body, have: set<string>): Totals {
    var unseen := Unseen(NeededDigests(m), t.seen);
    var missing := Stores.Missing(unseen, have);
    var entries := EntriesFor(img, m, missing);
    Totals(t.present + (ToSet(unseen) - ToSet(missing)), t.missing + entries, t.size + SumSizes(entries),
           t.seen + ToSet(unseen), t.warnings)
  }

  function Warn(t: Totals, w: Warning): Totals {
    t.(warnings := t.warnings + [w])
  }

  /** One image; None when its manifest is malformed. */
  function AddImage(t: Totals, img: Image, found: Option<Body>, have: set<string>): Option<Totals> {
    if img.isInternal then Some(t)
    else if img.isPrivate then Some(Warn(t, PrivateSkipped(img.ref.registry)))
    else
      var t1 := if img.ref.tag == Some("latest") then Warn(t, UsesLatest(img.resolved)) else t;
      if found.None? then Some(Warn(t1, NotCached(img.resolved)))
      else if !Complete(found.value) then None
      else Some(AddManifest(t1, img, found.value, have))
  }

  ghost predicate Pinned(images: seq<Image>) {
    forall k :: 0 <= k < |images| ==> HasPin(images[k].ref)
  }

  ghost function AddImages(t: Totals, images: seq<Image>, files: map<Path, Cached>, have: set<string>, default: string)
    : Option<Totals>
    requires Pinned(images)
  {
    if images == [] then Some(t)
    else
      var before := AddImages(t, images[..|images| - 1], files, have, default);
      var img := images[|images| - 1];
      if before.None? then None else AddImage(before.value, img, ManifestOf(img, files, default), have)
  }

  // --- what an analysis has to find ---

  predicate External(img: Image) {
    !img.isInternal && !img.isPrivate
  }

  /** The digests an image contributes: all of its manifest's, if it is external and has one. */
  ghost function ImageDigests(img: Image, files: map<Path, Cached>, default: string): seq<string>
    requires HasPin(img.ref)
  {
    var m := ManifestOf(img, files, default);
    if External(img) && m.Some? then NeededDigests(m.value) else []
  }

  ghost function AllDigests(images: seq<Image>, files: map<Path, Cached>, default: string): set<string>
    requires Pinned(images)
  {
    if images == [] then {}
    else AllDigests(images[..|images| - 1], files, default) +
         ToSet(ImageDigests(images[|images| - 1], files, default))
  }

  function DigestList(blobs: seq<MissingBlob>): seq<string> {
    seq(|blobs|, k requires 0 <= k < |blobs| => blobs[k].digest)
  }

  function InStore(digests: set<string>, have: set<string>): set<string> {
    set d | d in digests && Stores.Has(d, have)
  }

  function NotInStore(digests: set<string>, have: set<string>): set<string> {
    set d | d in digests && !Stores.Has(d, have)
  }

  /** The totals account for exactly the digests `all`: what is in the store, what is not, and the sizes add up. */
  ghost predicate Accounts(t: Totals, all: set<string>, have: set<string>) {
    && t.present == InStore(all, have)
    && ToSet(DigestList(t.missing)) == NotInStore(all, have)
    && t.size == SumSizes(t.missing)
  }

  // --- list facts ---

  lemma {:induction false} UnseenMembers(digests: seq<string>, seen: set<string>)
    ensures ToSet(Unseen(digests, seen)) == ToSet(digests) - seen
  {
    if digests != [] {
      UnseenMembers(digests[1..], seen);
      ToSetSplit(digests);
      ToSetAppend([digests[0]], Unseen(digests[1..], seen));
    }
  }

  lemma {:induction false} MissingMembers(digests: seq<string>, have: set<string>)
    ensures ToSet(Stores.Missing(digests, have)) == NotInStore(ToSet(digests), have)
  {
    if digests != [] {
      MissingMembers(digests[1..], have);
      ToSetSplit(digests);
      ToSetAppend([digests[0]], Stores.Missing(digests[1..], have));
    }
  }

  lemma {:induction false} SumSizesAppend(a: seq<MissingBlob>, b: seq<MissingBlob>)
    ensures SumSizes(a + b) == SumSizes(a) + SumSizes(b)
  {
    if b == [] {
      assert a + b == a;
    } else {
      SumSizesAppend(a, b[..|b| - 1]);
      assert (a + b)[..|a + b| - 1] == a + b[..|b| - 1];
    }
  }

  lemma DigestListAppend(a: seq<MissingBlob>, b: seq<MissingBlob>)
    ensures DigestList(a + b) == DigestList(a) + DigestList(b)
  {
  }

  lemma EntriesDigests(img: Image, m: Body, digests: seq<string>)
    ensures DigestList(EntriesFor(img, m, digests)) == digests
  {
  }

  // --- the partition ---

  lemma AddManifestAccounts(t: Totals, img: Image, m: Body, all: set<string>, have: set<string>)
    requires Accounts(t, all, have) && t.seen <= all
    ensures var after := AddManifest(t, img, m, have);
            after.seen == t.seen + ToSet(NeededDigests(m)) && Accounts(after, all + ToSet(NeededDigests(m)), have)
  {
    hide Unseen, Stores.Missing, SumSizes, NeededDigests, EntriesFor, DigestList, ToSet;
    var unseen := Unseen(NeededDigests(m), t.seen);
    var missing := Stores.Missing(unseen, have);
    var entries := EntriesFor(img, m, missing);
    UnseenMembers(NeededDigests(m), t.seen);
    MissingMembers(unseen, have);
    EntriesDigests(img, m, missing);
    DigestListAppend(t.missing, entries);
    ToSetAppend(DigestList(t.missing), missing);
    SumSizesAppend(t.missing, entries);
  }

  lemma AddImageAccounts(
      t: Totals, img: Image, files: map<Path, Cached>, all: set<string>, have: set<string>, default: string)
    requires HasPin(img.ref) && Accounts(t, all, have) && t.seen <= all
    ensures var r := AddImage(t, img, ManifestOf(img, files, default), have);
            r.Some? ==> r.value.seen == t.seen + ToSet(ImageDigests(img, files, default)) &&
                        Accounts(r.value, all + ToSet(ImageDigests(img, files, default)), have)
  {
    hide AddManifest, NeededDigests, ManifestOf, InStore, NotInStore, SumSizes, DigestList;
    var found := ManifestOf(img, files, default);
    ToSetOfNothing<string>();
    if External(img) && found.Some? && Complete(found.value) {
      var t1 := if img.ref.tag == Some("latest") then Warn(t, UsesLatest(img.resolved)) else t;
      AddManifestAccounts(t1, img, found.value, all, have);
    } else {
      assert all + {} == all;
    }
  }

  /** An analysis accounts for exactly the union of the config and layer digests of all found manifests of
      external images that are not private: those in the store are present, all others are missing. */
  lemma {:induction false} AnalysisAccounts(images: seq<Image>, files: map<Path, Cached>, have: set<string>, default: string)
    requires Pinned(images)
    ensures var r := AddImages(NOTHING, images, files, have, default);
            r.Some? ==> r.value.seen == AllDigests(images, files, default) && Accounts(r.value, r.value.seen, have)
  {
    hide ImageDigests, ManifestOf, AddImage, NotInStore, InStore;
    if images == [] {
      NothingAccounts(have);
    } else {
      var before, img := images[..|images| - 1], images[|images| - 1];
      AnalysisAccounts(before, files, have, default);
      var t := AddImages(NOTHING, before, files, have, default);
      if t.Some? { AddImageAccounts(t.value, img, files, t.value.seen, have, default); }
    }
  }

  lemma NothingAccounts(have: set<string>)
    ensures Accounts(NOTHING, {}, have)
  {
  }

  /** In set terms: present and missing are disjoint and together are everything that is needed. */
  lemma PresentAndMissingPartition(images: seq<Image>, files: map<Path, Cached>, have: set<string>, default: string)
    requires Pinned(images) && AddImages(NOTHING, images, files, have, default).Some?
    ensures var t := AddImages(NOTHING, images, files, have, default).value;
            t.present !! ToSet(DigestList(t.missing)) &&
            t.present + ToSet(DigestList(t.missing)) == AllDigests(images, files, default) &&
            t.size == SumSizes(t.missing)
  {
    AnalysisAccounts(images, files, have, default);
  }

  lemma NothingMissingFrom(t: Totals, all: set<string>, have: set<string>)
    requires Accounts(t, all, have)
    ensures t.missing == [] <==> forall d :: d in all ==> Stores.Has(d, have)
    ensures t.missing == [] ==> t.size == 0
  {
    if t.missing != [] {
      assert DigestList(t.missing)[0] in ToSet(DigestList(t.missing));
      assert DigestList(t.missing)[0] in NotInStore(all, have);
    } else {
      assert DigestList(t.missing) == [];
      assert NotInStore(all, have) == {};
      assert forall d :: d in all && !Stores.Has(d, have) ==> d in NotInStore(all, have);
    }
  }

  /** Nothing is missing, and the size is 0, exactly when the store holds every needed digest. */
  lemma NothingMissingIff(images: seq<Image>, files: map<Path, Cached>, have: set<string>, default: string)
    requires Pinned(images) && AddImages(NOTHING, images, files, have, default).Some?
    ensures var t := AddImages(NOTHING, images, files, have, default).value;
            (t.missing == [] <==> forall d :: d in AllDigests(images, files, default) ==> Stores.Has(d, have)) &&
            (t.missing == [] ==> t.size == 0)
  {
    AnalysisAccounts(images, files, have, default);
    NothingMissingFrom(AddImages(NOTHING, images, files, have, default).value, AllDigests(images, files, default), have);
  }

  ghost predicate IsMalformed(img: Image, files: map<Path, Cached>, default: string)
    requires HasPin(img.ref)
  {
    var m := ManifestOf(img, files, default);
    External(img) && m.Some? && !Complete(m.value)
  }

  /** An analysis fails exactly when the manifest found for some external image has a descriptor without digest. */
  lemma {:induction false} MalformedIff(images: seq<Image>, files: map<Path, Cached>, have: set<string>, default: string)
    requires Pinned(images)
    ensures AddImages(NOTHING, images, files, have, default).None? <==>
            exists k :: 0 <= k < |images| && IsMalformed(images[k], files, default)
  {
    hide AddManifest, ManifestOf, Complete;
    if images != [] {
      var n := |images| - 1;
      MalformedIff(images[..n], files, have, default);
      assert forall k :: 0 <= k < n ==> images[..n][k] == images[k];
      if k :| 0 <= k < n && IsMalformed(images[..n][k], files, default) { assert IsMalformed(images[k], files, default); }
      if k :| 0 <= k < n && IsMalformed(images[k], files, default) { assert IsMalformed(images[..n][k], files, default); }
    }
  }

  // --- repetitions ---

  /** A digest that is neither seen nor stored stands twice in the list. */
  ghost predicate RepeatsMissing(digests: seq<string>, seen: set<string>, have: set<string>) {
    exists i, j :: 0 <= i < j < |digests| && digests[i] == digests[j] && digests[i] !in seen && !Stores.Has(digests[i], have)
  }

  predicate Wanted(d: string, seen: set<string>, have: set<string>) {
    d !in seen && !Stores.Has(d, have)
  }

  lemma RepeatsInTail(digests: seq<string>, seen: set<string>, have: set<string>)
    requires digests != []
    ensures RepeatsMissing(digests, seen, have) <==>
              RepeatsMissing(digests[1..], seen, have) || (digests[0] in digests[1..] && Wanted(digests[0], seen, have))
  {
    var tail := digests[1..];
    if RepeatsMissing(digests, seen, have) {
      var i, j :| 0 <= i < j < |digests| && digests[i] == digests[j] && digests[i] !in seen && !Stores.Has(digests[i], have);
      assert tail[j - 1] == digests[j];
      if i > 0 { assert tail[i - 1] == digests[i]; }
    }
    if RepeatsMissing(tail, seen, have) {
      var i, j :| 0 <= i < j < |tail| && tail[i] == tail[j] && tail[i] !in seen && !Stores.Has(tail[i], have);
      assert digests[i + 1] == tail[i] && digests[j + 1] == tail[j];
    } else if digests[0] in tail && Wanted(digests[0], seen, have) {
      var j :| 0 <= j < |tail| && tail[j] == digests[0];
      assert digests[0] == digests[j + 1];
    }
  }

  lemma {:induction false} MissingRepeatsIff(digests: seq<string>, seen: set<string>, have: set<string>)
    ensures NoDup(Stores.Missing(Unseen(digests, seen), have)) <==> !RepeatsMissing(digests, seen, have)
  {
    if digests != [] {
      var tail := Unseen(digests[1..], seen);
      var rest := Stores.Missing(tail, have);
      MissingRepeatsIff(digests[1..], seen, have);
      RepeatsInTail(digests, seen, have);
      UnseenMembers(digests[1..], seen);
      MissingMembers(tail, have);
      if digests[0] !in seen { assert ([digests[0]] + tail)[1..] == tail; }
      NoDupAppend([digests[0]], rest);
      hide RepeatsMissing;
      assert ToSet([digests[0]]) == {digests[0]};
      if Wanted(digests[0], seen, have) {
        assert Stores.Missing(Unseen(digests, seen), have) == [digests[0]] + rest;
        assert digests[0] in ToSet(rest) <==> digests[0] in ToSet(digests[1..]);
      } else {
        assert Stores.Missing(Unseen(digests, seen), have) == rest;
      }
    }
  }

  lemma AddManifestRepeats(t: Totals, img: Image, m: Body, have: set<string>)
    requires ToSet(DigestList(t.missing)) <= t.seen
    ensures NoDup(DigestList(AddManifest(t, img, m, have).missing)) <==>
              NoDup(DigestList(t.missing)) && !RepeatsMissing(NeededDigests(m), t.seen, have)
  {
    hide NoDup, RepeatsMissing, NeededDigests, Unseen, Stores.Missing, EntriesFor, ToSet, DigestList;
    var unseen := Unseen(NeededDigests(m), t.seen);
    var missing := Stores.Missing(unseen, have);
    UnseenMembers(NeededDigests(m), t.seen);
    MissingMembers(unseen, have);
    EntriesDigests(img, m, missing);
    DigestListAppend(t.missing, EntriesFor(img, m, missing));
    MissingRepeatsIff(NeededDigests(m), t.seen, have);
    NoDupAppend(DigestList(t.missing), missing);
  }

  ghost predicate RepeatFree(images: seq<Image>, files: map<Path, Cached>, have: set<string>, default: string)
    requires Pinned(images)
  {
    images != [] ==>
      RepeatFree(images[..|images| - 1], files, have, default) &&
      !RepeatsMissing(ImageDigests(images[|images| - 1], files, default),
                      AllDigests(images[..|images| - 1], files, default), have)
  }

  lemma NoRepeatInNothing(seen: set<string>, have: set<string>)
    ensures !RepeatsMissing([], seen, have)
  {
  }

  /** A blob is listed twice exactly when some manifest repeats a digest that is missing and that no earlier
      manifest needs: digests are marked as seen only after a whole manifest has been filtered. */
  lemma {:induction false} NothingListedTwiceIff(
      images: seq<Image>, files: map<Path, Cached>, have: set<string>, default: string)
    requires Pinned(images) && AddImages(NOTHING, images, files, have, default).Some?
    ensures NoDup(DigestList(AddImages(NOTHING, images, files, have, default).value.missing)) <==>
              RepeatFree(images, files, have, default)
  {
    hide NoDup, RepeatsMissing, ManifestOf, AddManifest, DigestList, NeededDigests;
    if images == [] {
      assert NoDup(DigestList([])) by { NoDupOfNothing(); }
    } else {
      var before, img := images[..|images| - 1], images[|images| - 1];
      NothingListedTwiceIff(before, files, have, default);
      AnalysisAccounts(before, files, have, default);
      var t := AddImages(NOTHING, before, files, have, default).value;
      var found := ManifestOf(img, files, default);
      if External(img) && found.Some? {
        var t1 := if img.ref.tag == Some("latest") then Warn(t, UsesLatest(img.resolved)) else t;
        AddManifestRepeats(t1, img, found.value, have);
      } else {
        NoRepeatInNothing(AllDigests(before, files, default), have);
      }
    }
  }

  lemma NoDupOfNothing()
    ensures NoDup(DigestList([]))
  {
  }

  /** In particular nothing is listed twice when every manifest's digests are distinct. */
  lemma {:induction false} DistinctDigestsNoRepeats(
      images: seq<Image>, files: map<Path, Cached>, have: set<string>, default: string)
    requires Pinned(images)
    requires forall k :: 0 <= k < |images| ==> NoDup(ImageDigests(images[k], files, default))
    ensures RepeatFree(images, files, have, default)
  {
    hide ImageDigests;
    if images != [] {
      var before, img := images[..|images| - 1], images[|images| - 1];
      assert forall k :: 0 <= k < |before| ==> NoDup(ImageDigests(before[k], files, default));
      DistinctDigestsNoRepeats(before, files, have, default);
      assert NoDup(ImageDigests(img, files, default));
    }
  }

  /** A layer that a manifest repeats is requested twice and counted twice. */
  lemma RepeatedLayerCountsTwice(img: Image, digest: string, size: int, have: set<string>)
    requires !Stores.Has(digest, have)
    ensures var layer := Descriptor(Some(digest), Some(size), None);
            var after := AddManifest(NOTHING, img, Body(None, [layer, layer], None, ""), have);
            DigestList(after.missing) == [digest, digest] && after.size == 2 * size
  {
    var layer := Descriptor(Some(digest), Some(size), None);
    var m := Body(None, [layer, layer], None, "");
    assert Descriptors(m) == [layer, layer];
    assert [layer, layer][1..] == [layer] && [layer][1..] == [];
    assert DigestsOf([layer]) == [digest];
    assert NeededDigests(m) == [digest, digest];
    assert [digest, digest][1..] == [digest] && [digest][1..] == [];
    assert Unseen([digest], {}) == [digest];
    assert Unseen([digest, digest], {}) == [digest, digest];
    assert Stores.Missing([digest], have) == [digest];
    assert Stores.Missing([digest, digest], have) == [digest, digest];
    var e := EntryFor(img, m, digest);
    assert e.size == size;
    assert EntriesFor(img, m, [digest, digest]) == [e, e];
    assert [e, e][..1] == [e] && [e][..0] == [];
    assert SumSizes([e]) == size;
  }
}
