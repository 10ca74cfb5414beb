/** The online run: fetch what a request asks for, its images' manifests, and what those manifests need. */
module OnlineFetch {
  import opened Prelude
  import opened Strings
  import opened Crypto
  import opened Manifests
  import opened Resolver
  import opened Fetching
  import opened ManifestCaches
  import Stores

  datatype ImageRequest = ImageRequest(registry: string, repository: string, tag: Option<string>, platform: string)

  datatype Request = Request(sourceId: string, images: seq<ImageRequest>, blobs: seq<MissingBlob>)

  /** An entry of a manifest index. */
  datatype IndexEntry = IndexEntry(
    digest: Option<string>, os: Option<string>, architecture: Option<string>, variant: Option<string>, isAttestation: bool)

  /** What a registry answers to a manifest request; `entries` matters for an index only. */
  datatype Upstream = Upstream(body: Body, entries: seq<IndexEntry>)

  /** A manifest on its way offline, with the platform in its file-name form. */
  datatype Shipped = Shipped(registry: string, repository: string, tag: string, platformFile: string, body: Body)

  // --- grouping by registry ---

  /** A Python dict of lists: groups in order of first insertion. */
  type Groups = seq<(string, seq<MissingBlob>)>

  function GroupIndex(groups: Groups, registry: string): (k: nat)
    ensures k <= |groups| && (k < |groups| ==> groups[k].0 == registry)
    ensures forall j :: 0 <= j < k ==> groups[j].0 != registry
  {
    if groups == [] then 0
    else if groups[0].0 == registry then 0
    else 1 + GroupIndex(groups[1..], registry)
  }

  function AddToGroup(groups: Groups, blob: MissingBlob): Groups {
    var k := GroupIndex(groups, blob.registry);
    if k < |groups| then groups[k := (blob.registry, groups[k].1 + [blob])]
    else groups + [(blob.registry, [blob])]
  }

  function Ungroup(groups: Groups): seq<MissingBlob> {
    if groups == [] then [] else Ungroup(groups[..|groups| - 1]) + groups[|groups| - 1].1
  }

  /** One group per registry, and every blob in the group of its own registry. */
  ghost predicate GroupedByRegistry(groups: Groups) {
    && (forall k, b :: 0 <= k < |groups| && b in groups[k].1 ==> b.registry == groups[k].0)
    && forall j, k :: 0 <= j < k < |groups| ==> groups[j].0 != groups[k].0
  }

  lemma TailOfGroups(groups: Groups, k: nat)
    requires k < |groups| - 1
    ensures var n := |groups| - 1; var tail := groups[k + 1..];
            groups[..n][..k] == groups[..k] && groups[..n][k] == groups[k] &&
            tail != [] && tail[..|tail| - 1] == groups[..n][k + 1..] && tail[|tail| - 1] == groups[n]
  {
  }

  lemma UngroupMore(groups: Groups)
    requires groups != []
    ensures var n := |groups| - 1; multiset(Ungroup(groups)) == multiset(Ungroup(groups[..n])) + multiset(groups[n].1)
  {
  }

  lemma {:induction false} UngroupSplit(groups: Groups, k: nat)
    requires k < |groups|
    ensures multiset(Ungroup(groups)) ==
            multiset(Ungroup(groups[..k])) + multiset(groups[k].1) + multiset(Ungroup(groups[k + 1..]))
  {
    UngroupMore(groups);
    if k == |groups| - 1 {
      assert groups[k + 1..] == [];
    } else {
      TailOfGroups(groups, k);
      UngroupMore(groups[k + 1..]);
      hide Ungroup;
      UngroupSplit(groups[..|groups| - 1], k);
    }
  }

  lemma AddToGroupKeeps(groups: Groups, blob: MissingBlob)
    requires GroupedByRegistry(groups)
    ensures GroupedByRegistry(AddToGroup(groups, blob))
    ensures multiset(Ungroup(AddToGroup(groups, blob))) == multiset(Ungroup(groups)) + multiset{blob}
  {
    var k := GroupIndex(groups, blob.registry);
    var after := AddToGroup(groups, blob);
    if k < |groups| {
      UngroupSplit(groups, k);
      UngroupSplit(after, k);
      assert after[..k] == groups[..k] && after[k + 1..] == groups[k + 1..];
    } else {
      assert after[..|groups|] == groups;
    }
  }

  function GroupsOf(blobs: seq<MissingBlob>): Groups {
    if blobs == [] then [] else AddToGroup(GroupsOf(blobs[..|blobs| - 1]), blobs[|blobs| - 1])
  }

  method GroupByRegistry(blobs: seq<MissingBlob>) returns (groups: Groups)
    ensures groups == GroupsOf(blobs) && GroupedByRegistry(groups)
    ensures multiset(Ungroup(groups)) == multiset(blobs)
  {
    hide GroupedByRegistry, Ungroup, AddToGroup;
    groups := [];
    NoGroups();
    for k := 0 to |blobs|
      invariant groups == GroupsOf(blobs[..k])
      invariant GroupedByRegistry(groups) && multiset(Ungroup(groups)) == multiset(blobs[..k])
    {
      assert blobs[..k + 1][..k] == blobs[..k];
      AddToGroupKeeps(groups, blobs[k]);
      groups := AddToGroup(groups, blobs[k]);
      assert blobs[..k + 1] == blobs[..k] + [blobs[k]];
    }
    assert blobs[..|blobs|] == blobs;
  }

  lemma NoGroups()
    ensures GroupedByRegistry([]) && Ungroup([]) == []
  {
  }

  // --- fetching group after group ---

  const NO_RESULT := FetchResult([], [], [])

  function Total(a: FetchResult, b: FetchResult): FetchResult {
    FetchResult(a.downloaded + b.downloaded, a.skipped + b.skipped, a.errors + b.errors)
  }

  /** Every digest ends in exactly one list, and what was not refused is cached. */
  ghost predicate Conserves(r: FetchResult, digests: multiset<string>, have: set<string>) {
    && multiset(r.downloaded) + multiset(r.skipped) + multiset(ErrorDigests(r.errors)) == digests
    && forall d :: d in r.downloaded || d in r.skipped ==> Stores.Has(d, have)
  }

  lemma ConservesTotal(
      a: FetchResult, b: FetchResult, da: multiset<string>, db: multiset<string>, have: set<string>, more: set<string>)
    requires Conserves(a, da, have) && Conserves(b, db, more) && have <= more
    ensures Conserves(Total(a, b), da + db, more)
  {
    assert ErrorDigests(a.errors + b.errors) == ErrorDigests(a.errors) + ErrorDigests(b.errors);
  }

  lemma WithoutBlob(b: seq<MissingBlob>, k: nat)
    requires k < |b|
    ensures var rest := b[..k] + b[k + 1..];
            multiset(b) == multiset(rest) + multiset{b[k]} &&
            multiset(DigestList(b)) == multiset(DigestList(rest)) + multiset{b[k].digest}
  {
    TakeOut(b, k);
    TakeOut(DigestList(b), k);
    assert DigestList(b[..k] + b[k + 1..]) == DigestList(b)[..k] + DigestList(b)[k + 1..];
  }

  lemma Cancel<T>(a: multiset<T>, b: multiset<T>, x: T)
    requires a + multiset{x} == b + multiset{x}
    ensures a == b
  {
    assert a == a + multiset{x} - multiset{x};
    assert b == b + multiset{x} - multiset{x};
  }

  lemma {:induction false} DigestMultiset(a: seq<MissingBlob>, b: seq<MissingBlob>)
    requires multiset(a) == multiset(b)
    ensures multiset(DigestList(a)) == multiset(DigestList(b))
    decreases |a|
  {
    hide DigestList;
    if a == [] {
      assert |multiset(b)| == 0;
      assert b == [];
    } else {
      assert a[0] in multiset(b);
      var k :| 0 <= k < |b| && b[k] == a[0];
      WithoutBlob(a, 0);
      WithoutBlob(b, k);
      var resta, restb := a[..0] + a[1..], b[..k] + b[k + 1..];
      Cancel(multiset(resta), multiset(restb), a[0]);
      DigestMultiset(resta, restb);
    }
  }

  /** The replies to a worker's attempts, by group. */
  type Net = (nat, nat, nat) -> Reply

  function NetOf(net: Net, g: nat): (nat, nat) -> Reply {
    (worker: nat, attempt: nat) => net(g, worker, attempt)
  }

  /** The names in the cache after the groups. */
  function HaveAfter(groups: Groups, have: set<string>, sha: Bytes -> string, net: Net): set<string> {
    if groups == [] then have
    else
      var n := |groups| - 1;
      var before := HaveAfter(groups[..n], have, sha, net);
      before + FetchedNames(ToFetch(groups[n].1, before), sha, NetOf(net, n))
  }

  /** The downloads submitted for the g-th group. */
  function WorkersOf(groups: Groups, g: nat, have: set<string>, sha: Bytes -> string, net: Net): seq<Worker>
    requires g < |groups|
  {
    ToFetch(groups[g].1, HaveAfter(groups[..g], have, sha, net))
  }

  /** Some worker meets an unexpected exception. */
  ghost predicate PassCrashes(groups: Groups, have: set<string>, sha: Bytes -> string, net: Net) {
    exists g :: 0 <= g < |groups| && GroupCrashes(groups, g, have, sha, net)
  }

  ghost predicate GroupCrashes(groups: Groups, g: nat, have: set<string>, sha: Bytes -> string, net: Net)
    requires g < |groups|
  {
    !NoneCrashes(WorkersOf(groups, g, have, sha, net), sha, NetOf(net, g))
  }

  /** Every submitted download brings its blob. */
  ghost predicate PassFetches(groups: Groups, have: set<string>, sha: Bytes -> string, net: Net) {
    forall g, w :: 0 <= g < |groups| && w in WorkersOf(groups, g, have, sha, net) ==>
      OutcomeOf(sha, w, NetOf(net, g)).Fetched?
  }

  /** What a pass over the groups brings, skips and reports. */
  function PassResult(groups: Groups, have: set<string>, sha: Bytes -> string, net: Net): FetchResult {
    if groups == [] then NO_RESULT
    else
      var n := |groups| - 1;
      Total(PassResult(groups[..n], have, sha, net), PartOf(groups, n, have, sha, net))
  }

  /** The same lists, downloads and errors in any order. */
  ghost predicate SameLists(a: FetchResult, b: FetchResult) {
    multiset(a.downloaded) == multiset(b.downloaded) && a.skipped == b.skipped && multiset(a.errors) == multiset(b.errors)
  }

  lemma SameListsTotal(a: FetchResult, b: FetchResult, x: FetchResult, y: FetchResult)
    requires SameLists(a, x) && SameLists(b, y)
    ensures SameLists(Total(a, b), Total(x, y))
  {
  }

  lemma PassOfMore(groups: Groups, g: nat, have: set<string>, sha: Bytes -> string, net: Net)
    requires g < |groups|
    ensures HaveAfter(groups[..g + 1], have, sha, net) ==
            HaveAfter(groups[..g], have, sha, net) + FetchedNames(WorkersOf(groups, g, have, sha, net), sha, NetOf(net, g))
    ensures PassResult(groups[..g + 1], have, sha, net) ==
            Total(PassResult(groups[..g], have, sha, net), PartOf(groups, g, have, sha, net))
  {
    assert groups[..g + 1][..g] == groups[..g];
  }

  lemma {:induction false} NoFailuresIff(ws: seq<Worker>, sha: Bytes -> string, net: (nat, nat) -> Reply)
    requires NoneCrashes(ws, sha, net)
    ensures FailedErrors(ws, sha, net) == [] <==> forall w :: w in ws ==> OutcomeOf(sha, w, net).Fetched?
  {
    hide OutcomeOf;
    if ws != [] {
      var n := |ws| - 1;
      NoFailuresIff(ws[..n], sha, net);
      assert ws == ws[..n] + [ws[n]];
    }
  }

  /** Without crashes a pass reports no errors exactly when every submitted download brings its blob. */
  lemma {:induction false} PassFetchesIff(groups: Groups, have: set<string>, sha: Bytes -> string, net: Net)
    requires !PassCrashes(groups, have, sha, net)
    ensures PassResult(groups, have, sha, net).errors == [] <==> PassFetches(groups, have, sha, net)
  {
    hide OutcomeOf, FailedErrors, FetchedDigests, Skipped, FetchedNames, NoneCrashes, ToFetch;
    if groups != [] {
      var n := |groups| - 1;
      forall g | 0 <= g < n ensures groups[..n][..g] == groups[..g] && groups[..n][g] == groups[g] {}
      assert !GroupCrashes(groups, n, have, sha, net);
      assert forall g :: 0 <= g < n ==> GroupCrashes(groups[..n], g, have, sha, net) == GroupCrashes(groups, g, have, sha, net);
      PassFetchesIff(groups[..n], have, sha, net);
      assert forall g :: 0 <= g < n ==> WorkersOf(groups[..n], g, have, sha, net) == WorkersOf(groups, g, have, sha, net);
      NoFailuresIff(WorkersOf(groups, n, have, sha, net), sha, NetOf(net, n));
      LastPassFetches(groups, have, sha, net);
    }
  }

  lemma LastPassFetches(groups: Groups, have: set<string>, sha: Bytes -> string, net: Net)
    requires groups != []
    ensures var n := |groups| - 1;
            PassFetches(groups, have, sha, net) <==>
            PassFetches(groups[..n], have, sha, net) &&
            forall w :: w in WorkersOf(groups, n, have, sha, net) ==> OutcomeOf(sha, w, NetOf(net, n)).Fetched?
  {
    hide OutcomeOf, ToFetch, HaveAfter;
    var n := |groups| - 1;
    forall g | 0 <= g < n ensures WorkersOf(groups[..n], g, have, sha, net) == WorkersOf(groups, g, have, sha, net) {
      assert groups[..n][..g] == groups[..g];
    }
  }

  /** One fetcher per registry; an unexpected exception ends the run. */
  method FetchAll(blobs: seq<MissingBlob>, cache: Cache, net: Net, now: int) returns (r: Option<FetchResult>)
    requires cache.Valid()
    modifies cache
    ensures cache.Valid() && Extends(old(cache.blobs), cache.blobs)
    ensures r.None? <==> PassCrashes(GroupsOf(blobs), old(cache.blobs).Keys, cache.sha, net)
    ensures r.Some? ==> cache.blobs.Keys == HaveAfter(GroupsOf(blobs), old(cache.blobs).Keys, cache.sha, net)
    ensures r.Some? ==> SameLists(r.value, PassResult(GroupsOf(blobs), old(cache.blobs).Keys, cache.sha, net))
    ensures r.Some? ==> Conserves(r.value, multiset(DigestList(blobs)), cache.blobs.Keys)
  {
    hide Conserves, Ungroup, GroupedByRegistry, Extends, OutcomeOf, BroughtBy, HaveAfter, PassResult, SameLists, NoneCrashes,
         FetchedNames, FetchedDigests, FailedErrors, Skipped, ToFetch;
    var groups := GroupByRegistry(blobs);
    var result := NO_RESULT;
    ghost var have, sha := cache.blobs.Keys, cache.sha;
    NothingConserved(cache.blobs.Keys);
    NothingPassed(groups, have, sha, net);
    ExtendsItself(cache.blobs);
    for g := 0 to |groups|
      invariant cache.Valid() && Extends(old(cache.blobs), cache.blobs)
      invariant cache.blobs.Keys == HaveAfter(groups[..g], have, sha, net)
      invariant SameLists(result, PassResult(groups[..g], have, sha, net))
      invariant forall j :: 0 <= j < g ==> !GroupCrashes(groups, j, have, sha, net)
      invariant Conserves(result, multiset(DigestList(Ungroup(groups[..g]))), cache.blobs.Keys)
    {
      ghost var before := cache.blobs;
      var fetcher := new Fetcher(cache);
      var part := fetcher.Fetch(groups[g].1, NetOf(net, g), now);
      ExtendsThrough(old(cache.blobs), before, cache.blobs);
      if part.None? {
        assert GroupCrashes(groups, g, have, sha, net);
        return None;
      }
      ResultConserves(part.value, groups[g].1, cache.blobs.Keys);
      ConservesTotal(result, part.value, multiset(DigestList(Ungroup(groups[..g]))), multiset(DigestList(groups[g].1)),
                     before.Keys, cache.blobs.Keys);
      OneMoreGroup(groups, g);
      PassOfMore(groups, g, have, sha, net);
      PartIsSame(part.value, groups, g, have, sha, net);
      SameListsTotal(result, part.value, PassResult(groups[..g], have, sha, net), PartOf(groups, g, have, sha, net));
      result := Total(result, part.value);
    }
    assert groups[..|groups|] == groups;
    DigestMultiset(Ungroup(groups), blobs);
    return Some(result);
  }

  function PartOf(groups: Groups, g: nat, have: set<string>, sha: Bytes -> string, net: Net): FetchResult
    requires g < |groups|
  {
    var ws := WorkersOf(groups, g, have, sha, net);
    FetchResult(FetchedDigests(ws, sha, NetOf(net, g)), Skipped(groups[g].1, HaveAfter(groups[..g], have, sha, net)),
                FailedErrors(ws, sha, NetOf(net, g)))
  }

  lemma PartIsSame(r: FetchResult, groups: Groups, g: nat, have: set<string>, sha: Bytes -> string, net: Net)
    requires g < |groups|
    requires var ws := WorkersOf(groups, g, have, sha, net);
             r.skipped == Skipped(groups[g].1, HaveAfter(groups[..g], have, sha, net)) &&
             multiset(r.downloaded) == multiset(FetchedDigests(ws, sha, NetOf(net, g))) &&
             multiset(r.errors) == multiset(FailedErrors(ws, sha, NetOf(net, g)))
    ensures SameLists(r, PartOf(groups, g, have, sha, net))
  {
  }

  lemma NothingPassed(groups: Groups, have: set<string>, sha: Bytes -> string, net: Net)
    ensures HaveAfter(groups[..0], have, sha, net) == have
    ensures SameLists(NO_RESULT, PassResult(groups[..0], have, sha, net))
  {
  }

  lemma ResultConserves(r: FetchResult, blobs: seq<MissingBlob>, have: set<string>)
    requires multiset(r.downloaded) + multiset(r.skipped) + multiset(ErrorDigests(r.errors)) == multiset(DigestList(blobs))
    requires forall d :: d in r.downloaded || d in r.skipped ==> Stores.Has(d, have)
    ensures Conserves(r, multiset(DigestList(blobs)), have)
  {
  }

  lemma NothingConserved(have: set<string>)
    ensures Conserves(NO_RESULT, multiset(DigestList(Ungroup([]))), have)
  {
    assert DigestList(Ungroup([])) == [] && ErrorDigests([]) == [];
  }

  lemma ExtendsItself(blobs: map<string, Bytes>)
    ensures Extends(blobs, blobs)
  {
  }

  lemma ExtendsThrough(a: map<string, Bytes>, b: map<string, Bytes>, c: map<string, Bytes>)
    requires Extends(a, b) && Extends(b, c)
    ensures Extends(a, c) && b.Keys <= c.Keys
  {
  }

  lemma OneMoreGroup(groups: Groups, g: nat)
    requires g < |groups|
    ensures multiset(DigestList(Ungroup(groups[..g + 1]))) ==
            multiset(DigestList(Ungroup(groups[..g]))) + multiset(DigestList(groups[g].1))
  {
    assert groups[..g + 1][..g] == groups[..g];
    DigestListAppend(Ungroup(groups[..g]), groups[g].1);
  }

  // --- manifests ---

  /** `s.split("/")` */
  function SplitSlash(s: string): (r: seq<string>)
    ensures r != []
  {
    var k := FirstIndex(s, '/');
    if k < 0 then [s] else [s[..k]] + SplitSlash(s[k + 1..])
  }

  predicate Matches(e: IndexEntry, platform: string) {
    var parts := SplitSlash(platform);
    && !e.isAttestation
    && e.os == Some(parts[0])
    && e.architecture == Some(if |parts| > 1 then parts[1] else "amd64")
    && (|parts| > 2 ==> e.variant == Some(parts[2]))
  }

  /** Position of the first entry for the platform. */
  function FirstMatch(entries: seq<IndexEntry>, platform: string): (k: nat)
    ensures k <= |entries| && (k < |entries| ==> Matches(entries[k], platform))
    ensures forall j :: 0 <= j < k ==> !Matches(entries[j], platform)
  {
    if entries == [] then 0
    else if Matches(entries[0], platform) then 0
    else 1 + FirstMatch(entries[1..], platform)
  }

  predicate IsIndex(m: Body) {
    m.mediaType.Some? && (Contains(m.mediaType.value, "index") || Contains(m.mediaType.value, "list"))
  }

  function TagText(tag: Option<string>): string {
    if tag.Some? then tag.value else "None"
  }

  /** The manifest shipped for one image, given what the registry answers for a reference. */
  function Ship(img: ImageRequest, answer: string -> Option<Upstream>): Option<Shipped> {
    var tag := TagText(img.tag);
    var raw := answer(tag);
    if img.repository == "" || raw.None? then None
    else
      var entries := raw.value.entries;
      var k := FirstMatch(entries, img.platform);
      var chosen :=
        if !IsIndex(raw.value.body) then raw
        else if k == |entries| || entries[k].digest.None? then None
        else answer(entries[k].digest.value);
      if chosen.None? then None
      else Some(Shipped(img.registry, img.repository, tag, SafePlatform(img.platform), chosen.value.body))
  }

  /** From an index, the shipped manifest is the one that the first entry for exactly this platform names; an
      image without such an entry is not shipped. */
  lemma ShipsTheFirstMatch(img: ImageRequest, answer: string -> Option<Upstream>)
    requires img.repository != "" && answer(TagText(img.tag)).Some? && IsIndex(answer(TagText(img.tag)).value.body)
    ensures var entries := answer(TagText(img.tag)).value.entries;
            var r := Ship(img, answer);
            (r.Some? ==>
              exists k :: 0 <= k < |entries| && Matches(entries[k], img.platform) && entries[k].digest.Some? &&
                          (forall j :: 0 <= j < k ==> !Matches(entries[j], img.platform)) &&
                          answer(entries[k].digest.value).Some? &&
                          r.value.body == answer(entries[k].digest.value).value.body) &&
            ((forall e :: e in entries ==> !Matches(e, img.platform)) ==> r.None?)
  {
    var entries := answer(TagText(img.tag)).value.entries;
    var k := FirstMatch(entries, img.platform);
    if k < |entries| { assert entries[k] in entries; }
  }

  /** A shipped manifest carries the names it was asked by; one that is no index is shipped as it came. */
  lemma ShipKeepsName(img: ImageRequest, answer: string -> Option<Upstream>)
    requires Ship(img, answer).Some?
    ensures var s := Ship(img, answer).value;
            s.registry == img.registry && s.repository == img.repository && s.tag == TagText(img.tag) &&
            s.platformFile == SafePlatform(img.platform) && answer(s.tag).Some? &&
            (!IsIndex(answer(s.tag).value.body) ==> s.body == answer(s.tag).value.body)
  {
  }

  function ShipAll(images: seq<ImageRequest>, answers: nat -> (string -> Option<Upstream>)): seq<Shipped> {
    if images == [] then []
    else
      var n := |images| - 1;
      var before := ShipAll(images[..n], answers);
      var s := Ship(images[n], answers(n));
      if s.Some? then before + [s.value] else before
  }

  /** What is shipped for one of the images is among what is shipped for all. */
  lemma {:induction false} ShippedWhenAnswered(images: seq<ImageRequest>, answers: nat -> (string -> Option<Upstream>), n: nat)
    requires n < |images| && Ship(images[n], answers(n)).Some?
    ensures Ship(images[n], answers(n)).value in ShipAll(images, answers)
  {
    hide Ship;
    var last := |images| - 1;
    if n < last { ShippedWhenAnswered(images[..last], answers, n); }
  }

  /** And everything shipped is shipped for some image. */
  lemma {:induction false} ShippedForSome(images: seq<ImageRequest>, answers: nat -> (string -> Option<Upstream>), s: Shipped)
    requires s in ShipAll(images, answers)
    ensures exists n :: 0 <= n < |images| && Ship(images[n], answers(n)) == Some(s)
  {
    hide Ship;
    var last := |images| - 1;
    if Ship(images[last], answers(last)) != Some(s) {
      ShippedForSome(images[..last], answers, s);
      var n :| 0 <= n < last && Ship(images[..last][n], answers(n)) == Some(s);
      assert Ship(images[n], answers(n)) == Some(s);
    }
  }

  /** The loop over the requested images; every failure just skips the image. */
  method FetchManifests(images: seq<ImageRequest>, answers: nat -> (string -> Option<Upstream>))
    returns (results: seq<Shipped>)
    ensures results == ShipAll(images, answers)
  {
    hide SplitSlash, Matches, SafePlatform, IsIndex;
    results := [];
    for i := 0 to |images|
      invariant results == ShipAll(images[..i], answers)
    {
      assert images[..i + 1][..i] == images[..i];
      var img := images[i];
      if img.repository != "" {
        var tag := TagText(img.tag);
        var raw := answers(i)(tag);
        if raw.Some? {
          var chosen: Option<Upstream> := None;
          if IsIndex(raw.value.body) {
            var entries := raw.value.entries;
            var k := 0;
            while k < |entries| && !Matches(entries[k], img.platform)
              invariant k <= FirstMatch(entries, img.platform)
            {
              k := k + 1;
            }
            if k < |entries| && entries[k].digest.Some? {
              chosen := answers(i)(entries[k].digest.value);
            }
          } else {
            chosen := raw;
          }
          if chosen.Some? {
            results := results +
              [Shipped(img.registry, img.repository, tag, SafePlatform(img.platform), chosen.value.body)];
          }
        }
      }
    }
    assert images[..|images|] == images;
  }

  // --- blobs of the shipped manifests ---

  /** Layers first, then the config. */
  function ShippedDescriptors(m: Body): seq<Descriptor> {
    if m.config.Some? then m.layers + [m.config.value] else m.layers
  }

  /** Whether a digest is covered once `known` are. */
  ghost predicate Knows(m: Body, known: set<string>) {
    forall d :: d in NeededDigests(m) && d != "" ==> d in known
  }

  lemma NeededIsShipped(m: Body, d: string)
    ensures d in NeededDigests(m) <==>
              exists k :: 0 <= k < |ShippedDescriptors(m)| && ShippedDescriptors(m)[k].digest == Some(d)
  {
    DigestsOfMembers(Descriptors(m), d);
    var a, b := Descriptors(m), ShippedDescriptors(m);
    if m.config.Some? {
      assert b[|m.layers|] == m.config.value && a[0] == m.config.value;
      assert forall k :: 0 <= k < |m.layers| ==> a[k + 1] == m.layers[k] && b[k] == m.layers[k];
      if k :| 0 <= k < |a| && a[k].digest == Some(d) {
        assert if k == 0 then b[|m.layers|].digest == Some(d) else b[k - 1].digest == Some(d);
      }
      if k :| 0 <= k < |b| && b[k].digest == Some(d) {
        assert if k < |m.layers| then a[k + 1].digest == Some(d) else a[0].digest == Some(d);
      }
    }
  }

  function DigestText(d: Descriptor): string {
    if d.digest.Some? then d.digest.value else ""
  }

  /** One descriptor of a shipped manifest: listed if it names a digest that is listed nowhere yet. */
  function AddLayer(blobs: seq<MissingBlob>, extra: seq<MissingBlob>, m: Shipped, d: Descriptor): seq<MissingBlob> {
    var digest := DigestText(d);
    if digest == "" || digest in DigestList(blobs) || digest in DigestList(extra) then extra
    else extra + [MissingBlob(m.registry, m.repository, digest, if d.size.Some? then d.size.value else 0, "")]
  }

  function AddLayers(blobs: seq<MissingBlob>, extra: seq<MissingBlob>, m: Shipped, layers: seq<Descriptor>): seq<MissingBlob> {
    if layers == [] then extra
    else AddLayer(blobs, AddLayers(blobs, extra, m, layers[..|layers| - 1]), m, layers[|layers| - 1])
  }

  function ExtraOf(blobs: seq<MissingBlob>, shipped: seq<Shipped>): seq<MissingBlob> {
    if shipped == [] then []
    else
      var m := shipped[|shipped| - 1];
      AddLayers(blobs, ExtraOf(blobs, shipped[..|shipped| - 1]), m, ShippedDescriptors(m.body))
  }

  /** The set kept by the loop decides as the lists do. */
  lemma LayerIsAdded(
      base: set<string>, blobs: seq<MissingBlob>, extra: seq<MissingBlob>, known: set<string>, m: Shipped, d: Descriptor)
    requires base == ToSet(DigestList(blobs)) && ExtraSoFar(base, extra, known)
    ensures AddLayer(blobs, extra, m, d) ==
            if DigestText(d) == "" || DigestText(d) in known then extra
            else extra + [MissingBlob(m.registry, m.repository, DigestText(d), if d.size.Some? then d.size.value else 0, "")]
  {
    hide NoDup;
    assert DigestText(d) in known <==> DigestText(d) in DigestList(blobs) || DigestText(d) in DigestList(extra);
    hide DigestList, ExtraSoFar;
  }

  lemma OneMoreLayer(
      blobs: seq<MissingBlob>, extra: seq<MissingBlob>, m: Shipped, layers: seq<Descriptor>, k: nat, known: set<string>,
      more: set<string>)
    requires k < |layers| && Covers(layers[..k], known) && known <= more
    requires DigestText(layers[k]) == "" || DigestText(layers[k]) in more
    ensures AddLayers(blobs, extra, m, layers[..k + 1]) == AddLayer(blobs, AddLayers(blobs, extra, m, layers[..k]), m, layers[k])
    ensures Covers(layers[..k + 1], more)
  {
    hide AddLayer, DigestText;
    assert layers[..k + 1][..k] == layers[..k];
    assert layers[..k + 1] == layers[..k] + [layers[k]];
  }

  /** All non-empty digests of the descriptors are known. */
  ghost predicate Covers(layers: seq<Descriptor>, known: set<string>) {
    forall d :: d in layers && DigestText(d) != "" ==> DigestText(d) in known
  }

  /** The digests of the shipped manifests that the request does not already list, each once. */
  method ManifestBlobs(blobs: seq<MissingBlob>, shipped: seq<Shipped>) returns (extra: seq<MissingBlob>)
    ensures extra == ExtraOf(blobs, shipped)
    ensures forall s :: s in shipped ==> Knows(s.body, ToSet(DigestList(blobs + extra)))
    ensures NoDup(DigestList(extra)) && ToSet(DigestList(extra)) !! ToSet(DigestList(blobs))
  {
    hide Knows, NoDup, ToSet, DigestList, ExtraSoFar, AddLayer, AddLayers, ShippedDescriptors, Covers, DigestText;
    var known := ToSet(DigestList(blobs));
    extra := [];
    ghost var base := known;
    NothingExtra(base);
    for i := 0 to |shipped|
      invariant ExtraSoFar(base, extra, known) && extra == ExtraOf(blobs, shipped[..i])
      invariant forall j :: 0 <= j < i ==> Knows(shipped[j].body, known)
    {
      assert shipped[..i + 1][..i] == shipped[..i];
      var m := shipped[i];
      var layers := ShippedDescriptors(m.body);
      ghost var known0, extra0 := known, extra;
      NoLayers(blobs, extra, m, layers, known);
      for k := 0 to |layers|
        invariant ExtraSoFar(base, extra, known) && known0 <= known
        invariant extra == AddLayers(blobs, extra0, m, layers[..k])
        invariant Covers(layers[..k], known)
      {
        var digest := DigestText(layers[k]);
        var size := if layers[k].size.Some? then layers[k].size.value else 0;
        LayerIsAdded(base, blobs, extra, known, m, layers[k]);
        OneMoreLayer(blobs, extra0, m, layers, k, known, known + {digest});
        if digest == "" || digest in known {
          OneMoreLayer(blobs, extra0, m, layers, k, known, known);
        } else {
          var blob := MissingBlob(m.registry, m.repository, digest, size, "");
          ExtraGrows(base, extra, known, blob);
          known := known + {digest};
          extra := extra + [blob];
        }
      }
      assert layers[..|layers|] == layers;
      forall j | 0 <= j < i + 1 ensures Knows(shipped[j].body, known) {
        if j == i { KnowsAll(m.body, known); } else { KnowsMore(shipped[j].body, known0, known); }
      }
    }
    assert shipped[..|shipped|] == shipped;
    ExtraIsDone(blobs, extra, known);
  }

  lemma NoLayers(blobs: seq<MissingBlob>, extra: seq<MissingBlob>, m: Shipped, layers: seq<Descriptor>, known: set<string>)
    ensures AddLayers(blobs, extra, m, layers[..0]) == extra && Covers(layers[..0], known)
  {
  }

  ghost predicate ExtraSoFar(base: set<string>, extra: seq<MissingBlob>, known: set<string>) {
    NoDup(DigestList(extra)) && ToSet(DigestList(extra)) !! base && known == base + ToSet(DigestList(extra))
  }

  lemma NothingExtra(base: set<string>)
    ensures ExtraSoFar(base, [], base)
  {
    assert DigestList([]) == [];
  }

  lemma ExtraGrows(base: set<string>, extra: seq<MissingBlob>, known: set<string>, blob: MissingBlob)
    requires ExtraSoFar(base, extra, known) && blob.digest !in known
    ensures ExtraSoFar(base, extra + [blob], known + {blob.digest})
  {
    DigestListAppend(extra, [blob]);
    assert DigestList([blob]) == [blob.digest];
    NoDupAppend(DigestList(extra), [blob.digest]);
    ToSetAppend(DigestList(extra), [blob.digest]);
  }

  lemma ExtraIsDone(blobs: seq<MissingBlob>, extra: seq<MissingBlob>, known: set<string>)
    requires ExtraSoFar(ToSet(DigestList(blobs)), extra, known)
    ensures NoDup(DigestList(extra)) && ToSet(DigestList(extra)) !! ToSet(DigestList(blobs))
    ensures known == ToSet(DigestList(blobs + extra))
  {
    DigestListAppend(blobs, extra);
    ToSetAppend(DigestList(blobs), DigestList(extra));
  }

  lemma KnowsAll(m: Body, known: set<string>)
    requires Covers(ShippedDescriptors(m), known)
    ensures Knows(m, known)
  {
    forall d | d in NeededDigests(m) && d != "" ensures d in known {
      NeededIsShipped(m, d);
      var layers := ShippedDescriptors(m);
      var k :| 0 <= k < |layers| && layers[k].digest == Some(d);
      assert DigestText(layers[k]) == d;
    }
  }

  lemma KnowsMore(m: Body, known: set<string>, more: set<string>)
    requires Knows(m, known) && known <= more
    ensures Knows(m, more)
  {
  }

  // --- the whole online run, up to the response ---

  datatype Fetch = Fetch(blobs: seq<MissingBlob>, errors: seq<FetchError>, shipped: seq<Shipped>)

  /** Every blob of the list is in the cache directory or its digest is among the errors. */
  ghost predicate AllAccounted(blobs: seq<MissingBlob>, have: set<string>, errors: seq<FetchError>) {
    forall b :: b in blobs ==> Stores.Has(b.digest, have) || exists e :: e in errors && e.digest == b.digest
  }

  lemma ConservedIsAccounted(r: FetchResult, blobs: seq<MissingBlob>, have: set<string>)
    requires Conserves(r, multiset(DigestList(blobs)), have)
    ensures AllAccounted(blobs, have, r.errors)
  {
    forall b | b in blobs ensures Stores.Has(b.digest, have) || exists e :: e in r.errors && e.digest == b.digest {
      var k :| 0 <= k < |blobs| && blobs[k] == b;
      assert DigestList(blobs)[k] == b.digest;
      assert b.digest in multiset(DigestList(blobs));
      if b.digest !in r.downloaded && b.digest !in r.skipped {
        assert b.digest in multiset(ErrorDigests(r.errors));
        var j :| 0 <= j < |r.errors| && ErrorDigests(r.errors)[j] == b.digest;
        assert r.errors[j] in r.errors;
      }
    }
  }

  /** All the answers of the outside: to the requested blobs, to the extra ones, and to manifest requests. */
  datatype Network = Network(blobs: Net, extras: Net, manifests: nat -> (string -> Option<Upstream>))

  function ShippedFor(request: Request, net: Network): seq<Shipped> {
    ShipAll(request.images, net.manifests)
  }

  function ExtraFor(request: Request, net: Network): seq<MissingBlob> {
    ExtraOf(request.blobs, ShippedFor(request, net))
  }

  /** The names in the cache between the passes, and at the end. */
  function HaveBetween(request: Request, have: set<string>, sha: Bytes -> string, net: Network): set<string> {
    HaveAfter(GroupsOf(request.blobs), have, sha, net.blobs)
  }

  function HaveAtEnd(request: Request, have: set<string>, sha: Bytes -> string, net: Network): set<string> {
    HaveAfter(GroupsOf(ExtraFor(request, net)), HaveBetween(request, have, sha, net), sha, net.extras)
  }

  ghost predicate OnlineCrashes(request: Request, have: set<string>, sha: Bytes -> string, net: Network) {
    PassCrashes(GroupsOf(request.blobs), have, sha, net.blobs) ||
    PassCrashes(GroupsOf(ExtraFor(request, net)), HaveBetween(request, have, sha, net), sha, net.extras)
  }

  /** Every download of both passes brings its blob. */
  ghost predicate OnlineFetches(request: Request, have: set<string>, sha: Bytes -> string, net: Network) {
    PassFetches(GroupsOf(request.blobs), have, sha, net.blobs) &&
    PassFetches(GroupsOf(ExtraFor(request, net)), HaveBetween(request, have, sha, net), sha, net.extras)
  }

  /** The failed downloads of both passes. */
  function OnlineErrors(request: Request, have: set<string>, sha: Bytes -> string, net: Network): seq<FetchError> {
    PassResult(GroupsOf(request.blobs), have, sha, net.blobs).errors +
    PassResult(GroupsOf(ExtraFor(request, net)), HaveBetween(request, have, sha, net), sha, net.extras).errors
  }

  /** An online run that does not crash has no errors exactly when every download brings its blob. */
  lemma OnlineFetchesIff(request: Request, have: set<string>, sha: Bytes -> string, net: Network)
    requires !OnlineCrashes(request, have, sha, net)
    ensures OnlineErrors(request, have, sha, net) == [] <==> OnlineFetches(request, have, sha, net)
  {
    hide PassCrashes, PassFetches, PassResult;
    PassFetchesIff(GroupsOf(request.blobs), have, sha, net.blobs);
    PassFetchesIff(GroupsOf(ExtraFor(request, net)), HaveBetween(request, have, sha, net), sha, net.extras);
  }

  /** What the online run has to bring, for a request and a cache. */
  ghost predicate IsFetchFor(f: Fetch, request: Request, have: set<string>, sha: Bytes -> string, net: Network) {
    && f.blobs == request.blobs + ExtraFor(request, net)
    && f.shipped == ShippedFor(request, net)
    && multiset(f.errors) == multiset(OnlineErrors(request, have, sha, net))
  }

  /** Fetch the requested blobs, then the manifests, then the blobs the manifests add. None means that no response was
      written: exactly when nothing was requested or an unexpected exception ended the run. */
  method CmdFetch(request: Request, cache: Cache, net: Network, now: int) returns (r: Option<Fetch>)
    requires cache.Valid()
    modifies cache
    ensures cache.Valid() && Extends(old(cache.blobs), cache.blobs)
    ensures r.None? <==> (request.blobs == [] && request.images == []) ||
                         OnlineCrashes(request, old(cache.blobs).Keys, cache.sha, net)
    ensures r.Some? ==>
              IsFetchFor(r.value, request, old(cache.blobs).Keys, cache.sha, net) &&
              cache.blobs.Keys == HaveAtEnd(request, old(cache.blobs).Keys, cache.sha, net) &&
              AllAccounted(r.value.blobs, cache.blobs.Keys, r.value.errors) &&
              forall s :: s in r.value.shipped ==> Knows(s.body, ToSet(DigestList(r.value.blobs)))
  {
    hide Conserves, AllAccounted, Knows, Extends, ShipAll, NoDup, ToSet, DigestList, PassCrashes, PassResult, HaveAfter;
    if request.blobs == [] && request.images == [] {
      ExtendsItself(cache.blobs);
      return None;
    }
    ghost var have := cache.blobs.Keys;
    var first := FetchAll(request.blobs, cache, net.blobs, now);
    if first.None? {
      return None;
    }
    ghost var middle := cache.blobs;
    var shipped := FetchManifests(request.images, net.manifests);
    var extra := ManifestBlobs(request.blobs, shipped);
    var second := FetchAll(extra, cache, net.extras, now);
    ExtendsThrough(old(cache.blobs), middle, cache.blobs);
    if second.None? {
      return None;
    }
    ConservesTotal(first.value, second.value, multiset(DigestList(request.blobs)), multiset(DigestList(extra)),
                   middle.Keys, cache.blobs.Keys);
    DigestListAppend(request.blobs, extra);
    var total := Total(first.value, second.value);
    ConservedIsAccounted(total, request.blobs + extra, cache.blobs.Keys);
    SameListsTotal(first.value, second.value, PassResult(GroupsOf(request.blobs), have, cache.sha, net.blobs),
                   PassResult(GroupsOf(extra), middle.Keys, cache.sha, net.extras));
    return Some(Fetch(request.blobs + extra, total.errors, shipped));
  }
}
