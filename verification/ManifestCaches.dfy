/** Cached manifests on the offline side: paths, look-up, and what the pull endpoint serves. */
module ManifestCaches {
  import opened Prelude
  import opened Strings
  import opened Manifests
  import opened Crypto
  import ImageRefs
  import Stores

  /** A cached manifest with its `_buncker` extension. */
  datatype Cached = Cached(body: Body, cachedAt: Option<int>, sourceDigest: string)

  /** A file below the manifests directory, by its path components. */
  type Path = seq<string>

  const JSON := ".json"
  const SECONDS_PER_DAY := 86400

  /** The served digest tells manifests apart: canonical dump, then hash, both without collisions. */
  ghost predicate GoodDigest(digestOf: Body -> string) {
    && (forall b :: PREFIX <= digestOf(b))
    && (forall a, b :: digestOf(a) == digestOf(b) ==> a == b)
  }

  // --- paths ---

  function SafePlatform(platform: string): string {
    ReplaceChar(platform, '/', '-')
  }

  function CachePath(registry: string, repository: string, tag: string, platform: string): Path {
    Components(registry) + Components(repository) + Components(tag) + [SafePlatform(platform) + JSON]
  }

  /** The member name under which the online side ships a manifest, relative to `manifests/`. */
  function ShippedName(registry: string, repository: string, tag: string, platformFile: string): string {
    registry + "/" + (repository + "/" + (tag + "/" + (platformFile + JSON)))
  }

  /** The cache path the import derives from an extracted file; too short paths are skipped. */
  function TargetPath(parts: Path): Option<Path> {
    if |parts| < 4 then None
    else
      var n := |parts|;
      var platform := ReplaceChar(RemoveAll(parts[n - 1], JSON), '-', '/');
      Some(CachePath(parts[0], JoinPath(parts[1..n - 2]), parts[n - 2], platform))
  }

  lemma {:induction false} RemoveAllShrinks(s: string, p: string)
    requires p != ""
    ensures |RemoveAll(s, p)| <= |s|
    decreases |s|
  {
    if |s| >= |p| {
      if p <= s { RemoveAllShrinks(s[|p|..], p); } else { RemoveAllShrinks(s[1..], p); }
    }
  }

  lemma {:induction false} RemovesOneAtLeast(s: string, p: string)
    requires p != ""
    ensures |RemoveAll(s + p, p)| <= |s|
    decreases |s|
  {
    var t := s + p;
    if p <= t {
      RemoveAllShrinks(t[|p|..], p);
    } else {
      assert s == "" ==> t == p;
      assert t[1..] == s[1..] + p;
      RemovesOneAtLeast(s[1..], p);
    }
  }

  lemma {:induction false} RemovesTwo(s: string, p: string)
    requires p != "" && Contains(s, p)
    ensures |RemoveAll(s + p, p)| < |s|
    decreases |s|
  {
    var t := s + p;
    var i :| 0 <= i <= |s| && At(s, p, i);
    if p <= t {
      assert t[|p|..] == s[|p|..] + p;
      RemovesOneAtLeast(s[|p|..], p);
    } else {
      assert t[..|p|] == s[..|p|];
      assert i > 0;
      assert s[1..][i - 1..i - 1 + |p|] == s[i..i + |p|];
      assert At(s[1..], p, i - 1);
      assert t[1..] == s[1..] + p;
      RemovesTwo(s[1..], p);
    }
  }

  lemma {:induction false} RemovesSuffixOnly(s: string)
    requires !Contains(s, JSON)
    ensures RemoveAll(s + JSON, JSON) == s
    decreases |s|
  {
    var t := s + JSON;
    if s == "" {
      assert t == JSON && t[5..] == "";
    } else {
      if JSON <= t {
        NoStraddle(s);
      }
      assert !(JSON <= t);
      assert t[1..] == s[1..] + JSON;
      TailContains(s, JSON);
      RemovesSuffixOnly(s[1..]);
    }
  }

  lemma NoStraddle(s: string)
    requires s != "" && JSON <= s + JSON
    ensures Contains(s, JSON)
  {
    var t := s + JSON;
    assert t[|s|] == '.';
    assert forall k :: 1 <= k < 5 ==> t[k] == JSON[k] != '.';
    assert |s| >= 5;
    assert s[0..0 + 5] == t[..5];
    assert At(s, JSON, 0);
  }

  lemma TailContains(s: string, p: string)
    requires s != "" && !Contains(s, p)
    ensures !Contains(s[1..], p)
  {
    if Contains(s[1..], p) {
      var i :| 0 <= i <= |s[1..]| && At(s[1..], p, i);
      assert s[i + 1..i + 1 + |p|] == s[1..][i..i + |p|];
      assert At(s, p, i + 1);
    }
  }

  /** Stripping `.json` gives the file stem back exactly when the stem does not contain it. */
  lemma StemRecoveredIff(stem: string)
    ensures RemoveAll(stem + JSON, JSON) == stem <==> !Contains(stem, JSON)
  {
    if Contains(stem, JSON) { RemovesTwo(stem, JSON); } else { RemovesSuffixOnly(stem); }
  }

  lemma {:induction false} RemoveAllKeepsOut(s: string, p: string, c: char)
    requires p != "" && c !in s
    ensures c !in RemoveAll(s, p)
    decreases |s|
  {
    if |s| >= |p| {
      if p <= s { RemoveAllKeepsOut(s[|p|..], p, c); } else { RemoveAllKeepsOut(s[1..], p, c); }
    }
  }

  lemma EncodeOfDecoded(stem: string)
    requires '/' !in stem
    ensures SafePlatform(ReplaceChar(stem, '-', '/')) == stem
  {
  }

  /** Replacing separators neither makes nor breaks a `.json`. */
  lemma EncodingKeepsJson(platform: string)
    ensures Contains(SafePlatform(platform), JSON) <==> Contains(platform, JSON)
  {
    var safe := SafePlatform(platform);
    forall i | 0 <= i <= |platform| ensures At(safe, JSON, i) <==> At(platform, JSON, i) { EncodingKeepsAt(platform, i); }
    if Contains(safe, JSON) {
      var i :| 0 <= i <= |safe| && At(safe, JSON, i);
      assert At(platform, JSON, i);
    }
    if Contains(platform, JSON) {
      var i :| 0 <= i <= |platform| && At(platform, JSON, i);
      assert At(safe, JSON, i);
    }
  }

  lemma EncodingKeepsAt(platform: string, i: nat)
    requires i <= |platform|
    ensures At(SafePlatform(platform), JSON, i) <==> At(platform, JSON, i)
  {
    var safe := SafePlatform(platform);
    if i + 5 <= |platform| {
      var a, b := safe[i..i + 5], platform[i..i + 5];
      assert forall k :: 0 <= k < 5 ==> a[k] == if b[k] == '/' then '-' else b[k];
      assert JSON[0] == '.' && JSON[1] == 'j' && JSON[2] == 's' && JSON[3] == 'o' && JSON[4] == 'n';
      assert a == JSON <==> forall k :: 0 <= k < 5 ==> a[k] == JSON[k];
      assert b == JSON <==> forall k :: 0 <= k < 5 ==> b[k] == JSON[k];
    }
  }

  lemma FileComponent(stem: string)
    requires '/' !in stem
    ensures Components(stem + JSON) == [stem + JSON]
  {
    var file := stem + JSON;
    assert '/' !in JSON;
    assert FirstIndex(file, '/') < 0;
    assert |file| >= 5;
  }

  /** The components of a shipped name. */
  lemma ShippedParts(registry: string, repository: string, tag: string, stem: string)
    requires '/' !in stem
    ensures Components(ShippedName(registry, repository, tag, stem)) ==
            Components(registry) + Components(repository) + Components(tag) + [stem + JSON]
  {
    hide Components, FirstIndex;
    ComponentsAppend(registry, repository + "/" + (tag + "/" + (stem + JSON)));
    ComponentsAppend(repository, tag + "/" + (stem + JSON));
    ComponentsAppend(tag, stem + JSON);
    FileComponent(stem);
  }

  lemma TargetOfParts(dirs: seq<string>, file: string)
    requires |dirs| >= 3 && '/' !in file
    requires forall d :: d in dirs ==> IsComponent(d)
    ensures TargetPath(dirs + [file]) == Some(dirs + [RemoveAll(file, JSON) + JSON])
  {
    hide Components, RemoveAll;
    var parts := dirs + [file];
    var n := |parts|;
    var registry, middle, tag := parts[0], parts[1..n - 2], parts[n - 2];
    assert dirs == [registry] + middle + [tag];
    assert forall d :: d in middle ==> d in dirs;
    ComponentsOfJoin(middle);
    ComponentsOfJoin([registry]);
    ComponentsOfJoin([tag]);
    RemoveAllKeepsOut(file, JSON, '/');
    EncodeOfDecoded(RemoveAll(file, JSON));
  }

  /** A shipped manifest is cached at the very path where it is looked up, for repositories of any depth and any
      platform, exactly when there are three directories above it and the platform does not contain `.json`. */
  lemma PathRoundTripIff(registry: string, repository: string, tag: string, platform: string)
    ensures TargetPath(Components(ShippedName(registry, repository, tag, SafePlatform(platform)))) ==
              Some(CachePath(registry, repository, tag, platform)) <==>
            |Components(registry) + Components(repository) + Components(tag)| >= 3 && !Contains(platform, JSON)
  {
    var dirs := Components(registry) + Components(repository) + Components(tag);
    var stem := SafePlatform(platform);
    StemHasNoSlash(platform);
    hide Components, RemoveAll, Contains, SafePlatform, ShippedName, TargetPath, IsComponent;
    ShippedParts(registry, repository, tag, stem);
    DirsAreComponents(registry, repository, tag);
    StemRecoveredIff(stem);
    EncodingKeepsJson(platform);
    if |dirs| >= 3 {
      TargetOfParts(dirs, stem + JSON);
      SameFile(dirs, RemoveAll(stem + JSON, JSON), stem);
    } else {
      TooShort(dirs + [stem + JSON]);
    }
  }

  lemma StemHasNoSlash(platform: string)
    ensures '/' !in SafePlatform(platform) && '/' !in SafePlatform(platform) + JSON
  {
  }

  lemma DirsAreComponents(registry: string, repository: string, tag: string)
    ensures forall d :: d in Components(registry) + Components(repository) + Components(tag) ==> IsComponent(d)
  {
    ComponentsAreComponents(registry);
    ComponentsAreComponents(repository);
    ComponentsAreComponents(tag);
    hide Components;
  }

  lemma TooShort(parts: Path)
    requires |parts| < 4
    ensures TargetPath(parts) == None
  {
  }

  lemma SameFile(dirs: seq<string>, a: string, b: string)
    ensures dirs + [a + JSON] == dirs + [b + JSON] <==> a == b
  {
    assert (dirs + [a + JSON])[|dirs|] == a + JSON && (dirs + [b + JSON])[|dirs|] == b + JSON;
    assert (a + JSON)[..|a + JSON| - 5] == a && (b + JSON)[..|b + JSON| - 5] == b;
  }

  lemma DecodedIff(platform: string)
    ensures ReplaceChar(SafePlatform(platform), '-', '/') == platform <==> '-' !in platform
  {
    var decoded := ReplaceChar(SafePlatform(platform), '-', '/');
    assert forall k :: 0 <= k < |platform| ==> decoded[k] == if platform[k] == '-' then '/' else platform[k];
    if k :| 0 <= k < |platform| && platform[k] == '-' { assert decoded[k] != platform[k]; }
  }

  /** The impact report names an affected image by the registry, repository and tag it was cached under, and its
      platform exactly when that contains neither `-` nor `.json`. */
  lemma LabelsReadBackIff(registry: string, middle: seq<string>, tag: string, platform: string)
    requires tag != "" && middle != []
    ensures var path := [registry] + middle + [tag, SafePlatform(platform) + JSON];
            Stores.ImageLabel(path) == registry + "/" + JoinPath(middle) + ":" + tag &&
            (Stores.PlatformLabel(path) == platform <==> '-' !in platform && !Contains(platform, JSON))
  {
    var stem := SafePlatform(platform);
    var path := [registry] + middle + [tag, stem + JSON];
    assert path[1..|path| - 2] == middle && path[|path| - 2] == tag && path[|path| - 1] == stem + JSON;
    StemRecoveredIff(stem);
    EncodingKeepsJson(platform);
    DecodedIff(platform);
    if Contains(stem, JSON) { RemovesTwo(stem, JSON); }
    hide RemoveAll, Contains, JoinPath;
  }

  // --- the class ---

  /** What the cache returns for a tag, and what it may return for a digest: any file with that served digest. */
  ghost predicate MayReturn(files: map<Path, Cached>, r: Option<Cached>, registry: string, repository: string, reference: string, platform: string) {
    if PREFIX <= reference then
      if r.Some? then r.value in files.Values && r.value.sourceDigest == reference
      else forall p :: p in files ==> files[p].sourceDigest != reference
    else
      var path := CachePath(registry, repository, reference, platform);
      r == if path in files then Some(files[path]) else None
  }

  /** Every cached file carries the digest under which its content is served. */
  ghost predicate Labelled(files: map<Path, Cached>, digestOf: Body -> string) {
    forall p :: p in files ==> files[p].sourceDigest == digestOf(files[p].body)
  }

  predicate Stale(m: Cached, ttlDays: int, now: int) {
    m.cachedAt.None? || (now - m.cachedAt.value) / SECONDS_PER_DAY >= ttlDays
  }

  class ManifestCache {
    const digestOf: Body -> string
    var files: map<Path, Cached>

    ghost predicate Valid()
      reads this
    {
      Labelled(files, digestOf)
    }

    constructor (digestOf: Body -> string)
      ensures Valid() && files == map[] && this.digestOf == digestOf
    {
      this.digestOf := digestOf;
      files := map[];
    }

    /** Whatever extension the manifest came with, the stored one is computed afresh. */
    method CacheManifest(registry: string, repository: string, tag: string, platform: string, body: Body, now: int)
      requires Valid()
      modifies this
      ensures Valid()
      ensures files == old(files)[CachePath(registry, repository, tag, platform) := Cached(body, Some(now), digestOf(body))]
    {
      files := files[CachePath(registry, repository, tag, platform) := Cached(body, Some(now), digestOf(body))];
    }

    method GetManifest(registry: string, repository: string, reference: string, platform: string)
      returns (r: Option<Cached>)
      ensures MayReturn(files, r, registry, repository, reference, platform)
    {
      if PREFIX <= reference {
        r := LookupByDigest(reference);
      } else {
        var path := CachePath(registry, repository, reference, platform);
        r := if path in files then Some(files[path]) else None;
      }
    }

    /** The files are scanned in any order; the first match wins. */
    method LookupByDigest(digest: string) returns (r: Option<Cached>)
      ensures r.Some? ==> r.value in files.Values && r.value.sourceDigest == digest
      ensures r.None? ==> forall p :: p in files ==> files[p].sourceDigest != digest
    {
      var todo := files.Keys;
      while todo != {}
        invariant todo <= files.Keys
        invariant forall p :: p in files && p !in todo ==> files[p].sourceDigest != digest
        decreases todo
      {
        var p :| p in todo;
        if files[p].sourceDigest == digest {
          return Some(files[p]);
        }
        todo := todo - {p};
      }
      return None;
    }

    method IsStale(registry: string, repository: string, tag: string, platform: string, ttlDays: int, now: int)
      returns (r: Option<bool>)
      ensures exists m :: MayReturn(files, m, registry, repository, tag, platform) &&
                r == if m.Some? then Some(Stale(m.value, ttlDays, now)) else None
    {
      var m := GetManifest(registry, repository, tag, platform);
      if m.None? {
        return None;
      }
      return Some(Stale(m.value, ttlDays, now));
    }

    method CountStale(ttlDays: int, now: int) returns (count: nat)
      ensures count == |set p | p in files && Stale(files[p], ttlDays, now)|
    {
      count := 0;
      var todo := files.Keys;
      ghost var found: set<Path> := {};
      while todo != {}
        invariant todo <= files.Keys && count == |found|
        invariant found == (set p | p in files && Stale(files[p], ttlDays, now)) - todo
        decreases todo
      {
        var p :| p in todo;
        todo := todo - {p};
        if Stale(files[p], ttlDays, now) {
          found := found + {p};
          count := count + 1;
        }
      }
      assert found == set p | p in files && Stale(files[p], ttlDays, now);
    }
  }

  // --- the pull endpoint ---

  /** `$` in a Python pattern also matches before a final newline. */
  function BeforeFinalNewline(s: string): string {
    if HasSuffix(s, "\n") then s[..|s| - 1] else s
  }

  predicate IsFullDigest(s: string) {
    var t := BeforeFinalNewline(s);
    |t| == 71 && PREFIX <= t && IsHex(t[7..])
  }

  predicate IsTagName(s: string) {
    var t := BeforeFinalNewline(s);
    1 <= |t| <= 128 &&
    forall c :: c in t ==> 'a' <= c <= 'z' || 'A' <= c <= 'Z' || '0' <= c <= '9' || c in "._-"
  }

  predicate ValidReference(reference: string) {
    if PREFIX <= reference then IsFullDigest(reference) else IsTagName(reference)
  }

  predicate ValidName(name: string) {
    !Contains(name, "..") && !("/" <= name)
  }

  datatype Response = NameInvalid | ReferenceInvalid | ManifestUnknown | Served(body: Body, contentDigest: string)

  const PLATFORMS := ["linux/amd64", "linux/arm64", "linux/arm/v7"]

  /** The platforms are tried in order; the digest header is computed from the body that is sent. */
  method HandleManifest(cache: ManifestCache, name: string, reference: string) returns (r: Response)
    requires cache.Valid()
    ensures r.NameInvalid? <==> !ValidName(name)
    ensures r.ReferenceInvalid? <==> ValidName(name) && !ValidReference(reference)
    ensures r.Served? ==> r.contentDigest == cache.digestOf(r.body)
    ensures r.Served? ==> exists p :: p in cache.files && cache.files[p].body == r.body
    // by digest: served exactly when some cached manifest has that digest, and then under that digest
    ensures ValidName(name) && IsFullDigest(reference) && PREFIX <= reference ==>
              (r.Served? <==> exists p :: p in cache.files && cache.files[p].sourceDigest == reference) &&
              (r.Served? ==> r.contentDigest == reference)
    // by tag: the first platform that is cached for the split name
    ensures ValidName(name) && ValidReference(reference) && !(PREFIX <= reference) ==>
              ServedByTag(cache.files, name, reference, r)
  {
    hide ValidName, ImageRefs.SplitName, CachePath, IsTagName;
    if !ValidName(name) {
      return NameInvalid;
    }
    if !ValidReference(reference) {
      return ReferenceInvalid;
    }
    var (registry, repository) := ImageRefs.SplitName(name);
    for k := 0 to |PLATFORMS|
      invariant PREFIX <= reference && k > 0 ==> forall p :: p in cache.files ==> cache.files[p].sourceDigest != reference
      invariant !(PREFIX <= reference) ==>
                  forall j :: 0 <= j < k ==> CachePath(registry, repository, reference, PLATFORMS[j]) !in cache.files
    {
      var m := cache.GetManifest(registry, repository, reference, PLATFORMS[k]);
      if m.Some? {
        var p :| p in cache.files && cache.files[p] == m.value;
        return Served(m.value.body, cache.digestOf(m.value.body));
      }
    }
    return ManifestUnknown;
  }

  ghost predicate ServedByTag(files: map<Path, Cached>, name: string, tag: string, r: Response) {
    var (registry, repository) := ImageRefs.SplitName(name);
    if r.Served? then
      exists k :: 0 <= k < |PLATFORMS| && FirstAt(files, registry, repository, tag, k) &&
                  r.body == files[CachePath(registry, repository, tag, PLATFORMS[k])].body
    else forall k :: 0 <= k < |PLATFORMS| ==> CachePath(registry, repository, tag, PLATFORMS[k]) !in files
  }

  ghost predicate FirstAt(files: map<Path, Cached>, registry: string, repository: string, tag: string, k: nat)
    requires k < |PLATFORMS|
  {
    CachePath(registry, repository, tag, PLATFORMS[k]) in files &&
    forall j :: 0 <= j < k ==> CachePath(registry, repository, tag, PLATFORMS[j]) !in files
  }

  /** A client that resolves a tag and then pulls by the digest it was told gets the same manifest. */
  method PullByTagThenDigest(cache: ManifestCache, name: string, tag: string)
    returns (first: Response, second: Response)
    requires cache.Valid() && ValidName(name) && !(PREFIX <= tag)
    requires forall p, q :: p in cache.files && q in cache.files && cache.files[p].sourceDigest == cache.files[q].sourceDigest ==>
               cache.files[p].body == cache.files[q].body
    requires forall p :: p in cache.files ==>
               IsFullDigest(cache.files[p].sourceDigest) && PREFIX <= cache.files[p].sourceDigest
    ensures first.Served? ==> second == first
  {
    first := HandleManifest(cache, name, tag);
    second := first;
    if first.Served? {
      second := HandleManifest(cache, name, first.contentDigest);
    }
  }
}
