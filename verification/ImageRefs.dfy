/** Image references: parsing, printing, and the name split of the pull endpoint. */
module ImageRefs {
  import opened Prelude
  import opened Strings

  const DEFAULT_REGISTRY := "docker.io"
  const DEFAULT_TAG := "latest"
  const DIGEST_MARK := "@sha256:"

  datatype Ref = Ref(registry: string, repository: string, tag: Option<string>, digest: Option<string>)

  predicate LooksLikeRegistry(first: string) {
    '.' in first || ':' in first || first == "localhost"
  }

  function NormalizeRegistry(name: string): (string, string) {
    var k := FirstIndex(name, '/');
    if k < 0 then (DEFAULT_REGISTRY, "library/" + name)
    else if LooksLikeRegistry(name[..k]) then (name[..k], name[k + 1..])
    else (DEFAULT_REGISTRY, name)
  }

  /** True when the last colon is a tag separator, not a registry port. */
  predicate HasTag(raw: string) {
    LastIndex(raw, ':') > LastIndex(raw, '/')
  }

  /** The part of a reference that names registry and repository. */
  function NamePart(raw: string): string {
    if Contains(raw, DIGEST_MARK) then
      DigestMarkHasAt(raw);
      raw[..FirstIndex(raw, '@')]
    else if HasTag(raw) then raw[..LastIndex(raw, ':')]
    else raw
  }

  function ParseImageRef(raw: string): Ref {
    var (registry, repository) := NormalizeRegistry(NamePart(raw));
    if Contains(raw, DIGEST_MARK) then
      DigestMarkHasAt(raw);
      Ref(registry, repository, None, Some(raw[FirstIndex(raw, '@') + 1..]))
    else if HasTag(raw) then Ref(registry, repository, Some(raw[LastIndex(raw, ':') + 1..]), None)
    else Ref(registry, repository, Some(DEFAULT_TAG), None)
  }

  function BuildResolved(ref: Ref): string {
    var base := ref.registry + "/" + ref.repository;
    if ref.digest.Some? && ref.digest.value != "" then base + "@" + ref.digest.value
    else if ref.tag.Some? && ref.tag.value != "" then base + ":" + ref.tag.value
    else base
  }

  /** The handler's own copy of the name split. */
  function SplitName(name: string): (string, string) {
    var k := FirstIndex(name, '/');
    if k < 0 then (DEFAULT_REGISTRY, "library/" + name)
    else
      var first := name[..k];
      if '.' in first || ':' in first || first == "localhost" then (first, name[k + 1..])
      else (DEFAULT_REGISTRY, name)
  }

  /** The references whose printed form parses back: a digest, a non-empty tag, or a defaulted tag after a
      name that does not end in `@sha256`. */
  predicate Canonical(raw: string) {
    Contains(raw, DIGEST_MARK) || (if HasTag(raw) then !HasSuffix(raw, ":") else !HasSuffix(raw, "@sha256"))
  }

  lemma DigestMarkHasAt(raw: string)
    requires Contains(raw, DIGEST_MARK)
    ensures FirstIndex(raw, '@') >= 0
  {
    var i :| 0 <= i <= |raw| && At(raw, DIGEST_MARK, i);
    assert raw[i..i + |DIGEST_MARK|][0] == raw[i];
  }

  /** Tag and digest exclude each other, one is always there, and a digest is never empty. */
  lemma ExactlyOnePin(raw: string)
    ensures var r := ParseImageRef(raw); r.tag.Some? <==> r.digest.None?
    ensures var r := ParseImageRef(raw); r.digest.Some? ==> HasPin(r) && r.digest.value != ""
  {
    if Contains(raw, DIGEST_MARK) {
      var i :| 0 <= i <= |raw| && At(raw, DIGEST_MARK, i);
      assert raw[i..i + |DIGEST_MARK|][0] == raw[i];
    }
  }

  predicate HasPin(r: Ref) {
    r.tag.Some? || (r.digest.Some? && r.digest.value != "")
  }

  lemma ExplicitRegistry(first: string, rest: string)
    requires '/' !in first && LooksLikeRegistry(first)
    ensures NormalizeRegistry(first + "/" + rest) == (first, rest)
  {
    var whole := first + "/" + rest;
    FirstIndexIs(first, '/', rest);
    assert whole == first + ['/'] + rest;
    assert whole[..|first|] == first && whole[|first| + 1..] == rest;
  }

  /** Normalising what normalisation produced changes nothing. */
  lemma NormalizeIdempotent(name: string)
    ensures var (registry, repository) := NormalizeRegistry(name);
            NormalizeRegistry(registry + "/" + repository) == (registry, repository)
  {
    var (registry, repository) := NormalizeRegistry(name);
    assert DEFAULT_REGISTRY[6] == '.';
    ExplicitRegistry(registry, repository);
  }

  /** The prefixes that normalisation may put in front of a name. */
  predicate IsHubPrefix(pre: string) {
    pre in ["", DEFAULT_REGISTRY + "/", DEFAULT_REGISTRY + "/" + "library/"]
  }

  lemma HubPrefix(pre: string)
    requires IsHubPrefix(pre)
    ensures '@' !in pre && |pre| != 1
  {
  }

  lemma Reassociate(a: string, b: string, c: string)
    ensures a + (b + c) == (a + b) + c
  {
  }

  /** How the normalised name sits inside its canonical spelling. */
  lemma NormalizedEndsWithName(name: string) returns (pre: string)
    ensures var (registry, repository) := NormalizeRegistry(name);
            registry + "/" + repository == pre + name
    ensures '@' !in pre && |pre| != 1
  {
    var k := FirstIndex(name, '/');
    if k < 0 {
      pre := DEFAULT_REGISTRY + "/" + "library/";
      Reassociate(DEFAULT_REGISTRY + "/", "library/", name);
    } else if LooksLikeRegistry(name[..k]) {
      pre := "";
      assert name[..k] + "/" + name[k + 1..] == name;
      assert "" + name == name;
    } else {
      pre := DEFAULT_REGISTRY + "/";
    }
    HubPrefix(pre);
  }

  lemma ContainsIn(a: string, p: string, b: string)
    ensures Contains(a + p + b, p)
  {
    assert At(a + p + b, p, |a|);
  }

  /** Where a digest mark can lie in a name followed by `:tag`: inside the name, or completed by that colon. */
  lemma {:induction false} DigestMarkPlaces(name: string, tag: string)
    requires ':' !in tag
    requires Contains(name + ":" + tag, DIGEST_MARK)
    ensures Contains(name, DIGEST_MARK) || HasSuffix(name, "@sha256")
  {
    var whole := name + ":" + tag;
    var i :| 0 <= i <= |whole| && At(whole, DIGEST_MARK, i);
    var cut := whole[i..i + 8];
    assert cut[7] == ':' && whole[i + 7] == ':';
    assert forall j :: |name| < j < |whole| ==> whole[j] in tag;
    if i + 7 < |name| {
      assert name[i..i + 8] == cut;
      assert At(name, DIGEST_MARK, i);
    } else {
      assert name[i..] == cut[..7] == "@sha256";
    }
  }

  /** A prefix without `@` brings in no digest mark and no `@sha256` ending. */
  lemma {:induction false} PrefixAddsNoMark(pre: string, name: string)
    requires '@' !in pre
    ensures Contains(pre + name, DIGEST_MARK) ==> Contains(name, DIGEST_MARK)
    ensures HasSuffix(pre + name, "@sha256") ==> HasSuffix(name, "@sha256")
  {
    var whole := pre + name;
    assert forall j :: 0 <= j < |pre| ==> whole[j] in pre;
    if Contains(whole, DIGEST_MARK) {
      var i :| 0 <= i <= |whole| && At(whole, DIGEST_MARK, i);
      assert whole[i..i + 8][0] == whole[i];
      assert name[i - |pre|..i - |pre| + 8] == whole[i..i + 8];
      assert At(name, DIGEST_MARK, i - |pre|);
    }
    if HasSuffix(whole, "@sha256") {
      var i := |whole| - 7;
      assert whole[i] == whole[i..][0] == '@';
      assert name[i - |pre|..] == whole[i..];
    }
  }

  lemma NoDigestMark(pre: string, name: string, tag: string)
    requires '@' !in pre && !Contains(name, DIGEST_MARK) && ':' !in tag
    requires !HasSuffix(name, "@sha256")
    ensures !Contains(pre + name + ":" + tag, DIGEST_MARK)
  {
    PrefixAddsNoMark(pre, name);
    if Contains(pre + name + ":" + tag, DIGEST_MARK) {
      DigestMarkPlaces(pre + name, tag);
    }
  }

  lemma TagIsLast(base: string, tag: string)
    requires '/' !in tag && ':' !in tag
    ensures LastIndex(base + ":" + tag, ':') == |base| && HasTag(base + ":" + tag)
  {
    hide LastIndex;
    var printed := base + ":" + tag;
    assert printed == base + [':'] + tag;
    LastIndexIs(base, ':', tag);
    var slash := LastIndex(printed, '/');
    if slash >= |base| { NotInTail(base, tag, slash); }
  }

  lemma NotInTail(base: string, tag: string, k: nat)
    requires '/' !in tag && |base| <= k < |base| + 1 + |tag|
    ensures (base + ":" + tag)[k] != '/'
  {
  }

  lemma PrintedTagParses(registry: string, repository: string, tag: string)
    requires tag != "" && '/' !in tag && ':' !in tag
    requires !Contains(registry + "/" + repository + ":" + tag, DIGEST_MARK)
    requires NormalizeRegistry(registry + "/" + repository) == (registry, repository)
    ensures var r := Ref(registry, repository, Some(tag), None); ParseImageRef(BuildResolved(r)) == r
  {
    hide NormalizeRegistry, LastIndex, FirstIndex, Contains, HasTag;
    var base := registry + "/" + repository;
    var printed := base + ":" + tag;
    TagIsLast(base, tag);
    assert printed[..|base|] == base && printed[|base| + 1..] == tag;
  }

  lemma PrintedDigestParses(registry: string, repository: string, digest: string)
    requires '@' !in registry + "/" + repository
    requires Contains("@" + digest, DIGEST_MARK) && digest != ""
    requires NormalizeRegistry(registry + "/" + repository) == (registry, repository)
    ensures var r := Ref(registry, repository, None, Some(digest)); ParseImageRef(BuildResolved(r)) == r
  {
    hide NormalizeRegistry, LastIndex, FirstIndex, Contains, HasTag;
    var base := registry + "/" + repository;
    var printed := base + "@" + digest;
    SuffixContains(base, "@" + digest, DIGEST_MARK);
    assert printed == base + ("@" + digest);
    assert printed == base + ['@'] + digest;
    FirstIndexIs(base, '@', digest);
    assert printed[..|base|] == base && printed[|base| + 1..] == digest;
  }

  lemma SuffixContains(a: string, b: string, p: string)
    requires Contains(b, p)
    ensures Contains(a + b, p)
  {
    var i :| 0 <= i <= |b| && At(b, p, i);
    assert (a + b)[|a| + i..|a| + i + |p|] == b[i..i + |p|];
    assert At(a + b, p, |a| + i);
  }

  lemma DigestSide(raw: string)
    requires Contains(raw, DIGEST_MARK)
    ensures FirstIndex(raw, '@') >= 0
    ensures Contains(raw[FirstIndex(raw, '@')..], DIGEST_MARK)
  {
    DigestMarkHasAt(raw);
    var at := FirstIndex(raw, '@');
    assert raw == raw[..at] + raw[at..];
    assert '@' !in raw[..at];
    PrefixAddsNoMark(raw[..at], raw[at..]);
  }

  lemma AfterLast(raw: string, k: nat, c: char)
    requires k < |raw| && forall i :: k < i < |raw| ==> raw[i] != c
    ensures c !in raw[k + 1..]
  {
    var tail := raw[k + 1..];
    assert forall i :: 0 <= i < |tail| ==> tail[i] == raw[k + 1 + i];
  }

  lemma EndsWithColon(raw: string, k: nat)
    requires k < |raw| && raw[k] == ':' && forall i :: k < i < |raw| ==> raw[i] != ':'
    ensures raw[k + 1..] == "" <==> HasSuffix(raw, ":")
  {
    if HasSuffix(raw, ":") { assert raw[|raw| - 1] == raw[|raw| - 1..][0]; }
  }

  lemma TagParts(raw: string)
    requires !Contains(raw, DIGEST_MARK) && HasTag(raw)
    ensures var tag := raw[LastIndex(raw, ':') + 1..];
            raw == NamePart(raw) + ":" + tag && '/' !in tag && ':' !in tag && (tag == "" <==> HasSuffix(raw, ":"))
  {
    hide Contains, LastIndex, HasSuffix;
    var colon := LastIndex(raw, ':');
    AfterLast(raw, colon, ':');
    AfterLast(raw, colon, '/');
    EndsWithColon(raw, colon);
    assert raw == raw[..colon] + ":" + raw[colon + 1..];
  }

  lemma CanonicalDigest(raw: string)
    requires Contains(raw, DIGEST_MARK)
    ensures ParseImageRef(BuildResolved(ParseImageRef(raw))) == ParseImageRef(raw)
  {
    hide NormalizeRegistry, LastIndex, FirstIndex, Contains, HasTag;
    DigestSide(raw);
    ExactlyOnePin(raw);
    var at := FirstIndex(raw, '@');
    var name, digest := raw[..at], raw[at + 1..];
    var (registry, repository) := NormalizeRegistry(name);
    NormalizeIdempotent(name);
    var pre := NormalizedEndsWithName(name);
    assert raw[at..] == "@" + digest;
    PrintedDigestParses(registry, repository, digest);
  }

  lemma CanonicalTag(raw: string, name: string, tag: string)
    requires !Contains(name, DIGEST_MARK) && !HasSuffix(name, "@sha256")
    requires tag != "" && '/' !in tag && ':' !in tag
    requires var (registry, repository) := NormalizeRegistry(name);
             ParseImageRef(raw) == Ref(registry, repository, Some(tag), None)
    ensures ParseImageRef(BuildResolved(ParseImageRef(raw))) == ParseImageRef(raw)
  {
    hide NormalizeRegistry, ParseImageRef, BuildResolved, Contains, HasSuffix;
    var (registry, repository) := NormalizeRegistry(name);
    NormalizeIdempotent(name);
    var pre := NormalizedEndsWithName(name);
    NoDigestMark(pre, name, tag);
    PrintedTagParses(registry, repository, tag);
  }

  lemma ParseOfTagged(raw: string, tag: string)
    requires !Contains(raw, DIGEST_MARK)
    requires tag == if HasTag(raw) then raw[LastIndex(raw, ':') + 1..] else DEFAULT_TAG
    ensures var (registry, repository) := NormalizeRegistry(NamePart(raw));
            ParseImageRef(raw) == Ref(registry, repository, Some(tag), None)
  {
  }

  lemma CanonicalWithTag(raw: string)
    requires !Contains(raw, DIGEST_MARK) && HasTag(raw) && !HasSuffix(raw, ":")
    ensures ParseImageRef(BuildResolved(ParseImageRef(raw))) == ParseImageRef(raw)
  {
    var tag := raw[LastIndex(raw, ':') + 1..];
    ParseOfTagged(raw, tag);
    TagParts(raw);
    hide ParseImageRef, NormalizeRegistry, BuildResolved, HasTag, Contains, HasSuffix, LastIndex, NamePart;
    TaggedNameIsClean(raw, NamePart(raw), tag);
    CanonicalTag(raw, NamePart(raw), tag);
  }

  lemma CanonicalWithoutTag(raw: string)
    requires !Contains(raw, DIGEST_MARK) && !HasTag(raw) && !HasSuffix(raw, "@sha256")
    ensures ParseImageRef(BuildResolved(ParseImageRef(raw))) == ParseImageRef(raw)
  {
    ParseOfTagged(raw, DEFAULT_TAG);
    assert NamePart(raw) == raw;
    hide ParseImageRef, NormalizeRegistry, BuildResolved, HasTag, Contains, HasSuffix, LastIndex, NamePart;
    CanonicalTag(raw, raw, DEFAULT_TAG);
  }

  lemma CanonicalRoundTrips(raw: string)
    requires Canonical(raw)
    ensures ParseImageRef(BuildResolved(ParseImageRef(raw))) == ParseImageRef(raw)
  {
    hide ParseImageRef, BuildResolved, HasTag, Contains, HasSuffix;
    if Contains(raw, DIGEST_MARK) {
      CanonicalDigest(raw);
    } else if HasTag(raw) {
      CanonicalWithTag(raw);
    } else {
      CanonicalWithoutTag(raw);
    }
  }

  lemma TaggedNameIsClean(raw: string, name: string, tag: string)
    requires raw == name + ":" + tag && !Contains(raw, DIGEST_MARK)
    ensures !Contains(name, DIGEST_MARK) && !HasSuffix(name, "@sha256")
  {
    if Contains(name, DIGEST_MARK) {
      var i :| 0 <= i <= |name| && At(name, DIGEST_MARK, i);
      assert raw[i..i + 8] == name[i..i + 8];
      assert At(raw, DIGEST_MARK, i);
    }
    if HasSuffix(name, "@sha256") {
      var i := |name| - 7;
      assert raw[i..i + 8] == name[i..] + ":" == DIGEST_MARK;
      assert At(raw, DIGEST_MARK, i);
    }
  }

  lemma EmptyTagFails(raw: string)
    requires !Contains(raw, DIGEST_MARK) && HasTag(raw) && HasSuffix(raw, ":")
    ensures ParseImageRef(BuildResolved(ParseImageRef(raw))) != ParseImageRef(raw)
  {
    TagParts(raw);
    var r := ParseImageRef(raw);
    var base := r.registry + "/" + r.repository;
    assert r.tag == Some("") && r.digest == None && BuildResolved(r) == base;
    var again := ParseImageRef(base);
    if again.tag == Some("") {
      // The second parse cuts exactly the colon off the name it normalises.
      TagParts(base);
      var name := NamePart(base);
      var pre := NormalizedEndsWithName(name);
      assert |name| == |base| - 1 && |pre| != 1;
      assert |again.registry + "/" + again.repository| != |base|;
    }
  }

  lemma SeamMark(pre: string, name: string, tag: string)
    requires HasSuffix(name, "@sha256")
    ensures Contains(pre + name + ":" + tag, DIGEST_MARK)
  {
    var head := pre + name[..|name| - 7];
    assert name == name[..|name| - 7] + "@sha256";
    assert pre + name + ":" + tag == head + DIGEST_MARK + tag;
    ContainsIn(head, DIGEST_MARK, tag);
  }

  lemma BareSha256Fails(raw: string)
    requires !Contains(raw, DIGEST_MARK) && !HasTag(raw) && HasSuffix(raw, "@sha256")
    ensures ParseImageRef(BuildResolved(ParseImageRef(raw))) != ParseImageRef(raw)
  {
    var r := ParseImageRef(raw);
    var pre := NormalizedEndsWithName(raw);
    SeamMark(pre, raw, DEFAULT_TAG);
    assert BuildResolved(r) == pre + raw + ":" + DEFAULT_TAG;
  }

  /** Resolving a resolved reference gives the same image, exactly for the canonical references. */
  lemma ResolvingIsIdempotentIff(raw: string)
    ensures ParseImageRef(BuildResolved(ParseImageRef(raw))) == ParseImageRef(raw) <==> Canonical(raw)
  {
    hide ParseImageRef, BuildResolved, HasTag, Contains, HasSuffix;
    if Canonical(raw) { CanonicalRoundTrips(raw); }
    else if HasTag(raw) { EmptyTagFails(raw); }
    else { BareSha256Fails(raw); }
  }

  /** The handler's copy and the resolver's agree. */
  lemma SplitIsNormalize(name: string)
    ensures SplitName(name) == NormalizeRegistry(name)
  {
  }

  /** A pull of the reference's own name, or of its full registry/repository name, is split by the handler
      into the pair under which the resolver looks the manifest up. */
  lemma PullReachesResolverKey(raw: string)
    ensures var r := ParseImageRef(raw);
            SplitName(NamePart(raw)) == (r.registry, r.repository) &&
            SplitName(r.registry + "/" + r.repository) == (r.registry, r.repository)
  {
    NormalizeIdempotent(NamePart(raw));
    SplitIsNormalize(NamePart(raw));
    hide SplitName, NormalizeRegistry, NamePart;
    var r := ParseImageRef(raw);
    SplitIsNormalize(r.registry + "/" + r.repository);
  }

  /** A pull that names the repository alone reaches the resolver's key exactly for Docker Hub repositories
      that have a namespace which does not look like a registry. */
  lemma RepositoryPullReachesKeyIff(raw: string)
    ensures var r := ParseImageRef(raw);
            SplitName(r.repository) == (r.registry, r.repository) <==>
            r.registry == DEFAULT_REGISTRY && '/' in r.repository &&
            !LooksLikeRegistry(r.repository[..FirstIndex(r.repository, '/')])
  {
    var r := ParseImageRef(raw);
    var k := FirstIndex(r.repository, '/');
    if k >= 0 && LooksLikeRegistry(r.repository[..k]) {
      assert |r.repository[k + 1..]| < |r.repository|;
    }
  }
}
