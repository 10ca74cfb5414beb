/** The offline blob store: content-addressed blobs, their metadata sidecars, garbage collection, verification. */
module Stores {
  import opened Prelude
  import opened Strings
  import opened Crypto
  import opened Manifests

  datatype Sidecar = Sidecar(
    digest: string, size: nat, mediaType: string, imageRefs: seq<string>,
    firstImported: int, lastRequested: int, requestCount: nat)

  datatype StoreError =
    | DigestMismatch(expected: string, actual: string)
    | SidecarMissing(digest: string)
    | NoReport
    | NotInReport(digest: string)

  /** The directories `blobs/sha256` and `meta/sha256` by file name, and the digests of the latest report. */
  datatype State = State(blobs: map<string, Bytes>, meta: map<string, Sidecar>, report: Option<set<string>>)

  const EmptyState := State(map[], map[], None)

  datatype Candidate = Candidate(digest: string, size: nat, lastRequested: int, imageRefs: seq<string>)

  function CandidateOf(m: Sidecar): Candidate {
    Candidate(m.digest, m.size, m.lastRequested, m.imageRefs)
  }

  datatype GcSummary = GcSummary(count: nat, bytesFreed: nat)

  datatype VerifyReport = VerifyReport(total: nat, ok: nat, corrupted: seq<string>)

  /** One affected image of an impact report. */
  datatype Impact = Impact(
    path: seq<string>, image: string, platform: string, missingBlobs: seq<string>, totalBlobs: nat, missingSize: nat)

  // --- operations on values ---

  function WithSidecar(
      meta: map<string, Sidecar>, hex: string, size: nat, mediaType: string, imageRef: string, now: int)
    : map<string, Sidecar>
  {
    if hex in meta then
      var m := meta[hex];
      var refs := if imageRef != "" && imageRef !in m.imageRefs then m.imageRefs + [imageRef] else m.imageRefs;
      meta[hex := m.(imageRefs := refs, lastRequested := now, requestCount := m.requestCount + 1)]
    else
      meta[hex := Sidecar(Named(hex), size, mediaType, if imageRef != "" then [imageRef] else [], now, now, 0)]
  }

  /** An existing blob file is left as it is; only its sidecar is refreshed. */
  function Import(
      s: State, sha: Bytes -> string, data: Bytes, digest: string, mediaType: string, imageRef: string, now: int)
    : (State, Option<StoreError>)
  {
    var hex := Bare(digest);
    if sha(data) != hex then (s, Some(DigestMismatch(hex, sha(data))))
    else
      (s.(blobs := if hex in s.blobs then s.blobs else s.blobs[hex := data],
          meta := WithSidecar(s.meta, hex, |data|, mediaType, imageRef, now)), None)
  }

  function Touch(s: State, digest: string, now: int): (State, Option<StoreError>) {
    var hex := Bare(digest);
    if hex !in s.meta then (s, Some(SidecarMissing(digest)))
    else
      var m := s.meta[hex];
      (s.(meta := s.meta[hex := m.(lastRequested := now, requestCount := m.requestCount + 1)]), None)
  }

  function StaleNames(meta: map<string, Sidecar>, cutoff: int): set<string> {
    set k | k in meta && meta[k].lastRequested < cutoff
  }

  function Report(s: State, cutoff: int): State {
    s.(report := Some(set k | k in StaleNames(s.meta, cutoff) :: s.meta[k].digest))
  }

  /** How many digests come before the first one that the latest report does not list. */
  function Reported(digests: seq<string>, report: Option<set<string>>): (n: nat)
    ensures n <= |digests|
    ensures report.Some? ==> forall k :: 0 <= k < n ==> digests[k] in report.value
    ensures report.Some? && n < |digests| ==> digests[n] !in report.value
    ensures report.None? ==> n == 0
  {
    if report.None? || digests == [] || digests[0] !in report.value then 0
    else 1 + Reported(digests[1..], report)
  }

  function BareNames(digests: seq<string>): set<string> {
    set d | d in digests :: Bare(d)
  }

  /** Deletion up to the first unreported digest. */
  function Collect(s: State, digests: seq<string>): State {
    var gone := BareNames(digests[..Reported(digests, s.report)]);
    s.(blobs := s.blobs - gone, meta := s.meta - gone)
  }

  /** `(directory / name).exists()`: a blob file of that name, or a name for the directory itself or its parent. */
  predicate Has(digest: string, have: set<string>) {
    Bare(digest) in have || Bare(digest) in ["", ".", ".."]
  }

  /** The digests absent from a store that holds the names `have`, in order, repetitions kept. */
  function Missing(digests: seq<string>, have: set<string>): seq<string> {
    if digests == [] then []
    else if Has(digests[0], have) then Missing(digests[1..], have)
    else [digests[0]] + Missing(digests[1..], have)
  }

  // --- sizes ---

  ghost function TotalBytes(blobs: map<string, Bytes>): nat {
    if blobs == map[] then 0
    else
      var k :| k in blobs;
      |blobs[k]| + TotalBytes(blobs - {k})
  }

  lemma {:induction false} TotalWithout(blobs: map<string, Bytes>, k: string)
    requires k in blobs
    ensures TotalBytes(blobs) == |blobs[k]| + TotalBytes(blobs - {k})
    decreases |blobs|
  {
    var first :| first in blobs && TotalBytes(blobs) == |blobs[first]| + TotalBytes(blobs - {first});
    if first != k {
      TotalWithout(blobs - {first}, k);
      TotalWithout(blobs - {k}, first);
      assert blobs - {first} - {k} == blobs - {k} - {first};
    }
  }

  // --- invariants ---

  /** Names and sidecars match, sidecars name their blob, and references are listed once. */
  ghost predicate Tidy(s: State) {
    && s.blobs.Keys == s.meta.Keys
    && (forall k :: k in s.meta ==> s.meta[k].digest == Named(k) && NoDup(s.meta[k].imageRefs))
    && (forall k :: k in s.blobs ==> IsHex(k) && k != "")
    && (s.report.Some? ==> forall d :: d in s.report.value ==> PREFIX <= d)
  }

  /** On top: every blob hashes to its name, and its sidecar records its size. */
  ghost predicate WellFormed(s: State, sha: Bytes -> string) {
    && Tidy(s)
    && (forall k :: k in s.blobs ==> sha(s.blobs[k]) == k)
    && (forall k :: k in s.blobs ==> s.meta[k].size == |s.blobs[k]|)
  }

  datatype Event =
    | Importing(data: Bytes, digest: string, mediaType: string, imageRef: string, now: int)
    | Pulling(digest: string, now: int)
    | Reporting(cutoff: int)
    | Collecting(digests: seq<string>)
    | Rotting(name: string, data: Bytes)

  function Apply(s: State, sha: Bytes -> string, e: Event): State {
    match e
    case Importing(data, digest, mediaType, imageRef, now) => Import(s, sha, data, digest, mediaType, imageRef, now).0
    case Pulling(digest, now) => Touch(s, digest, now).0
    case Reporting(cutoff) => Report(s, cutoff)
    case Collecting(digests) => Collect(s, digests)
    case Rotting(name, data) => if name in s.blobs then s.(blobs := s.blobs[name := data]) else s
  }

  function Replay(s: State, sha: Bytes -> string, events: seq<Event>): State {
    if events == [] then s else Apply(Replay(s, sha, events[..|events| - 1]), sha, events[|events| - 1])
  }

  /** The same run without its bit rot. */
  function Healthy(events: seq<Event>): seq<Event> {
    if events == [] then []
    else
      var before, e := Healthy(events[..|events| - 1]), events[|events| - 1];
      if e.Rotting? then before else before + [e]
  }

  lemma ImportKeepsTidy(s: State, sha: Bytes -> string, e: Event)
    requires e.Importing? && Tidy(s) && GoodHash(sha)
    ensures Tidy(Apply(s, sha, e))
  {
    var hex := Bare(e.digest);
    if sha(e.data) == hex && hex in s.meta {
      var refs := s.meta[hex].imageRefs;
      NoDupAppend(refs, [e.imageRef]);
    }
  }

  lemma StepKeepsTidy(s: State, sha: Bytes -> string, e: Event)
    requires Tidy(s) && GoodHash(sha)
    ensures Tidy(Apply(s, sha, e))
  {
    if e.Importing? { ImportKeepsTidy(s, sha, e); }
  }

  lemma {:induction false} RunsAreTidy(sha: Bytes -> string, events: seq<Event>)
    requires GoodHash(sha)
    ensures Tidy(Replay(EmptyState, sha, events))
  {
    hide Apply, GoodHash;
    if events != [] {
      RunsAreTidy(sha, events[..|events| - 1]);
      hide Tidy;
      StepKeepsTidy(Replay(EmptyState, sha, events[..|events| - 1]), sha, events[|events| - 1]);
    }
  }

  lemma ImportKeepsWellFormed(s: State, sha: Bytes -> string, e: Event)
    requires e.Importing? && WellFormed(s, sha) && Tidy(Apply(s, sha, e))
    ensures WellFormed(Apply(s, sha, e), sha)
  {
    hide Tidy, Bare;
    var hex, after := Bare(e.digest), Apply(s, sha, e);
    assert s.blobs.Keys == s.meta.Keys && after.blobs.Keys == after.meta.Keys by { SameNames(s); SameNames(after); }
    forall k | k in after.blobs ensures sha(after.blobs[k]) == k && after.meta[k].size == |after.blobs[k]| {
      if k != hex { assert k in s.blobs; }
    }
  }

  lemma SameNames(s: State)
    requires Tidy(s)
    ensures s.blobs.Keys == s.meta.Keys
  {
  }

  lemma StepKeepsWellFormed(s: State, sha: Bytes -> string, e: Event)
    requires WellFormed(s, sha) && GoodHash(sha) && !e.Rotting?
    ensures WellFormed(Apply(s, sha, e), sha)
  {
    StepKeepsTidy(s, sha, e);
    if e.Importing? {
      ImportKeepsWellFormed(s, sha, e);
    } else {
      SameNames(s);
      hide Tidy;
    }
  }

  lemma ReplayMore(s: State, sha: Bytes -> string, events: seq<Event>, e: Event)
    ensures Replay(s, sha, events + [e]) == Apply(Replay(s, sha, events), sha, e)
  {
    assert (events + [e])[..|events|] == events;
  }

  /** In every state a store can reach without bit rot, blobs hash to their names, blob and sidecar domains
      match, recorded sizes are right and image references are unique. */
  lemma {:induction false} RunsAreContentAddressed(s: State, sha: Bytes -> string, events: seq<Event>)
    requires WellFormed(s, sha) && GoodHash(sha)
    ensures WellFormed(Replay(s, sha, Healthy(events)), sha)
  {
    hide Apply, WellFormed, GoodHash;
    if events != [] {
      var before, e := events[..|events| - 1], events[|events| - 1];
      RunsAreContentAddressed(s, sha, before);
      if !e.Rotting? {
        ReplayMore(s, sha, Healthy(before), e);
        StepKeepsWellFormed(Replay(s, sha, Healthy(before)), sha, e);
      }
    }
  }

  /** Two stores that differ at most in the bytes of their blobs. */
  ghost predicate Twins(a: State, b: State) {
    a.meta == b.meta && a.report == b.report && a.blobs.Keys == b.blobs.Keys
  }

  lemma StepKeepsTwins(a: State, b: State, sha: Bytes -> string, e: Event)
    requires Twins(a, b) && !e.Rotting?
    ensures Twins(Apply(a, sha, e), Apply(b, sha, e))
  {
  }

  lemma {:induction false} RotOnlyChangesBytes(s: State, sha: Bytes -> string, events: seq<Event>)
    ensures Twins(Replay(s, sha, events), Replay(s, sha, Healthy(events)))
  {
    if events != [] {
      var before, e := events[..|events| - 1], events[|events| - 1];
      RotOnlyChangesBytes(s, sha, before);
      if !e.Rotting? {
        StepKeepsTwins(Replay(s, sha, before), Replay(s, sha, Healthy(before)), sha, e);
        ReplayMore(s, sha, Healthy(before), e);
      }
    }
  }

  /** What verification has to find. */
  ghost function Corrupted(blobs: map<string, Bytes>, sha: Bytes -> string): set<string> {
    set k | k in blobs && sha(blobs[k]) != k
  }

  /** Over every run with bit rot anywhere in it, the blobs that verification finds are exactly those whose
      bytes differ from what the same run without the rot would hold. */
  lemma CorruptedIffRotted(sha: Bytes -> string, events: seq<Event>)
    requires GoodHash(sha)
    ensures var s, healthy := Replay(EmptyState, sha, events), Replay(EmptyState, sha, Healthy(events));
            s.blobs.Keys == healthy.blobs.Keys &&
            Corrupted(s.blobs, sha) == set k | k in s.blobs && s.blobs[k] != healthy.blobs[k]
  {
    RotOnlyChangesBytes(EmptyState, sha, events);
    RunsAreContentAddressed(EmptyState, sha, events);
  }

  // --- last use ---

  /** The time of the last successful import of the name, or of the last pull of it. */
  function LastUse(events: seq<Event>, sha: Bytes -> string, k: string): Option<int> {
    if events == [] then None
    else
      var e := events[|events| - 1];
      if e.Importing? && sha(e.data) == Bare(e.digest) == k then Some(e.now)
      else if e.Pulling? && Bare(e.digest) == k then Some(e.now)
      else LastUse(events[..|events| - 1], sha, k)
  }

  /** Sidecars record the last use, over every run. */
  lemma {:induction false} SidecarsRecordLastUse(sha: Bytes -> string, events: seq<Event>, k: string)
    ensures var s := Replay(EmptyState, sha, events);
            k in s.meta ==> LastUse(events, sha, k) == Some(s.meta[k].lastRequested)
  {
    hide Bare, Named;
    if events != [] { SidecarsRecordLastUse(sha, events[..|events| - 1], k); }
  }

  /** A collection report made after any run, rot included, lists exactly the stored blobs whose last import or pull
      is older than the cut-off. */
  lemma ReportListsTheUnused(sha: Bytes -> string, events: seq<Event>, cutoff: int, k: string)
    requires GoodHash(sha)
    ensures var s := Replay(EmptyState, sha, events);
            Named(k) in Report(s, cutoff).report.value <==>
            k in s.blobs && LastUse(events, sha, k).Some? && LastUse(events, sha, k).value < cutoff
  {
    RunsAreTidy(sha, events);
    SidecarsRecordLastUse(sha, events, k);
    var s := Replay(EmptyState, sha, events);
    hide Replay, LastUse;
    NamedInjective();
    if Named(k) in Report(s, cutoff).report.value {
      var j :| j in StaleNames(s.meta, cutoff) && s.meta[j].digest == Named(k);
      assert Named(j) == Named(k);
    }
  }

  // --- collection and what it leaves usable ---

  function Present(digests: seq<string>, have: set<string>): set<string> {
    set d | d in digests && Bare(d) in have
  }

  /** The impact report compares digest strings, so a digest without prefix is covered only by its prefixed twin. */
  predicate SpelledOut(needed: seq<string>) {
    forall d :: d in needed && IsHex(d) && d != "" ==> Named(d) in needed
  }

  predicate Unlisted(needed: seq<string>, digests: seq<string>) {
    forall d :: d in needed ==> d !in digests
  }

  ghost predicate KeepsUsable(needed: seq<string>, s: State, digests: seq<string>) {
    Tidy(s) && Unlisted(needed, digests) ==>
      Present(needed, Collect(s, digests).blobs.Keys) == Present(needed, s.blobs.Keys)
  }

  lemma UnlistedIsUntouched(needed: seq<string>, s: State, digests: seq<string>)
    requires SpelledOut(needed)
    ensures KeepsUsable(needed, s, digests)
  {
    var n := Reported(digests, s.report);
    if Tidy(s) && Unlisted(needed, digests) {
      forall x, d | x in digests[..n] && d in needed && Bare(d) in s.blobs ensures Bare(x) != Bare(d) {
        NamedBare(x);
        if PREFIX <= d { NamedBare(d); }
      }
    }
  }

  /** A store with the single blob `d`, reported for collection. */
  function SoleBlob(d: string): State {
    State(map[d := []], map[d := Sidecar(Named(d), 0, "", [], 0, 0, 0)], Some({Named(d)}))
  }

  lemma UnprefixedIsMissed(needed: seq<string>, d: string)
    requires d in needed && IsHex(d) && d != "" && Named(d) !in needed
    ensures Tidy(SoleBlob(d)) && !KeepsUsable(needed, SoleBlob(d), [Named(d)])
  {
    var s, digests := SoleBlob(d), [Named(d)];
    HexIsBare(d);
    assert digests[..1] == digests;
    assert Bare(digests[0]) in BareNames(digests[..1]);
    assert d in Present(needed, s.blobs.Keys);
    assert d !in Present(needed, Collect(s, digests).blobs.Keys);
  }

  /** A manifest that the impact report does not list keeps exactly its present blobs through every collection,
      complete or stopped part way, over every well-kept
      store, if and only if its digests without prefix also appear with it. */
  lemma ImpactIsCompleteIff(needed: seq<string>)
    ensures SpelledOut(needed) <==> forall s: State, digests: seq<string> :: KeepsUsable(needed, s, digests)
  {
    if SpelledOut(needed) {
      forall s: State, digests: seq<string> ensures KeepsUsable(needed, s, digests) {
        UnlistedIsUntouched(needed, s, digests);
      }
    } else {
      var d :| d in needed && IsHex(d) && d != "" && Named(d) !in needed;
      UnprefixedIsMissed(needed, d);
    }
  }

  /** For the store as a whole: a readable manifest that the report leaves out, and that spells its digests out,
      stays exactly as usable as it was. */
  lemma UnreportedImagesStayUsable(s: State, files: map<seq<string>, Option<Body>>, digests: seq<string>, p: seq<string>)
    requires Tidy(s) && p in files && files[p].Some? && p !in ImpactedPaths(files, digests)
    requires SpelledOut(NeededDigests(files[p].value))
    ensures var needed := NeededDigests(files[p].value);
            Present(needed, Collect(s, digests).blobs.Keys) == Present(needed, s.blobs.Keys)
  {
    UnlistedIsUntouched(NeededDigests(files[p].value), s, digests);
  }

  /** Only blobs of the latest report are ever deleted, and never past the first unreported digest. */
  lemma OnlyReportedAreDeleted(s: State, digests: seq<string>, k: string)
    requires Tidy(s) && k in s.blobs && k !in Collect(s, digests).blobs
    ensures s.report.Some? && Named(k) in s.report.value && Named(k) in digests[..Reported(digests, s.report)]
  {
    var n := Reported(digests, s.report);
    var d :| d in digests[..n] && Bare(d) == k;
    NamedBare(d);
  }

  /** A pull between report and collection does not save a stored blob: its sidecar is fresh, and it is deleted all
      the same. */
  lemma PulledSinceReportIsDeleted(s: State, digest: string, now: int)
    requires Tidy(s) && s.report.Some? && digest in s.report.value && Bare(digest) in s.blobs
    ensures var touched := Touch(s, digest, now).0;
            Touch(s, digest, now).1.None? && Bare(digest) in touched.blobs &&
            touched.meta[Bare(digest)].lastRequested == now &&
            Collect(touched, [digest]).blobs == s.blobs - {Bare(digest)}
  {
    var touched := Touch(s, digest, now).0;
    assert Reported([digest], touched.report) == 1;
    assert [digest][..1] == [digest];
    assert BareNames([digest]) == {Bare(digest)};
  }

  /** A stored blob whose sidecar says it was used at or after the cut-off. */
  predicate Fresh(s: State, k: string, cutoff: int) {
    k in s.blobs && k in s.meta && s.meta[k].lastRequested >= cutoff
  }

  /** The digests that a collection deletes. */
  function ReportedPrefix(s: State, digests: seq<string>): seq<string> {
    digests[..Reported(digests, s.report)]
  }

  ghost predicate FreshSurvive(s: State, digests: seq<string>, cutoff: int) {
    forall k :: Fresh(s, k, cutoff) ==> k in Collect(s, digests).blobs
  }

  /** Collection spares every recently used blob exactly when no digest it goes through names one. */
  lemma FreshSurviveIff(s: State, digests: seq<string>, cutoff: int)
    ensures FreshSurvive(s, digests, cutoff) <==> forall d :: d in ReportedPrefix(s, digests) ==> !Fresh(s, Bare(d), cutoff)
  {
    var gone := BareNames(ReportedPrefix(s, digests));
    forall d | d in ReportedPrefix(s, digests) ensures Bare(d) in gone {}
    if FreshSurvive(s, digests, cutoff) {
      forall d | d in ReportedPrefix(s, digests) ensures !Fresh(s, Bare(d), cutoff) {
        assert Bare(d) !in Collect(s, digests).blobs;
      }
    }
  }

  lemma {:induction false} LastUseAppend(a: seq<Event>, b: seq<Event>, sha: Bytes -> string, k: string)
    ensures LastUse(a + b, sha, k) == if LastUse(b, sha, k).Some? then LastUse(b, sha, k) else LastUse(a, sha, k)
  {
    hide Bare;
    if b == [] {
      assert a + b == a;
    } else {
      var n := |b| - 1;
      assert (a + b)[..|a + b| - 1] == a + b[..n] && (a + b)[|a + b| - 1] == b[n];
      LastUseAppend(a, b[..n], sha, k);
    }
  }

  lemma {:induction false} ReplayAppend(s: State, sha: Bytes -> string, a: seq<Event>, b: seq<Event>)
    ensures Replay(s, sha, a + b) == Replay(Replay(s, sha, a), sha, b)
  {
    hide Apply;
    if b == [] {
      assert a + b == a;
    } else {
      var n := |b| - 1;
      assert (a + b)[..|a + b| - 1] == a + b[..n] && (a + b)[|a + b| - 1] == b[n];
      ReplayAppend(s, sha, a, b[..n]);
    }
  }

  /** No newer report. */
  predicate KeepsReport(events: seq<Event>) {
    forall k :: 0 <= k < |events| ==> !events[k].Reporting?
  }

  lemma {:induction false} ReportIsKept(s: State, sha: Bytes -> string, events: seq<Event>)
    requires KeepsReport(events)
    ensures Replay(s, sha, events).report == s.report
  {
    hide Import, Touch, Collect;
    if events != [] {
      var n := |events| - 1;
      assert forall k :: 0 <= k < n ==> events[..n][k] == events[k];
      ReportIsKept(s, sha, events[..n]);
      StepKeepsReport(Replay(s, sha, events[..n]), sha, events[n]);
    }
  }

  lemma StepKeepsReport(s: State, sha: Bytes -> string, e: Event)
    requires !e.Reporting?
    ensures Apply(s, sha, e).report == s.report
  {
  }

  /** A use of the blob at or after the cut-off, with none later. */
  predicate UsedSince(events: seq<Event>, sha: Bytes -> string, k: string, cutoff: int) {
    LastUse(events, sha, k).Some? && LastUse(events, sha, k).value >= cutoff
  }

  /** A reported blob was last used before the cut-off; what makes it fresh again is a use after the report. */
  lemma FreshMeansUsedSince(
      sha: Bytes -> string, before: seq<Event>, cutoff: int, during: seq<Event>, d: string)
    requires GoodHash(sha) && KeepsReport(during)
    requires var s := Replay(EmptyState, sha, before + [Reporting(cutoff)] + during);
             s.report.Some? && d in s.report.value
    ensures var s := Replay(EmptyState, sha, before + [Reporting(cutoff)] + during);
            Fresh(s, Bare(d), cutoff) <==> Bare(d) in s.blobs && UsedSince(during, sha, Bare(d), cutoff)
  {
    var s0 := Replay(EmptyState, sha, before);
    var all := before + [Reporting(cutoff)] + during;
    var s, k := Replay(EmptyState, sha, all), Bare(d);
    ReplayMore(EmptyState, sha, before, Reporting(cutoff));
    ReplayAppend(EmptyState, sha, before + [Reporting(cutoff)], during);
    ReportIsKept(Report(s0, cutoff), sha, during);
    assert d in Report(s0, cutoff).report.value;
    ReportedWasUnused(sha, before, cutoff, d);
    LastUseAppend(before + [Reporting(cutoff)], during, sha, k);
    LastUseAppend(before, [Reporting(cutoff)], sha, k);
    NoUseInReporting(cutoff, sha, k);
    SidecarsRecordLastUse(sha, all, k);
    RunsAreTidy(sha, all);
    hide Replay, LastUse, Report;
  }

  lemma NoUseInReporting(cutoff: int, sha: Bytes -> string, k: string)
    ensures LastUse([Reporting(cutoff)], sha, k) == None
  {
    assert [Reporting(cutoff)][..0] == [];
  }

  lemma ReportedWasUnused(sha: Bytes -> string, before: seq<Event>, cutoff: int, d: string)
    requires GoodHash(sha)
    requires d in Report(Replay(EmptyState, sha, before), cutoff).report.value
    ensures LastUse(before, sha, Bare(d)).Some? && LastUse(before, sha, Bare(d)).value < cutoff
  {
    var s := Replay(EmptyState, sha, before);
    RunsAreTidy(sha, before);
    var k :| k in StaleNames(s.meta, cutoff) && s.meta[k].digest == d;
    SidecarsRecordLastUse(sha, before, k);
    HexIsBare(k);
  }

  /** Over every run: a collection after a report at `cutoff` and further imports, pulls and collections spares every
      blob used at or after the cut-off exactly when no stored blob among the digests it goes through was last used
      at or after the cut-off since the report. */
  lemma RunSparesUsedIff(
      sha: Bytes -> string, before: seq<Event>, cutoff: int, during: seq<Event>, digests: seq<string>)
    requires GoodHash(sha) && KeepsReport(during)
    ensures var all := before + [Reporting(cutoff)] + during; var s := Replay(EmptyState, sha, all);
            (forall k :: k in s.blobs && UsedSince(all, sha, k, cutoff) ==> k in Collect(s, digests).blobs) <==>
            (forall d :: d in ReportedPrefix(s, digests) ==> !(Bare(d) in s.blobs && UsedSince(during, sha, Bare(d), cutoff)))
  {
    var all := before + [Reporting(cutoff)] + during;
    var s := Replay(EmptyState, sha, all);
    RunsAreTidy(sha, all);
    FreshSurviveIff(s, digests, cutoff);
    hide Replay, LastUse, Collect;
    forall k | k in s.blobs ensures Fresh(s, k, cutoff) <==> UsedSince(all, sha, k, cutoff) {
      SidecarsRecordLastUse(sha, all, k);
    }
    forall d | d in ReportedPrefix(s, digests)
      ensures Fresh(s, Bare(d), cutoff) <==> Bare(d) in s.blobs && UsedSince(during, sha, Bare(d), cutoff)
    {
      FreshMeansUsedSince(sha, before, cutoff, during, d);
    }
  }

  function Affected(needed: seq<string>, digests: seq<string>): seq<string> {
    if needed == [] then []
    else if needed[0] in digests then [needed[0]] + Affected(needed[1..], digests)
    else Affected(needed[1..], digests)
  }

  lemma {:induction false} AffectedMembers(needed: seq<string>, digests: seq<string>)
    ensures forall d :: d in Affected(needed, digests) <==> d in needed && d in digests
    ensures Affected(needed, digests) == [] <==> Unlisted(needed, digests)
  {
    if needed != [] {
      AffectedMembers(needed[1..], digests);
      assert needed == [needed[0]] + needed[1..];
    }
  }

  function SidecarSizes(digests: seq<string>, meta: map<string, Sidecar>): nat {
    if digests == [] then 0
    else
      var rest := SidecarSizes(digests[..|digests| - 1], meta);
      var hex := Bare(digests[|digests| - 1]);
      if hex in meta then rest + meta[hex].size else rest
  }

  function ImageLabel(path: seq<string>): string {
    if |path| >= 4 && path[|path| - 2] != "" then
      path[0] + "/" + JoinPath(path[1..|path| - 2]) + ":" + path[|path| - 2]
    else JoinPath(path)
  }

  function PlatformLabel(path: seq<string>): string {
    if |path| >= 4 then ReplaceChar(RemoveAll(path[|path| - 1], ".json"), '-', '/') else ""
  }

  function ImpactOf(path: seq<string>, m: Body, digests: seq<string>, meta: map<string, Sidecar>): Impact {
    var needed := NeededDigests(m);
    var affected := Affected(needed, digests);
    Impact(path, ImageLabel(path), PlatformLabel(path), affected, |needed|, SidecarSizes(affected, meta))
  }

  /** The manifest files an impact report must list: readable ones that need a digest of the given ones. */
  function ImpactedPaths(files: map<seq<string>, Option<Body>>, digests: seq<string>): set<seq<string>> {
    set p | p in files && files[p].Some? && !Unlisted(NeededDigests(files[p].value), digests)
  }

  // --- the class ---

  class Store {
    const sha: Bytes -> string
    var blobs: map<string, Bytes>
    var meta: map<string, Sidecar>
    var lastReport: Option<set<string>>

    constructor (sha: Bytes -> string)
      ensures this.sha == sha && Current() == EmptyState
    {
      this.sha := sha;
      blobs, meta, lastReport := map[], map[], None;
    }

    function Current(): State
      reads this
    {
      State(blobs, meta, lastReport)
    }

    /** Verified import; a mismatch changes nothing. */
    method ImportBlob(data: Bytes, expectedDigest: string, mediaType: string, imageRef: string, now: int)
      returns (error: Option<StoreError>)
      modifies this
      ensures (Current(), error) == Import(old(Current()), sha, data, expectedDigest, mediaType, imageRef, now)
    {
      var hex := Bare(expectedDigest);
      var actual := sha(data);
      if actual != hex {
        return Some(DigestMismatch(hex, actual));
      }
      if hex !in blobs {
        blobs := blobs[hex := data];
      }
      WriteSidecar(hex, |data|, mediaType, imageRef, now);
      return None;
    }

    method WriteSidecar(hex: string, size: nat, mediaType: string, imageRef: string, now: int)
      modifies this`meta
      ensures meta == WithSidecar(old(meta), hex, size, mediaType, imageRef, now)
    {
      if hex in meta {
        var m := meta[hex];
        if imageRef != "" && imageRef !in m.imageRefs {
          m := m.(imageRefs := m.imageRefs + [imageRef]);
        }
        meta := meta[hex := m.(lastRequested := now, requestCount := m.requestCount + 1)];
      } else {
        var refs := if imageRef != "" then [imageRef] else [];
        meta := meta[hex := Sidecar(Named(hex), size, mediaType, refs, now, now, 0)];
      }
    }

    method UpdateMetadata(digest: string, now: int) returns (error: Option<StoreError>)
      modifies this`meta
      ensures (Current(), error) == Touch(old(Current()), digest, now)
    {
      var hex := Bare(digest);
      if hex !in meta {
        return Some(SidecarMissing(digest));
      }
      var m := meta[hex];
      meta := meta[hex := m.(lastRequested := now, requestCount := m.requestCount + 1)];
      return None;
    }

    method ListMissing(digests: seq<string>) returns (r: seq<string>)
      ensures r == Missing(digests, blobs.Keys)
    {
      r := [];
      for k := 0 to |digests|
        invariant r + Missing(digests[k..], blobs.Keys) == Missing(digests, blobs.Keys)
      {
        assert digests[k..][1..] == digests[k + 1..];
        if !Has(digests[k], blobs.Keys) {
          r := r + [digests[k]];
        }
      }
    }

    /** The sidecars are scanned in any order. Each stale one yields one candidate, nothing else does, and the
        report remembered for collection is exactly what the caller is shown. */
    method GcReport(cutoff: int) returns (candidates: seq<Candidate>)
      modifies this`lastReport
      ensures Current() == Report(old(Current()), cutoff)
      ensures |candidates| == |StaleNames(meta, cutoff)|
      ensures ToSet(candidates) == set k | k in StaleNames(meta, cutoff) :: CandidateOf(meta[k])
      ensures lastReport == Some(set c | c in candidates :: c.digest)
    {
      hide ReportSoFar;
      candidates := [];
      var sidecars := meta;
      var todo := sidecars.Keys;
      ReportStarts(sidecars, cutoff);
      while todo != {}
        invariant ReportSoFar(sidecars, cutoff, todo, candidates)
        decreases todo
      {
        var k :| k in todo;
        ReportGoesOn(sidecars, cutoff, todo, candidates, k);
        todo := todo - {k};
        if sidecars[k].lastRequested < cutoff {
          candidates := candidates + [CandidateOf(sidecars[k])];
        }
      }
      ReportIsDone(sidecars, cutoff, candidates);
      lastReport := Some(set c | c in candidates :: c.digest);
    }

    /** Deletes digest after digest and stops at the first one not in the latest report. Whatever happens,
        exactly the reported prefix is gone; on a normal return the bytes add up. */
    method GcExecute(digests: seq<string>) returns (r: Result<GcSummary, StoreError>)
      modifies this`blobs, this`meta
      ensures Current() == Collect(old(Current()), digests)
      ensures r.Ok? <==> lastReport.Some? && forall d :: d in digests ==> d in lastReport.value
      ensures r.Ok? ==> r.value.count == |digests| &&
                        TotalBytes(old(blobs)) == TotalBytes(blobs) + r.value.bytesFreed
      ensures r.Err? ==> r.error == if lastReport.None? then NoReport
                                    else NotInReport(digests[Reported(digests, lastReport)])
    {
      hide TotalBytes, Bare, BareNames, Reported;
      if lastReport.None? {
        NothingCollected(Current(), digests);
        return Err(NoReport);
      }
      var report := lastReport.value;
      var count: nat, bytesFreed: nat := 0, 0;
      NothingCollected(Current(), digests);
      for i := 0 to |digests|
        invariant forall k :: 0 <= k < i ==> digests[k] in report
        invariant blobs == old(blobs) - BareNames(digests[..i]) && meta == old(meta) - BareNames(digests[..i])
        invariant count == i && TotalBytes(old(blobs)) == TotalBytes(blobs) + bytesFreed
      {
        var digest := digests[i];
        if digest !in report {
          ReportedIs(digests, lastReport, i);
          return Err(NotInReport(digest));
        }
        var hex := Bare(digest);
        BareNamesGrow(digests, i);
        var size: nat := 0;
        if hex in blobs {
          size := |blobs[hex]|;
          TotalWithout(blobs, hex);
          blobs := blobs - {hex};
        }
        if hex in meta {
          meta := meta - {hex};
        }
        assert blobs == old(blobs) - BareNames(digests[..i + 1]);
        assert meta == old(meta) - BareNames(digests[..i + 1]);
        bytesFreed := bytesFreed + size;
        count := count + 1;
      }
      ReportedIs(digests, lastReport, |digests|);
      return Ok(GcSummary(count, bytesFreed));
    }

    /** Scans the manifest files in any order; unreadable ones are skipped. */
    method GcImpactReport(digests: seq<string>, files: map<seq<string>, Option<Body>>) returns (impact: seq<Impact>)
      ensures ToSet(impact) == ImpactsOf(ImpactedPaths(files, digests), files, digests, meta)
      ensures |impact| == |ImpactedPaths(files, digests)|
    {
      hide ImpactSoFar, Affected, NeededDigests, ImageLabel, PlatformLabel, SidecarSizes;
      impact := [];
      var sidecars := meta;
      var todo := files.Keys;
      ImpactStarts(files, digests, sidecars);
      while todo != {}
        invariant ImpactSoFar(files, digests, sidecars, todo, impact)
        decreases todo
      {
        var p :| p in todo;
        ImpactGoesOn(files, digests, sidecars, todo, impact, p);
        todo := todo - {p};
        if files[p].Some? {
          var needed := NeededDigests(files[p].value);
          var affected := Affected(needed, digests);
          if affected != [] {
            var missingSize := SizeOf(affected);
            impact := impact + [Impact(p, ImageLabel(p), PlatformLabel(p), affected, |needed|, missingSize)];
          }
        }
      }
      ImpactIsDone(files, digests, sidecars, impact);
    }

    /** Digests without a sidecar count nothing. */
    method SizeOf(affected: seq<string>) returns (missingSize: nat)
      ensures missingSize == SidecarSizes(affected, meta)
    {
      missingSize := 0;
      for k := 0 to |affected|
        invariant missingSize == SidecarSizes(affected[..k], meta)
      {
        assert affected[..k + 1][..k] == affected[..k];
        var hex := Bare(affected[k]);
        if hex in meta {
          missingSize := missingSize + meta[hex].size;
        }
      }
      assert affected[..|affected|] == affected;
    }

    /** Re-hashes every blob file that is not hidden, in any order. */
    method Verify() returns (r: VerifyReport)
      ensures r.total == r.ok + |r.corrupted|
      ensures r.total == |Visible(blobs)|
      ensures NoDup(r.corrupted)
      ensures ToSet(r.corrupted) == NamesOf(Corrupted(blobs, sha) * Visible(blobs))
    {
      hide VerifiedSoFar;
      var total: nat, ok: nat := 0, 0;
      var corrupted := [];
      var files := blobs;
      var todo := files.Keys;
      VerifyStarts(files, sha);
      while todo != {}
        invariant VerifiedSoFar(files, sha, todo, total, ok, corrupted)
        decreases todo
      {
        var k :| k in todo;
        VerifyGoesOn(files, sha, todo, total, ok, corrupted, k);
        todo := todo - {k};
        if !("." <= k) {
          total := total + 1;
          if sha(files[k]) == k {
            ok := ok + 1;
          } else {
            corrupted := corrupted + [Named(k)];
          }
        }
      }
      VerifyIsDone(files, sha, total, ok, corrupted);
      return VerifyReport(total, ok, corrupted);
    }
  }

  ghost function ImpactsOf(
      paths: set<seq<string>>, files: map<seq<string>, Option<Body>>, digests: seq<string>, meta: map<string, Sidecar>)
    : set<Impact>
  {
    set p | p in paths && p in files && files[p].Some? :: ImpactOf(p, files[p].value, digests, meta)
  }

  /** Blob files whose name does not start with a dot. */
  function Visible(blobs: map<string, Bytes>): set<string> {
    set k | k in blobs && !("." <= k)
  }

  function NamesOf(hexes: set<string>): set<string> {
    set k | k in hexes :: Named(k)
  }

  // --- the scanning loops: what has been found when `todo` is still to be visited ---

  ghost predicate ReportSoFar(meta: map<string, Sidecar>, cutoff: int, todo: set<string>, candidates: seq<Candidate>) {
    var found := StaleNames(meta, cutoff) - todo;
    && todo <= meta.Keys
    && |candidates| == |found|
    && ToSet(candidates) == set k | k in found :: CandidateOf(meta[k])
  }

  lemma ReportStarts(meta: map<string, Sidecar>, cutoff: int)
    ensures ReportSoFar(meta, cutoff, meta.Keys, [])
  {
    assert StaleNames(meta, cutoff) - meta.Keys == {};
  }

  lemma ReportGoesOn(meta: map<string, Sidecar>, cutoff: int, todo: set<string>, candidates: seq<Candidate>, k: string)
    requires ReportSoFar(meta, cutoff, todo, candidates) && k in todo
    ensures k in meta
    ensures ReportSoFar(meta, cutoff, todo - {k},
              if meta[k].lastRequested < cutoff then candidates + [CandidateOf(meta[k])] else candidates)
  {
    var found, more := StaleNames(meta, cutoff) - todo, StaleNames(meta, cutoff) - (todo - {k});
    hide CandidateOf;
    if meta[k].lastRequested < cutoff {
      assert more == found + {k};
      ToSetAppend(candidates, [CandidateOf(meta[k])]);
    } else {
      assert more == found;
    }
  }

  lemma ReportIsDone(meta: map<string, Sidecar>, cutoff: int, candidates: seq<Candidate>)
    requires ReportSoFar(meta, cutoff, {}, candidates)
    ensures |candidates| == |StaleNames(meta, cutoff)|
    ensures ToSet(candidates) == set k | k in StaleNames(meta, cutoff) :: CandidateOf(meta[k])
    ensures (set c | c in candidates :: c.digest) == set k | k in StaleNames(meta, cutoff) :: meta[k].digest
  {
    assert StaleNames(meta, cutoff) - {} == StaleNames(meta, cutoff);
    SameDigests(candidates, StaleNames(meta, cutoff), meta);
  }

  ghost predicate ImpactSoFar(
      files: map<seq<string>, Option<Body>>, digests: seq<string>, meta: map<string, Sidecar>,
      todo: set<seq<string>>, impact: seq<Impact>)
  {
    var listed := ImpactedPaths(files, digests) - todo;
    && todo <= files.Keys
    && |impact| == |listed|
    && ToSet(impact) == ImpactsOf(listed, files, digests, meta)
  }

  lemma ImpactStarts(files: map<seq<string>, Option<Body>>, digests: seq<string>, meta: map<string, Sidecar>)
    ensures ImpactSoFar(files, digests, meta, files.Keys, [])
  {
    assert ImpactedPaths(files, digests) - files.Keys == {};
  }

  lemma ImpactGoesOn(
      files: map<seq<string>, Option<Body>>, digests: seq<string>, meta: map<string, Sidecar>,
      todo: set<seq<string>>, impact: seq<Impact>, p: seq<string>)
    requires ImpactSoFar(files, digests, meta, todo, impact) && p in todo
    ensures p in files
    ensures ImpactSoFar(files, digests, meta, todo - {p},
              if files[p].Some? && Affected(NeededDigests(files[p].value), digests) != []
              then impact + [ImpactOf(p, files[p].value, digests, meta)] else impact)
  {
    hide ImpactOf, Affected, NeededDigests, Unlisted;
    var listed := ImpactedPaths(files, digests) - todo;
    var more := ImpactedPaths(files, digests) - (todo - {p});
    if files[p].Some? { AffectedMembers(NeededDigests(files[p].value), digests); }
    if files[p].Some? && Affected(NeededDigests(files[p].value), digests) != [] {
      assert more == listed + {p};
      ToSetAppend(impact, [ImpactOf(p, files[p].value, digests, meta)]);
    } else {
      assert more == listed;
    }
  }

  lemma ImpactIsDone(
      files: map<seq<string>, Option<Body>>, digests: seq<string>, meta: map<string, Sidecar>, impact: seq<Impact>)
    requires ImpactSoFar(files, digests, meta, {}, impact)
    ensures |impact| == |ImpactedPaths(files, digests)|
    ensures ToSet(impact) == ImpactsOf(ImpactedPaths(files, digests), files, digests, meta)
  {
    assert ImpactedPaths(files, digests) - {} == ImpactedPaths(files, digests);
  }

  ghost predicate VerifiedSoFar(
      blobs: map<string, Bytes>, sha: Bytes -> string, todo: set<string>, total: nat, ok: nat, corrupted: seq<string>)
  {
    && todo <= blobs.Keys
    && total == ok + |corrupted| && total == |Visible(blobs) - todo|
    && NoDup(corrupted)
    && ToSet(corrupted) == NamesOf(Corrupted(blobs, sha) * Visible(blobs) - todo)
  }

  lemma VerifyStarts(blobs: map<string, Bytes>, sha: Bytes -> string)
    ensures VerifiedSoFar(blobs, sha, blobs.Keys, 0, 0, [])
  {
    assert Visible(blobs) - blobs.Keys == {};
    assert Corrupted(blobs, sha) * Visible(blobs) - blobs.Keys == {};
  }

  lemma VerifyGoesOn(
      blobs: map<string, Bytes>, sha: Bytes -> string, todo: set<string>, total: nat, ok: nat, corrupted: seq<string>,
      k: string)
    requires VerifiedSoFar(blobs, sha, todo, total, ok, corrupted) && k in todo
    ensures k in blobs
    ensures if "." <= k then VerifiedSoFar(blobs, sha, todo - {k}, total, ok, corrupted)
            else if sha(blobs[k]) == k then VerifiedSoFar(blobs, sha, todo - {k}, total + 1, ok + 1, corrupted)
            else VerifiedSoFar(blobs, sha, todo - {k}, total + 1, ok, corrupted + [Named(k)])
  {
    hide NoDup, Named, NamesOf, ToSet;
    var seen, bad := Visible(blobs) - todo, Corrupted(blobs, sha) * Visible(blobs) - todo;
    var seen2, bad2 := Visible(blobs) - (todo - {k}), Corrupted(blobs, sha) * Visible(blobs) - (todo - {k});
    if "." <= k {
      assert seen2 == seen && bad2 == bad;
    } else {
      assert seen2 == seen + {k};
      if sha(blobs[k]) == k {
        assert bad2 == bad;
      } else {
        assert bad2 == bad + {k};
        AddName(corrupted, bad, k);
      }
    }
  }

  lemma VerifyIsDone(blobs: map<string, Bytes>, sha: Bytes -> string, total: nat, ok: nat, corrupted: seq<string>)
    requires VerifiedSoFar(blobs, sha, {}, total, ok, corrupted)
    ensures total == ok + |corrupted| && total == |Visible(blobs)|
    ensures NoDup(corrupted) && ToSet(corrupted) == NamesOf(Corrupted(blobs, sha) * Visible(blobs))
  {
    assert Visible(blobs) - {} == Visible(blobs);
    assert Corrupted(blobs, sha) * Visible(blobs) - {} == Corrupted(blobs, sha) * Visible(blobs);
  }

  lemma AddName(corrupted: seq<string>, bad: set<string>, k: string)
    requires NoDup(corrupted) && ToSet(corrupted) == NamesOf(bad) && k !in bad
    ensures NoDup(corrupted + [Named(k)]) && ToSet(corrupted + [Named(k)]) == NamesOf(bad + {k})
  {
    NamedInjective();
    hide Named;
    NoDupAppend(corrupted, [Named(k)]);
    ToSetAppend(corrupted, [Named(k)]);
  }

  lemma SameDigests(candidates: seq<Candidate>, found: set<string>, meta: map<string, Sidecar>)
    requires found <= meta.Keys
    requires ToSet(candidates) == set k | k in found :: CandidateOf(meta[k])
    ensures (set c | c in candidates :: c.digest) == set k | k in found :: meta[k].digest
  {
    forall k | k in found ensures meta[k].digest in (set c | c in candidates :: c.digest) {
      assert CandidateOf(meta[k]) in ToSet(candidates);
    }
    forall c | c in candidates ensures c.digest in (set k | k in found :: meta[k].digest) {
      assert c in ToSet(candidates);
    }
  }

  lemma NamedInjective()
    ensures forall a, b :: Named(a) == Named(b) ==> a == b
  {
    forall a, b | Named(a) == Named(b) ensures a == b {
      assert Named(a)[7..] == a && Named(b)[7..] == b;
    }
  }

  lemma {:induction false} ReportedIs(digests: seq<string>, report: Option<set<string>>, n: nat)
    requires report.Some? && n <= |digests|
    requires forall k :: 0 <= k < n ==> digests[k] in report.value
    requires n < |digests| ==> digests[n] !in report.value
    ensures Reported(digests, report) == n
  {
  }

  lemma NothingCollected(s: State, digests: seq<string>)
    ensures s.blobs - BareNames(digests[..0]) == s.blobs && s.meta - BareNames(digests[..0]) == s.meta
    ensures s.report.None? ==> Collect(s, digests) == s
  {
  }

  lemma BareNamesGrow(digests: seq<string>, i: nat)
    requires i < |digests|
    ensures BareNames(digests[..i + 1]) == BareNames(digests[..i]) + {Bare(digests[i])}
  {
    assert digests[..i + 1] == digests[..i] + [digests[i]];
  }
}
