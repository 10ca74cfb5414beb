/** The online side's blob cache and its parallel fetcher. */
module Fetching {
  import opened Prelude
  import opened Crypto
  import opened Resolver
  import Stores

  const MAX_SHA_RETRIES := 3
  const SECONDS_PER_DAY := 86400

  datatype FetchError = FetchError(digest: string, error: string)

  datatype FetchResult = FetchResult(downloaded: seq<string>, skipped: seq<string>, errors: seq<FetchError>)

  /** What the network answers to one attempt: chunks, a registry or store error, or any other exception. */
  datatype Reply = Data(chunks: seq<Bytes>) | Refused(error: string) | Unexpected

  /** How a worker ends. */
  datatype Outcome = Fetched(data: Bytes) | Failed(error: string) | Crashed

  function Concat(chunks: seq<Bytes>): Bytes {
    if chunks == [] then [] else Concat(chunks[..|chunks| - 1]) + chunks[|chunks| - 1]
  }

  function MismatchError(digest: string): string {
    "SHA256 mismatch after 3 attempts for " + digest
  }

  /** The retry loop from a given attempt on: only a hash mismatch is retried. */
  function Attempts(sha: Bytes -> string, digest: string, replies: nat -> Reply, attempt: nat): Outcome
    decreases MAX_SHA_RETRIES - attempt
  {
    if attempt >= MAX_SHA_RETRIES then Failed(MismatchError(digest))
    else
      match replies(attempt)
      case Refused(error) => Failed(error)
      case Unexpected => Crashed
      case Data(chunks) =>
        if sha(Concat(chunks)) == Bare(digest) then Fetched(Concat(chunks))
        else Attempts(sha, digest, replies, attempt + 1)
  }

  /** What an attempt brought when it did not fail. */
  predicate Brings(reply: Reply, sha: Bytes -> string, digest: string, data: Bytes) {
    reply.Data? && data == Concat(reply.chunks) && sha(data) == Bare(digest)
  }

  predicate Mismatches(reply: Reply, sha: Bytes -> string, digest: string) {
    reply.Data? && sha(Concat(reply.chunks)) != Bare(digest)
  }

  /** A worker brings data exactly when one of its attempts gives it with the right hash and all attempts before
      that one gave data with a wrong hash. */
  lemma {:induction false} FetchedIff(sha: Bytes -> string, digest: string, replies: nat -> Reply, attempt: nat, data: Bytes)
    ensures Attempts(sha, digest, replies, attempt) == Fetched(data) <==>
            exists k: nat :: attempt <= k < MAX_SHA_RETRIES && Brings(replies(k), sha, digest, data) &&
                             forall j: nat :: attempt <= j < k ==> Mismatches(replies(j), sha, digest)
    decreases MAX_SHA_RETRIES - attempt
  {
    hide Concat, Bare;
    if attempt < MAX_SHA_RETRIES {
      FetchedIff(sha, digest, replies, attempt + 1, data);
      if Mismatches(replies(attempt), sha, digest) {
        if k: nat :| attempt + 1 <= k < MAX_SHA_RETRIES && Brings(replies(k), sha, digest, data) &&
                     forall j: nat :: attempt + 1 <= j < k ==> Mismatches(replies(j), sha, digest) {
          assert forall j: nat :: attempt <= j < k ==> Mismatches(replies(j), sha, digest);
        }
      }
    }
  }

  /** It gives up with the mismatch error only after every attempt brought wrong data. */
  lemma {:induction false} GivesUpAfterAll(sha: Bytes -> string, digest: string, replies: nat -> Reply, attempt: nat)
    ensures (forall j: nat :: attempt <= j < MAX_SHA_RETRIES ==> Mismatches(replies(j), sha, digest)) ==>
              Attempts(sha, digest, replies, attempt) == Failed(MismatchError(digest))
    ensures Attempts(sha, digest, replies, attempt).Crashed? ==>
              exists k: nat :: attempt <= k < MAX_SHA_RETRIES && replies(k) == Unexpected
    decreases MAX_SHA_RETRIES - attempt
  {
    hide Concat, Bare;
    if attempt < MAX_SHA_RETRIES { GivesUpAfterAll(sha, digest, replies, attempt + 1); }
  }

  class Cache {
    const sha: Bytes -> string
    var blobs: map<string, Bytes>
    var mtimes: map<string, int>

    /** Every cached blob hashes to its name. */
    ghost predicate Valid()
      reads this
    {
      blobs.Keys == mtimes.Keys && Addressed(sha, blobs)
    }

    constructor (sha: Bytes -> string)
      ensures Valid() && blobs == map[] && this.sha == sha
    {
      this.sha := sha;
      blobs, mtimes := map[], map[];
    }

    function HasBlob(digest: string): bool
      reads this
    {
      Stores.Has(digest, blobs.Keys)
    }

    /** Stores matching data once; mismatching data is never stored. */
    method StoreBlob(digest: string, data: Bytes, now: int) returns (ok: bool)
      requires Valid()
      modifies this
      ensures Valid() && (ok <==> sha(data) == Bare(digest))
      ensures blobs == if ok && Bare(digest) !in old(blobs) then old(blobs)[Bare(digest) := data] else old(blobs)
    {
      var hex := Bare(digest);
      if sha(data) != hex {
        return false;
      }
      if hex !in blobs {
        blobs, mtimes := blobs[hex := data], mtimes[hex := now];
      }
      return true;
    }

    /** Deletes what was last written before the cut-off; the bytes add up. */
    method CacheClean(olderThanDays: int, now: int) returns (count: nat, bytesFreed: nat)
      requires Valid()
      modifies this
      ensures Valid()
      ensures var gone := OldNames(old(mtimes), Cutoff(olderThanDays, now));
              blobs == old(blobs) - gone && mtimes == old(mtimes) - gone && count == |gone|
      ensures Stores.TotalBytes(old(blobs)) == Stores.TotalBytes(blobs) + bytesFreed
    {
      hide CleanedSoFar, OldNames, Cutoff, Addressed, Stores.TotalBytes;
      var cutoff := Cutoff(olderThanDays, now);
      count, bytesFreed := 0, 0;
      ghost var files, times := blobs, mtimes;
      var todo := blobs.Keys;
      CleanStarts(files, times, cutoff);
      while todo != {}
        invariant CleanedSoFar(files, times, cutoff, todo, blobs, mtimes, count, bytesFreed)
        decreases todo
      {
        var k :| k in todo;
        CleanGoesOn(files, times, cutoff, todo, blobs, mtimes, count, bytesFreed, k);
        todo := todo - {k};
        if mtimes[k] < cutoff {
          bytesFreed, count := bytesFreed + |blobs[k]|, count + 1;
          blobs, mtimes := blobs - {k}, mtimes - {k};
        }
      }
      CleanIsDone(files, times, cutoff, blobs, mtimes, count, bytesFreed);
    }
  }

  ghost predicate Addressed(sha: Bytes -> string, blobs: map<string, Bytes>) {
    forall k :: k in blobs ==> sha(blobs[k]) == k
  }

  function Cutoff(days: int, now: int): int {
    now - days * SECONDS_PER_DAY
  }

  function OldNames(mtimes: map<string, int>, cutoff: int): set<string> {
    set k | k in mtimes && mtimes[k] < cutoff
  }

  ghost predicate CleanedSoFar(
      files: map<string, Bytes>, times: map<string, int>, cutoff: int, todo: set<string>,
      blobs: map<string, Bytes>, mtimes: map<string, int>, count: nat, bytesFreed: nat)
  {
    var gone := OldNames(times, cutoff) - todo;
    && files.Keys == times.Keys && todo <= files.Keys
    && blobs == files - gone && mtimes == times - gone && count == |gone|
    && Stores.TotalBytes(files) == Stores.TotalBytes(blobs) + bytesFreed
  }

  lemma CleanStarts(files: map<string, Bytes>, times: map<string, int>, cutoff: int)
    requires files.Keys == times.Keys
    ensures CleanedSoFar(files, times, cutoff, files.Keys, files, times, 0, 0)
  {
    assert OldNames(times, cutoff) - files.Keys == {};
    assert files - {} == files && times - {} == times;
  }

  lemma CleanGoesOn(
      files: map<string, Bytes>, times: map<string, int>, cutoff: int, todo: set<string>,
      blobs: map<string, Bytes>, mtimes: map<string, int>, count: nat, bytesFreed: nat, k: string)
    requires CleanedSoFar(files, times, cutoff, todo, blobs, mtimes, count, bytesFreed) && k in todo
    ensures k in blobs && k in mtimes
    ensures if mtimes[k] < cutoff
            then CleanedSoFar(files, times, cutoff, todo - {k}, blobs - {k}, mtimes - {k}, count + 1, bytesFreed + |blobs[k]|)
            else CleanedSoFar(files, times, cutoff, todo - {k}, blobs, mtimes, count, bytesFreed)
  {
    hide Stores.TotalBytes;
    var gone, more := OldNames(times, cutoff) - todo, OldNames(times, cutoff) - (todo - {k});
    if mtimes[k] < cutoff {
      Stores.TotalWithout(blobs, k);
      assert more == gone + {k};
      assert files - more == files - gone - {k} && times - more == times - gone - {k};
    } else {
      assert more == gone;
    }
  }

  lemma CleanIsDone(
      files: map<string, Bytes>, times: map<string, int>, cutoff: int,
      blobs: map<string, Bytes>, mtimes: map<string, int>, count: nat, bytesFreed: nat)
    requires CleanedSoFar(files, times, cutoff, {}, blobs, mtimes, count, bytesFreed)
    ensures var gone := OldNames(times, cutoff);
            blobs == files - gone && mtimes == times - gone && count == |gone| &&
            Stores.TotalBytes(files) == Stores.TotalBytes(blobs) + bytesFreed
    ensures blobs.Keys == mtimes.Keys
    ensures forall sha :: Addressed(sha, files) ==> Addressed(sha, blobs)
  {
    hide Stores.TotalBytes;
    assert OldNames(times, cutoff) - {} == OldNames(times, cutoff);
  }

  // --- the fetcher ---

  /** A submitted download: its number and its blob. */
  datatype Worker = Worker(id: nat, blob: MissingBlob)

  function WorkerDigests(ws: seq<Worker>): seq<string> {
    seq(|ws|, k requires 0 <= k < |ws| => ws[k].blob.digest)
  }

  function ErrorDigests(errors: seq<FetchError>): seq<string> {
    seq(|errors|, k requires 0 <= k < |errors| => errors[k].digest)
  }

  function OutcomeOf(sha: Bytes -> string, w: Worker, net: (nat, nat) -> Reply): Outcome {
    Attempts(sha, w.blob.digest, (attempt: nat) => net(w.id, attempt), 0)
  }

  /** The blobs that are not cached, numbered in order of submission. */
  function ToFetch(blobs: seq<MissingBlob>, have: set<string>): seq<Worker> {
    if blobs == [] then []
    else
      var before := ToFetch(blobs[..|blobs| - 1], have);
      var blob := blobs[|blobs| - 1];
      if Stores.Has(blob.digest, have) then before else before + [Worker(|before|, blob)]
  }

  /** The digests found in the cache directory, in order. */
  function Skipped(blobs: seq<MissingBlob>, have: set<string>): seq<string> {
    if blobs == [] then []
    else
      var before, digest := Skipped(blobs[..|blobs| - 1], have), blobs[|blobs| - 1].digest;
      if Stores.Has(digest, have) then before + [digest] else before
  }

  /** What the workers bring, what they report, and the names they leave in the cache. */
  function FetchedDigests(ws: seq<Worker>, sha: Bytes -> string, net: (nat, nat) -> Reply): seq<string> {
    if ws == [] then []
    else
      var before, w := FetchedDigests(ws[..|ws| - 1], sha, net), ws[|ws| - 1];
      if OutcomeOf(sha, w, net).Fetched? then before + [w.blob.digest] else before
  }

  function FailedErrors(ws: seq<Worker>, sha: Bytes -> string, net: (nat, nat) -> Reply): seq<FetchError> {
    if ws == [] then []
    else
      var before, w := FailedErrors(ws[..|ws| - 1], sha, net), ws[|ws| - 1];
      var o := OutcomeOf(sha, w, net);
      if o.Failed? then before + [FetchError(w.blob.digest, o.error)] else before
  }

  function FetchedNames(ws: seq<Worker>, sha: Bytes -> string, net: (nat, nat) -> Reply): set<string> {
    set w | w in ws && OutcomeOf(sha, w, net).Fetched? :: Bare(w.blob.digest)
  }

  ghost predicate NoneCrashes(ws: seq<Worker>, sha: Bytes -> string, net: (nat, nat) -> Reply) {
    forall w :: w in ws ==> !OutcomeOf(sha, w, net).Crashed?
  }

  /** The outcomes of one worker. */
  function OwnDigests(w: Worker, sha: Bytes -> string, net: (nat, nat) -> Reply): multiset<string> {
    if OutcomeOf(sha, w, net).Fetched? then multiset{w.blob.digest} else multiset{}
  }

  function OwnErrors(w: Worker, sha: Bytes -> string, net: (nat, nat) -> Reply): multiset<FetchError> {
    var o := OutcomeOf(sha, w, net);
    if o.Failed? then multiset{FetchError(w.blob.digest, o.error)} else multiset{}
  }

  lemma TakeOutBeforeLast(ws: seq<Worker>, k: nat)
    requires k < |ws| - 1
    ensures var n := |ws| - 1; var rest := ws[..k] + ws[k + 1..];
            rest != [] && rest[..|rest| - 1] == ws[..n][..k] + ws[..n][k + 1..] && rest[|rest| - 1] == ws[n] &&
            ws[..n][k] == ws[k]
  {
  }

  lemma {:induction false} FetchedWithout(ws: seq<Worker>, k: nat, sha: Bytes -> string, net: (nat, nat) -> Reply)
    requires k < |ws|
    ensures multiset(FetchedDigests(ws, sha, net)) ==
            multiset(FetchedDigests(ws[..k] + ws[k + 1..], sha, net)) + OwnDigests(ws[k], sha, net)
  {
    hide OutcomeOf;
    if k == |ws| - 1 {
      assert ws[..k] + ws[k + 1..] == ws[..k];
    } else {
      TakeOutBeforeLast(ws, k);
      FetchedWithout(ws[..|ws| - 1], k, sha, net);
    }
  }

  lemma {:induction false} FailedWithout(ws: seq<Worker>, k: nat, sha: Bytes -> string, net: (nat, nat) -> Reply)
    requires k < |ws|
    ensures multiset(FailedErrors(ws, sha, net)) ==
            multiset(FailedErrors(ws[..k] + ws[k + 1..], sha, net)) + OwnErrors(ws[k], sha, net)
  {
    hide OutcomeOf;
    if k == |ws| - 1 {
      assert ws[..k] + ws[k + 1..] == ws[..k];
    } else {
      TakeOutBeforeLast(ws, k);
      FailedWithout(ws[..|ws| - 1], k, sha, net);
    }
  }

  lemma NamesWithout(ws: seq<Worker>, k: nat, sha: Bytes -> string, net: (nat, nat) -> Reply)
    requires k < |ws|
    ensures var rest := ws[..k] + ws[k + 1..];
            FetchedNames(ws, sha, net) == FetchedNames(rest, sha, net) + FetchedNames([ws[k]], sha, net)
  {
    hide OutcomeOf, Bare;
    assert ws == ws[..k] + [ws[k]] + ws[k + 1..];
  }

  /** Cached blobs never change and are never lost by a fetch. */
  ghost predicate Extends(before: map<string, Bytes>, after: map<string, Bytes>) {
    forall k :: k in before ==> k in after && after[k] == before[k]
  }

  /** A new blob in the cache was brought by some worker. */
  ghost predicate BroughtBy(
      before: map<string, Bytes>, after: map<string, Bytes>, ws: seq<Worker>, sha: Bytes -> string, net: (nat, nat) -> Reply)
  {
    forall k :: k in after && k !in before ==>
      exists w :: w in ws && Bare(w.blob.digest) == k && OutcomeOf(sha, w, net) == Fetched(after[k])
  }

  lemma TakeOut<T>(s: seq<T>, k: nat)
    requires k < |s|
    ensures multiset(s) == multiset(s[..k] + s[k + 1..]) + multiset{s[k]}
  {
    assert s == s[..k] + [s[k]] + s[k + 1..];
  }

  lemma TakeOutDigest(ws: seq<Worker>, k: nat)
    requires k < |ws|
    ensures multiset(WorkerDigests(ws)) ==
            multiset(WorkerDigests(ws[..k] + ws[k + 1..])) + multiset{ws[k].blob.digest}
  {
    TakeOut(WorkerDigests(ws), k);
    assert WorkerDigests(ws[..k] + ws[k + 1..]) == WorkerDigests(ws)[..k] + WorkerDigests(ws)[k + 1..];
  }

  /** Where every submitted digest is when `pending` workers are still to be taken. */
  ghost predicate Balanced(all: seq<Worker>, pending: seq<Worker>, downloaded: seq<string>, errors: seq<FetchError>) {
    multiset(downloaded) + multiset(ErrorDigests(errors)) + multiset(WorkerDigests(pending)) ==
    multiset(WorkerDigests(all))
  }

  lemma TakeWorker(all: seq<Worker>, pending: seq<Worker>, k: nat, downloaded: seq<string>, errors: seq<FetchError>, error: string)
    requires k < |pending| && Balanced(all, pending, downloaded, errors)
    ensures var rest := pending[..k] + pending[k + 1..]; var digest := pending[k].blob.digest;
            Balanced(all, rest, downloaded + [digest], errors) &&
            Balanced(all, rest, downloaded, errors + [FetchError(digest, error)])
  {
    var digest := pending[k].blob.digest;
    TakeOutDigest(pending, k);
    assert ErrorDigests(errors + [FetchError(digest, error)]) == ErrorDigests(errors) + [digest];
  }

  class Fetcher {
    const cache: Cache

    constructor (cache: Cache)
      ensures this.cache == cache
    {
      this.cache := cache;
    }

    /** One download with its retries. */
    method FetchOne(w: Worker, net: (nat, nat) -> Reply, now: int) returns (o: Outcome)
      requires cache.Valid()
      modifies cache
      ensures cache.Valid() && o == OutcomeOf(cache.sha, w, net)
      ensures cache.blobs == if o.Fetched? && Bare(w.blob.digest) !in old(cache.blobs)
                             then old(cache.blobs)[Bare(w.blob.digest) := o.data] else old(cache.blobs)
    {
      var digest := w.blob.digest;
      ghost var replies := (attempt: nat) => net(w.id, attempt);
      for attempt := 0 to MAX_SHA_RETRIES
        invariant cache.Valid() && cache.blobs == old(cache.blobs)
        invariant Attempts(cache.sha, digest, replies, attempt) == OutcomeOf(cache.sha, w, net)
      {
        match net(w.id, attempt) {
          case Refused(error) => return Failed(error);
          case Unexpected => return Crashed;
          case Data(chunks) =>
            var data := Concat(chunks);
            if cache.sha(data) == Bare(digest) {
              var ok := cache.StoreBlob(digest, data, now);
              return Fetched(data);
            }
        }
      }
      return Failed(MismatchError(digest));
    }

    /** Cached blobs are skipped, all others submitted; the workers complete in any order. The cache is shared
        only through storing a whole verified blob, so each worker is run when its completion is taken. An
        unexpected exception is raised again after all workers have ended. */
    method Fetch(blobs: seq<MissingBlob>, net: (nat, nat) -> Reply, now: int) returns (r: Option<FetchResult>)
      requires cache.Valid()
      modifies cache
      ensures cache.Valid() && Extends(old(cache.blobs), cache.blobs)
      ensures var ws := ToFetch(blobs, old(cache.blobs).Keys);
              (r.Some? <==> NoneCrashes(ws, cache.sha, net)) &&
              BroughtBy(old(cache.blobs), cache.blobs, ws, cache.sha, net) &&
              cache.blobs.Keys == old(cache.blobs).Keys + FetchedNames(ws, cache.sha, net)
      ensures var ws := ToFetch(blobs, old(cache.blobs).Keys);
              r.Some? ==> r.value.skipped == Skipped(blobs, old(cache.blobs).Keys) &&
                          multiset(r.value.downloaded) == multiset(FetchedDigests(ws, cache.sha, net)) &&
                          multiset(r.value.errors) == multiset(FailedErrors(ws, cache.sha, net))
      ensures r.Some? ==>
                multiset(r.value.downloaded) + multiset(r.value.skipped) + multiset(ErrorDigests(r.value.errors)) ==
                multiset(DigestList(blobs))
      ensures r.Some? ==> (forall d :: d in r.value.downloaded ==> Bare(d) in cache.blobs) &&
                          forall d :: d in r.value.skipped ==> Stores.Has(d, cache.blobs.Keys)
    {
      hide FetchSoFar, Balanced, BroughtBy, Extends, NoneCrashes, FetchedDigests, FailedErrors, FetchedNames;
      var skipped, submitted := Partition(blobs);
      var p := Progress(submitted, [], [], false);
      ghost var before := cache.blobs;
      FetchStarts(cache.sha, net, submitted, before);
      while p.pending != []
        invariant cache.Valid() && FetchSoFar(cache.sha, net, submitted, before, cache.blobs, p)
        decreases |p.pending|
      {
        var k :| 0 <= k < |p.pending|;
        ghost var now0 := cache.blobs;
        var outcome := FetchOne(p.pending[k], net, now);
        FetchGoesOn(cache.sha, net, submitted, before, now0, cache.blobs, p, k);
        p := Advance(p, k, outcome);
      }
      FetchIsDone(cache.sha, net, submitted, before, cache.blobs, p);
      if p.crashed {
        return None;
      }
      FetchAddsUp(submitted, p, skipped, blobs);
      assert forall d :: d in skipped ==> Stores.Has(d, before.Keys);
      ExtendsKeeps(before, cache.blobs);
      return Some(FetchResult(p.downloaded, skipped, p.errors));
    }

    /** First pass: what is cached already is skipped, the rest is submitted. */
    method Partition(blobs: seq<MissingBlob>) returns (skipped: seq<string>, submitted: seq<Worker>)
      ensures submitted == ToFetch(blobs, cache.blobs.Keys) && skipped == Skipped(blobs, cache.blobs.Keys)
      ensures multiset(skipped) + multiset(WorkerDigests(submitted)) == multiset(DigestList(blobs))
      ensures forall d :: d in skipped ==> Stores.Has(d, cache.blobs.Keys)
    {
      hide SplitSoFar;
      skipped, submitted := [], [];
      ghost var have := cache.blobs.Keys;
      SplitStarts(blobs, have);
      for k := 0 to |blobs|
        invariant cache.blobs.Keys == have && SplitSoFar(blobs[..k], have, skipped, submitted)
      {
        assert blobs[..k + 1] == blobs[..k] + [blobs[k]];
        SplitGoesOn(blobs[..k], blobs[k], have, skipped, submitted);
        if cache.HasBlob(blobs[k].digest) {
          skipped := skipped + [blobs[k].digest];
        } else {
          submitted := submitted + [Worker(|submitted|, blobs[k])];
        }
      }
      assert blobs[..|blobs|] == blobs;
      SplitIsDone(blobs, have, skipped, submitted);
    }
  }

  // --- what the loops keep ---

  ghost predicate SplitSoFar(blobs: seq<MissingBlob>, have: set<string>, skipped: seq<string>, submitted: seq<Worker>) {
    && submitted == ToFetch(blobs, have) && skipped == Skipped(blobs, have)
    && multiset(skipped) + multiset(WorkerDigests(submitted)) == multiset(DigestList(blobs))
    && forall d :: d in skipped ==> Stores.Has(d, have)
  }

  lemma SplitStarts(blobs: seq<MissingBlob>, have: set<string>)
    ensures SplitSoFar(blobs[..0], have, [], [])
  {
    assert blobs[..0] == [] && DigestList([]) == [] && WorkerDigests([]) == [];
  }

  lemma SplitGoesOn(blobs: seq<MissingBlob>, blob: MissingBlob, have: set<string>, skipped: seq<string>, submitted: seq<Worker>)
    requires SplitSoFar(blobs, have, skipped, submitted)
    ensures if Stores.Has(blob.digest, have)
            then SplitSoFar(blobs + [blob], have, skipped + [blob.digest], submitted)
            else SplitSoFar(blobs + [blob], have, skipped, submitted + [Worker(|submitted|, blob)])
  {
    assert (blobs + [blob])[..|blobs|] == blobs;
    assert DigestList(blobs + [blob]) == DigestList(blobs) + [blob.digest];
    var w := Worker(|submitted|, blob);
    assert WorkerDigests(submitted + [w]) == WorkerDigests(submitted) + [blob.digest];
  }

  lemma SplitIsDone(blobs: seq<MissingBlob>, have: set<string>, skipped: seq<string>, submitted: seq<Worker>)
    requires SplitSoFar(blobs, have, skipped, submitted)
    ensures submitted == ToFetch(blobs, have) && skipped == Skipped(blobs, have)
    ensures multiset(skipped) + multiset(WorkerDigests(submitted)) == multiset(DigestList(blobs))
    ensures forall d :: d in skipped ==> Stores.Has(d, have)
  {
  }

  datatype Progress = Progress(pending: seq<Worker>, downloaded: seq<string>, errors: seq<FetchError>, crashed: bool)

  /** The completion of the k-th pending worker; nothing is recorded any more after a crash. */
  function Advance(p: Progress, k: nat, o: Outcome): Progress
    requires k < |p.pending|
  {
    var digest, rest := p.pending[k].blob.digest, p.pending[..k] + p.pending[k + 1..];
    if p.crashed then p.(pending := rest)
    else
      match o
      case Fetched(_) => p.(pending := rest, downloaded := p.downloaded + [digest])
      case Failed(error) => p.(pending := rest, errors := p.errors + [FetchError(digest, error)])
      case Crashed => p.(pending := rest, crashed := true)
  }

  /** Downloads so far and errors so far, with those still pending, are those of all workers. */
  ghost predicate SplitByOutcome(sha: Bytes -> string, net: (nat, nat) -> Reply, all: seq<Worker>, p: Progress) {
    && multiset(p.downloaded) + multiset(FetchedDigests(p.pending, sha, net)) == multiset(FetchedDigests(all, sha, net))
    && multiset(p.errors) + multiset(FailedErrors(p.pending, sha, net)) == multiset(FailedErrors(all, sha, net))
  }

  lemma MoveOver<T>(taken: multiset<T>, pending: multiset<T>, rest: multiset<T>, own: multiset<T>, all: multiset<T>)
    requires taken + pending == all && pending == rest + own
    ensures taken + own + rest == all
  {
  }

  lemma AppendCounts<T>(s: seq<T>, x: T)
    ensures multiset(s + [x]) == multiset(s) + multiset{x}
    ensures multiset(s) + multiset{} == multiset(s)
  {
  }

  lemma AdvanceSplits(sha: Bytes -> string, net: (nat, nat) -> Reply, all: seq<Worker>, p: Progress, k: nat)
    requires k < |p.pending| && !p.crashed && SplitByOutcome(sha, net, all, p)
    ensures var after := Advance(p, k, OutcomeOf(sha, p.pending[k], net)); !after.crashed ==> SplitByOutcome(sha, net, all, after)
  {
    FetchedWithout(p.pending, k, sha, net);
    FailedWithout(p.pending, k, sha, net);
    hide OutcomeOf, FetchedDigests, FailedErrors;
    var w, rest := p.pending[k], p.pending[..k] + p.pending[k + 1..];
    MoveOver(multiset(p.downloaded), multiset(FetchedDigests(p.pending, sha, net)),
             multiset(FetchedDigests(rest, sha, net)), OwnDigests(w, sha, net), multiset(FetchedDigests(all, sha, net)));
    MoveOver(multiset(p.errors), multiset(FailedErrors(p.pending, sha, net)),
             multiset(FailedErrors(rest, sha, net)), OwnErrors(w, sha, net), multiset(FailedErrors(all, sha, net)));
    var o := OutcomeOf(sha, w, net);
    AppendCounts(p.downloaded, w.blob.digest);
    AppendCounts(p.errors, FetchError(w.blob.digest, if o.Failed? then o.error else ""));
  }

  /** The cache holds what was there and what the completed workers brought. */
  ghost predicate CacheSoFar(
      sha: Bytes -> string, net: (nat, nat) -> Reply, all: seq<Worker>,
      before: map<string, Bytes>, blobs: map<string, Bytes>, pending: seq<Worker>)
  {
    && Extends(before, blobs) && BroughtBy(before, blobs, all, sha, net)
    && blobs.Keys + FetchedNames(pending, sha, net) == before.Keys + FetchedNames(all, sha, net)
  }

  /** A crash is on record exactly when some completed worker crashed. */
  ghost predicate CrashSoFar(sha: Bytes -> string, net: (nat, nat) -> Reply, all: seq<Worker>, p: Progress) {
    && (forall w :: w in p.pending ==> w in all)
    && (forall w :: w in all && w !in p.pending && OutcomeOf(sha, w, net).Crashed? ==> p.crashed)
    && (p.crashed ==> exists w :: w in all && OutcomeOf(sha, w, net).Crashed?)
  }

  /** Until then the lists are balanced, and downloads are in the cache. */
  ghost predicate ListsSoFar(
      sha: Bytes -> string, net: (nat, nat) -> Reply, all: seq<Worker>, blobs: map<string, Bytes>, p: Progress)
  {
    && (!p.crashed ==> Balanced(all, p.pending, p.downloaded, p.errors) && SplitByOutcome(sha, net, all, p))
    && forall d :: d in p.downloaded ==> Bare(d) in blobs
  }

  ghost predicate FetchSoFar(
      sha: Bytes -> string, net: (nat, nat) -> Reply, all: seq<Worker>,
      before: map<string, Bytes>, blobs: map<string, Bytes>, p: Progress)
  {
    CacheSoFar(sha, net, all, before, blobs, p.pending) && CrashSoFar(sha, net, all, p) && ListsSoFar(sha, net, all, blobs, p)
  }

  lemma FetchStarts(sha: Bytes -> string, net: (nat, nat) -> Reply, all: seq<Worker>, before: map<string, Bytes>)
    ensures FetchSoFar(sha, net, all, before, before, Progress(all, [], [], false))
  {
    assert ErrorDigests([]) == [];
  }

  lemma CacheGrows(
      sha: Bytes -> string, net: (nat, nat) -> Reply, all: seq<Worker>, before: map<string, Bytes>,
      blobs: map<string, Bytes>, after: map<string, Bytes>, w: Worker)
    requires Extends(before, blobs) && BroughtBy(before, blobs, all, sha, net) && w in all
    requires var o := OutcomeOf(sha, w, net);
             after == if o.Fetched? && Bare(w.blob.digest) !in blobs then blobs[Bare(w.blob.digest) := o.data] else blobs
    ensures Extends(before, after) && BroughtBy(before, after, all, sha, net)
    ensures OutcomeOf(sha, w, net).Fetched? ==> Bare(w.blob.digest) in after
    ensures after.Keys == blobs.Keys + FetchedNames([w], sha, net)
  {
    hide OutcomeOf, Bare;
  }

  lemma CacheGoesOn(
      sha: Bytes -> string, net: (nat, nat) -> Reply, all: seq<Worker>, before: map<string, Bytes>,
      blobs: map<string, Bytes>, after: map<string, Bytes>, pending: seq<Worker>, k: nat)
    requires k < |pending| && CacheSoFar(sha, net, all, before, blobs, pending) && pending[k] in all
    requires var w := pending[k]; var o := OutcomeOf(sha, w, net);
             after == if o.Fetched? && Bare(w.blob.digest) !in blobs then blobs[Bare(w.blob.digest) := o.data] else blobs
    ensures CacheSoFar(sha, net, all, before, after, pending[..k] + pending[k + 1..])
  {
    CacheGrows(sha, net, all, before, blobs, after, pending[k]);
    NamesWithout(pending, k, sha, net);
    hide OutcomeOf, FetchedNames, Extends, BroughtBy, Bare;
  }

  lemma CrashGoesOn(sha: Bytes -> string, net: (nat, nat) -> Reply, all: seq<Worker>, p: Progress, k: nat)
    requires k < |p.pending| && CrashSoFar(sha, net, all, p)
    ensures CrashSoFar(sha, net, all, Advance(p, k, OutcomeOf(sha, p.pending[k], net)))
  {
    var w, rest := p.pending[k], p.pending[..k] + p.pending[k + 1..];
    hide OutcomeOf;
    assert p.pending == p.pending[..k] + [w] + p.pending[k + 1..];
    assert forall x :: x in p.pending ==> x in rest || x == w;
    assert forall x :: x in rest ==> x in p.pending;
  }

  lemma ListsGoOn(
      sha: Bytes -> string, net: (nat, nat) -> Reply, all: seq<Worker>, blobs: map<string, Bytes>,
      after: map<string, Bytes>, p: Progress, k: nat)
    requires k < |p.pending| && ListsSoFar(sha, net, all, blobs, p) && blobs.Keys <= after.Keys
    requires OutcomeOf(sha, p.pending[k], net).Fetched? ==> Bare(p.pending[k].blob.digest) in after
    ensures ListsSoFar(sha, net, all, after, Advance(p, k, OutcomeOf(sha, p.pending[k], net)))
  {
    var o := OutcomeOf(sha, p.pending[k], net);
    if !p.crashed {
      AdvanceSplits(sha, net, all, p, k);
      TakeWorker(all, p.pending, k, p.downloaded, p.errors, if o.Failed? then o.error else "");
    }
    hide OutcomeOf, Balanced, SplitByOutcome, Bare;
  }

  lemma FetchGoesOn(
      sha: Bytes -> string, net: (nat, nat) -> Reply, all: seq<Worker>, before: map<string, Bytes>,
      blobs: map<string, Bytes>, after: map<string, Bytes>, p: Progress, k: nat)
    requires k < |p.pending| && FetchSoFar(sha, net, all, before, blobs, p)
    requires var w := p.pending[k]; var o := OutcomeOf(sha, w, net);
             after == if o.Fetched? && Bare(w.blob.digest) !in blobs then blobs[Bare(w.blob.digest) := o.data] else blobs
    ensures FetchSoFar(sha, net, all, before, after, Advance(p, k, OutcomeOf(sha, p.pending[k], net)))
  {
    hide OutcomeOf, CacheSoFar, ListsSoFar, Bare;
    assert p.pending[k] in all;
    CacheGoesOn(sha, net, all, before, blobs, after, p.pending, k);
    hide CrashSoFar;
    CrashGoesOn(sha, net, all, p, k);
    ListsGoOn(sha, net, all, blobs, after, p, k);
  }

  lemma FetchIsDone(
      sha: Bytes -> string, net: (nat, nat) -> Reply, all: seq<Worker>, before: map<string, Bytes>,
      blobs: map<string, Bytes>, p: Progress)
    requires p.pending == [] && FetchSoFar(sha, net, all, before, blobs, p)
    ensures Extends(before, blobs) && BroughtBy(before, blobs, all, sha, net)
    ensures !p.crashed <==> NoneCrashes(all, sha, net)
    ensures !p.crashed ==> Balanced(all, [], p.downloaded, p.errors)
    ensures !p.crashed ==> multiset(p.downloaded) == multiset(FetchedDigests(all, sha, net)) &&
                           multiset(p.errors) == multiset(FailedErrors(all, sha, net))
    ensures blobs.Keys == before.Keys + FetchedNames(all, sha, net)
    ensures forall d :: d in p.downloaded ==> Bare(d) in blobs
  {
    hide OutcomeOf, Balanced, Extends, BroughtBy;
  }

  lemma FetchAddsUp(all: seq<Worker>, p: Progress, skipped: seq<string>, blobs: seq<MissingBlob>)
    requires Balanced(all, [], p.downloaded, p.errors)
    requires multiset(skipped) + multiset(WorkerDigests(all)) == multiset(DigestList(blobs))
    ensures multiset(p.downloaded) + multiset(skipped) + multiset(ErrorDigests(p.errors)) == multiset(DigestList(blobs))
  {
    assert WorkerDigests([]) == [];
  }

  lemma ExtendsKeeps(before: map<string, Bytes>, after: map<string, Bytes>)
    requires Extends(before, after)
    ensures before.Keys <= after.Keys
  {
  }
}
