/** Resumable uploads of transfer responses. */
module Uploads {
  import opened Prelude
  import opened Crypto

  /** A PUT: client, checksum header (without its prefix), start offset of a Content-Range header if there is
      one, Content-Length, the body bytes that arrive, and whether the connection then breaks with an exception
      (otherwise the body just ends). */
  datatype Put = Put(client: string, expected: string, start: Option<nat>, length: nat, body: Bytes, breaks: bool)

  datatype Answer = BadChecksum | EmptyBody | RangeMismatch | Interrupted | ChecksumMismatch | Imported(data: Bytes)

  predicate IsChecksum(s: string) {
    |s| == 64 && IsHex(s)
  }

  function FileOf(files: map<string, Bytes>, key: string): Bytes {
    if key in files then files[key] else []
  }

  /** The bytes the write loop puts on disk: at most Content-Length of them. */
  function Delivered(p: Put): Bytes {
    if |p.body| <= p.length then p.body else p.body[..p.length]
  }

  /** The loop ends by itself when enough bytes came, or the body ended without breaking. */
  predicate LoopEnds(p: Put) {
    |p.body| >= p.length || !p.breaks
  }

  /** What the request leaves on disk and what it answers. */
  function Handle(files: map<string, Bytes>, key: string, p: Put, sha: Bytes -> string): (map<string, Bytes>, Answer) {
    if !IsChecksum(p.expected) then (files, BadChecksum)
    else if p.length == 0 then (files, EmptyBody)
    else if p.start.Some? && p.start.value != |FileOf(files, key)| then (files, RangeMismatch)
    else
      var written := (if p.start.Some? then FileOf(files, key) else []) + Delivered(p);
      if !LoopEnds(p) then (files[key := written], Interrupted)
      else (files - {key}, if sha(written) == p.expected then Imported(written) else ChecksumMismatch)
  }

  // --- runs for one payload ---

  /** The body is a slice of the payload at the offset the request claims. */
  predicate IsSliceOf(p: Put, payload: Bytes) {
    var start := if p.start.Some? then p.start.value else 0;
    start + |p.body| <= |payload| && p.body == payload[start..start + |p.body|]
  }

  function HandleAll(files: map<string, Bytes>, key: string, puts: seq<Put>, sha: Bytes -> string): map<string, Bytes> {
    if puts == [] then files
    else Handle(HandleAll(files, key, puts[..|puts| - 1], sha), key, puts[|puts| - 1], sha).0
  }

  /** The partial file is always a prefix of the payload. */
  lemma StepKeepsPrefix(files: map<string, Bytes>, key: string, p: Put, sha: Bytes -> string, payload: Bytes)
    requires FileOf(files, key) <= payload && IsSliceOf(p, payload)
    ensures FileOf(Handle(files, key, p, sha).0, key) <= payload
    ensures var r := Handle(files, key, p, sha).1; r.Imported? ==> sha(r.data) == p.expected && r.data <= payload
  {
    var base := if p.start.Some? then FileOf(files, key) else [];
    if p.start.Some? ==> p.start.value == |base| {
      var written := base + Delivered(p);
      assert base == payload[..|base|];
      assert Delivered(p) == payload[|base|..|base| + |Delivered(p)|];
      assert written == payload[..|written|];
    }
  }

  /** Over every sequence of interrupted and resumed requests for one payload the file on disk is a prefix of it. */
  lemma {:induction false} RunsKeepPrefix(key: string, puts: seq<Put>, sha: Bytes -> string, payload: Bytes)
    requires forall k :: 0 <= k < |puts| ==> IsSliceOf(puts[k], payload)
    ensures FileOf(HandleAll(map[], key, puts, sha), key) <= payload
  {
    hide Handle, IsSliceOf;
    if puts != [] {
      var before := puts[..|puts| - 1];
      assert forall k :: 0 <= k < |before| ==> before[k] == puts[k];
      RunsKeepPrefix(key, before, sha, payload);
      StepKeepsPrefix(HandleAll(map[], key, before, sha), key, puts[|puts| - 1], sha, payload);
    }
  }

  /** After any run, the next request imports, if it imports at all, exactly the payload named by its header. */
  lemma ImportsOnlyThePayload(key: string, puts: seq<Put>, p: Put, sha: Bytes -> string, payload: Bytes)
    requires forall k :: 0 <= k < |puts| ==> IsSliceOf(puts[k], payload)
    requires IsSliceOf(p, payload) && p.expected == sha(payload)
    requires forall prefix :: prefix <= payload && sha(prefix) == sha(payload) ==> prefix == payload
    ensures var r := Handle(HandleAll(map[], key, puts, sha), key, p, sha).1; r.Imported? ==> r.data == payload
  {
    hide HandleAll, Handle, IsSliceOf;
    RunsKeepPrefix(key, puts, sha, payload);
    StepKeepsPrefix(HandleAll(map[], key, puts, sha), key, p, sha, payload);
  }

  /** And it does import exactly when it is a well-formed continuation (or restart) that brings the rest. */
  lemma ImportsIffComplete(files: map<string, Bytes>, key: string, p: Put, sha: Bytes -> string, payload: Bytes)
    requires FileOf(files, key) <= payload && IsSliceOf(p, payload) && p.expected == sha(payload)
    requires IsChecksum(p.expected)
    requires forall prefix :: prefix <= payload && sha(prefix) == sha(payload) ==> prefix == payload
    ensures Handle(files, key, p, sha).1.Imported? <==>
              var start := if p.start.Some? then p.start.value else 0;
              p.length > 0 && (p.start.Some? ==> start == |FileOf(files, key)|) && LoopEnds(p) &&
              start + |Delivered(p)| == |payload|
  {
    var base := if p.start.Some? then FileOf(files, key) else [];
    StepKeepsPrefix(files, key, p, sha, payload);
    if p.start.Some? ==> p.start.value == |base| {
      var written := base + Delivered(p);
      assert Delivered(p) == payload[|base|..|base| + |Delivered(p)|];
      assert base == payload[..|base|];
      assert written == payload[..|written|];
      assert payload[..|payload|] == payload;
    }
  }

  /** A request whose write loop ends leaves no partial file, whatever the checksum says; one that is refused
      before writing leaves the file as it was; other uploads are never touched. */
  lemma FileAfterRequest(files: map<string, Bytes>, key: string, p: Put, sha: Bytes -> string, other: string)
    ensures var (after, answer) := Handle(files, key, p, sha);
            (answer.Imported? || answer.ChecksumMismatch? ==> key !in after) &&
            (answer.BadChecksum? || answer.EmptyBody? || answer.RangeMismatch? ==> after == files) &&
            (other != key ==> FileOf(after, other) == FileOf(files, other)) &&
            (answer.Interrupted? <==> key in after && IsChecksum(p.expected) && p.length > 0 && !LoopEnds(p) &&
                                      (p.start.Some? ==> p.start.value == |FileOf(files, key)|))
  {
  }

  // --- the handler ---

  lemma OneMoreChunk(base: Bytes, body: Bytes, at: nat, n: nat)
    requires at + n <= |body|
    ensures base + body[..at + n] == base + body[..at] + body[at..at + n]
  {
    assert body[..at + n] == body[..at] + body[at..at + n];
  }

  const CHUNK_SIZE := 1048576

  class UploadDirectory {
    const sha: Bytes -> string
    const keyOf: (string, string) -> string
    var files: map<string, Bytes>

    constructor (sha: Bytes -> string, keyOf: (string, string) -> string)
      ensures files == map[] && this.sha == sha && this.keyOf == keyOf
    {
      this.sha, this.keyOf, files := sha, keyOf, map[];
    }

    /** One PUT: open for appending or writing, copy chunk by chunk, verify, import, unlink. */
    method HandlePut(p: Put) returns (answer: Answer)
      modifies this
      ensures (files, answer) == Handle(old(files), keyOf(p.client, p.expected), p, sha)
    {
      hide IsChecksum;
      var key := keyOf(p.client, p.expected);
      if !IsChecksum(p.expected) {
        return BadChecksum;
      }
      if p.length == 0 {
        return EmptyBody;
      }
      if p.start.Some? {
        if p.start.value != |FileOf(files, key)| {
          return RangeMismatch;
        }
        if key !in files {
          files := files[key := []];
        }
      } else {
        files := files[key := []];
      }
      ghost var base := files[key];
      assert base + p.body[..0] == base;
      var remaining, at := p.length, 0;
      while remaining > 0
        invariant 0 <= at <= |p.body| && at <= p.length && remaining == p.length - at
        invariant key in files && files == old(files)[key := files[key]]
        invariant files[key] == base + p.body[..at]
        decreases remaining
      {
        var wanted := if remaining < CHUNK_SIZE then remaining else CHUNK_SIZE;
        var n := if at + wanted <= |p.body| then wanted else |p.body| - at;
        if n == 0 {
          if p.breaks {
            assert p.body[..at] == Delivered(p);
            return Interrupted;
          }
          break;
        }
        OneMoreChunk(base, p.body, at, n);
        files := files[key := files[key] + p.body[at..at + n]];
        at, remaining := at + n, remaining - n;
      }
      assert p.body[..at] == Delivered(p);
      var actual := sha(files[key]);
      var data := files[key];
      files := files - {key};
      assert files == old(files) - {key};
      if actual != p.expected {
        return ChecksumMismatch;
      }
      return Imported(data);
    }
  }
}
