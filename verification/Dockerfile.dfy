/** The Dockerfile front end: continuation joining and the extraction of base images from FROM lines. */
module Dockerfile {
  import opened Prelude
  import opened Strings
  import opened ImageRefs
  import Substitution

  /** Python's Unicode tables: word and white-space characters, and case mapping of strings. */
  datatype Unicode = Unicode(word: char -> bool, space: char -> bool, lower: string -> string, upper: string -> string)

  datatype Image = Image(
    raw: string, ref: Ref, resolved: string, platform: Option<string>, alias: Option<string>,
    isInternal: bool, isPrivate: bool, line: nat)

  /** Errors raised while resolving: the file is missing, or a reference on a line cannot be substituted. */
  datatype ResolverError = NotFound(path: string) | BadArg(line: nat, cause: Substitution.SubstError)

  // --- continuation lines ---

  predicate Continues(line: string, space: char -> bool) {
    HasSuffix(RStrip(line, space), "\\")
  }

  function Glue(line: string, next: string, space: char -> bool): string {
    var r := RStrip(line, space);
    (if r == "" then "" else r[..|r| - 1]) + " " + LStrip(next, space)
  }

  /** The physical lines `a..b` glued together. */
  function Glued(lines: seq<string>, a: nat, b: nat, space: char -> bool): string
    requires a < b <= |lines|
  {
    if b == a + 1 then lines[a] else Glue(Glued(lines, a, b - 1, space), lines[b - 1], space)
  }

  /** The inner loop from line `i` on, with `line` glued so far: the final text and the last line it used. */
  function TakeBlock(line: string, lines: seq<string>, i: nat, space: char -> bool): (r: (string, nat))
    requires i < |lines|
    ensures i <= r.1 < |lines|
    decreases |lines| - i
  {
    if Continues(line, space) && i + 1 < |lines|
    then TakeBlock(Glue(line, lines[i + 1], space), lines, i + 1, space)
    else (line, i)
  }

  function JoinFrom(lines: seq<string>, i: nat, space: char -> bool): seq<(nat, string)>
    requires i <= |lines|
    decreases |lines| - i
  {
    if i == |lines| then []
    else
      var (line, last) := TakeBlock(lines[i], lines, i, space);
      [(i + 1, line)] + JoinFrom(lines, last + 1, space)
  }

  /** Where the k-th block ends: just before the next one starts. */
  function BlockEnd(joined: seq<(nat, string)>, k: nat, total: nat): int {
    if k + 1 < |joined| then joined[k + 1].0 - 1 else total
  }

  /** The joined lines are the physical lines from `from` on, cut into consecutive blocks: each block is glued
      whole, it goes on as long as its text continues, and it stops as soon as it does not. */
  ghost predicate CutsIntoBlocks(lines: seq<string>, from: nat, joined: seq<(nat, string)>, space: char -> bool) {
    && (joined == [] <==> from == |lines|)
    && (joined != [] ==> joined[0].0 == from + 1)
    && forall k :: 0 <= k < |joined| ==> IsEntry(lines, joined, k, space)
  }

  ghost predicate IsEntry(lines: seq<string>, joined: seq<(nat, string)>, k: nat, space: char -> bool)
    requires k < |joined|
  {
    joined[k].0 > 0 && IsBlock(lines, joined[k].0 - 1, joined[k].1, BlockEnd(joined, k, |lines|), space)
  }

  ghost predicate IsBlock(lines: seq<string>, start: nat, text: string, end: int, space: char -> bool) {
    && start < end <= |lines|
    && text == Glued(lines, start, end, space)
    && (end < |lines| ==> !Continues(text, space))
    && forall m :: start < m < end ==> GoesOn(lines, start, m, space)
  }

  ghost predicate GoesOn(lines: seq<string>, start: nat, m: nat, space: char -> bool) {
    start < m <= |lines| && Continues(Glued(lines, start, m, space), space)
  }

  lemma {:induction false} TakeBlockIsBlock(lines: seq<string>, start: nat, i: nat, space: char -> bool)
    requires start <= i < |lines|
    requires forall m :: start < m <= i ==> GoesOn(lines, start, m, space)
    ensures var (text, last) := TakeBlock(Glued(lines, start, i + 1, space), lines, i, space);
            IsBlock(lines, start, text, last + 1, space)
    decreases |lines| - i
  {
    hide Continues, Glue;
    if Continues(Glued(lines, start, i + 1, space), space) && i + 1 < |lines| {
      assert Glued(lines, start, i + 2, space) == Glue(Glued(lines, start, i + 1, space), lines[i + 1], space);
      TakeBlockIsBlock(lines, start, i + 1, space);
    }
  }

  /** The later entries do not see a block put in front. */
  lemma ShiftedEntry(lines: seq<string>, first: (nat, string), rest: seq<(nat, string)>, k: nat, space: char -> bool)
    requires k < |rest| && IsEntry(lines, rest, k, space)
    ensures IsEntry(lines, [first] + rest, k + 1, space)
  {
    hide IsBlock;
    var joined := [first] + rest;
    assert joined[k + 1] == rest[k] && (k + 1 < |rest| ==> joined[k + 2] == rest[k + 1]);
  }

  /** A first block in front of a cut of the remaining lines. */
  lemma ConsBlock(lines: seq<string>, from: nat, text: string, next: nat, rest: seq<(nat, string)>, space: char -> bool)
    requires from < next <= |lines| && IsBlock(lines, from, text, next, space)
    requires CutsIntoBlocks(lines, next, rest, space)
    ensures CutsIntoBlocks(lines, from, [(from + 1, text)] + rest, space)
  {
    var joined := [(from + 1, text)] + rest;
    assert BlockEnd(joined, 0, |lines|) == next;
    hide IsBlock, BlockEnd;
    forall k | 0 <= k < |joined| ensures IsEntry(lines, joined, k, space) {
      if k > 0 { ShiftedEntry(lines, (from + 1, text), rest, k - 1, space); }
    }
  }

  lemma NothingToCut(lines: seq<string>, space: char -> bool)
    ensures CutsIntoBlocks(lines, |lines|, [], space)
  {
  }

  /** Every physical line is consumed exactly once, in order, and blocks are neither cut short nor overrun. */
  lemma {:induction false} JoinCutsIntoBlocks(lines: seq<string>, from: nat, space: char -> bool)
    requires from <= |lines|
    ensures CutsIntoBlocks(lines, from, JoinFrom(lines, from, space), space)
    decreases |lines| - from
  {
    hide CutsIntoBlocks, IsBlock, GoesOn, Continues, TakeBlock;
    if from == |lines| {
      NothingToCut(lines, space);
    } else {
      var (text, last) := TakeBlock(lines[from], lines, from, space);
      JoinCutsIntoBlocks(lines, last + 1, space);
      assert Glued(lines, from, from + 1, space) == lines[from];
      TakeBlockIsBlock(lines, from, from, space);
      ConsBlock(lines, from, text, last + 1, JoinFrom(lines, last + 1, space), space);
    }
  }

  lemma BlocksAgree(lines: seq<string>, start: nat, a: string, endA: int, b: string, endB: int, space: char -> bool)
    requires IsBlock(lines, start, a, endA, space) && IsBlock(lines, start, b, endB, space)
    ensures a == b && endA == endB
  {
    assert endA < endB ==> GoesOn(lines, start, endA, space);
    assert endB < endA ==> GoesOn(lines, start, endB, space);
  }

  /** Where the block before position `k` ended. */
  ghost function EndBefore(joined: seq<(nat, string)>, k: nat, total: nat): int {
    if k == 0 then 0 else BlockEnd(joined, k - 1, total)
  }

  lemma NextEntry(lines: seq<string>, a: seq<(nat, string)>, k: nat, space: char -> bool)
    requires CutsIntoBlocks(lines, 0, a, space) && k <= |a|
    ensures k < |a| <==> EndBefore(a, k, |lines|) < |lines|
    ensures k < |a| ==> a[k].0 == EndBefore(a, k, |lines|) + 1
    ensures k < |a| ==> a[k].0 > 0 && IsBlock(lines, a[k].0 - 1, a[k].1, EndBefore(a, k + 1, |lines|), space)
  {
    if k < |a| { assert IsEntry(lines, a, k, space); }
  }

  /** The cut is the only one: the blocks determine the joined lines. */
  lemma {:induction false} BlocksAreUnique(
      lines: seq<string>, a: seq<(nat, string)>, b: seq<(nat, string)>, space: char -> bool, k: nat)
    requires CutsIntoBlocks(lines, 0, a, space) && CutsIntoBlocks(lines, 0, b, space)
    requires k <= |a|
    ensures k <= |b| && a[..k] == b[..k]
    ensures EndBefore(a, k, |lines|) == EndBefore(b, k, |lines|)
  {
    hide CutsIntoBlocks, IsEntry, IsBlock, Glued;
    if k > 0 {
      BlocksAreUnique(lines, a, b, space, k - 1);
      NextEntry(lines, a, k - 1, space);
      NextEntry(lines, b, k - 1, space);
      BlocksAgree(lines, a[k - 1].0 - 1, a[k - 1].1, EndBefore(a, k, |lines|),
                  b[k - 1].1, EndBefore(b, k, |lines|), space);
      assert a[..k] == a[..k - 1] + [a[k - 1]] && b[..k] == b[..k - 1] + [b[k - 1]];
    }
  }

  /** Two cuts of the same file are the same list. */
  lemma CutIsDetermined(lines: seq<string>, a: seq<(nat, string)>, b: seq<(nat, string)>, space: char -> bool)
    requires CutsIntoBlocks(lines, 0, a, space) && CutsIntoBlocks(lines, 0, b, space)
    ensures a == b
  {
    BlocksAreUnique(lines, a, b, space, |a|);
    BlocksAreUnique(lines, b, a, space, |b|);
    assert a == a[..|a|] && b == b[..|b|];
  }

  lemma JoinStep(done: seq<(nat, string)>, lines: seq<string>, from: nat, text: string, last: nat, space: char -> bool)
    requires from <= last < |lines| && TakeBlock(lines[from], lines, from, space) == (text, last)
    ensures done + JoinFrom(lines, from, space) == done + [(from + 1, text)] + JoinFrom(lines, last + 1, space)
  {
  }

  /** Joining as the source does it: two nested loops over the physical lines. */
  method JoinContinuations(rawLines: seq<string>, space: char -> bool) returns (result: seq<(nat, string)>)
    ensures result == JoinFrom(rawLines, 0, space)
    ensures CutsIntoBlocks(rawLines, 0, result, space)
  {
    hide Glue, Continues;
    result := [];
    var i := 0;
    while i < |rawLines|
      invariant 0 <= i <= |rawLines|
      invariant result + JoinFrom(rawLines, i, space) == JoinFrom(rawLines, 0, space)
    {
      var line := rawLines[i];
      var start := i + 1;
      while Continues(line, space) && i + 1 < |rawLines|
        invariant start - 1 <= i < |rawLines|
        invariant result + JoinFrom(rawLines, start - 1, space) == JoinFrom(rawLines, 0, space)
        invariant TakeBlock(line, rawLines, i, space) == TakeBlock(rawLines[start - 1], rawLines, start - 1, space)
      {
        line := Glue(line, rawLines[i + 1], space);
        i := i + 1;
      }
      JoinStep(result, rawLines, start - 1, line, i, space);
      result := result + [(start, line)];
      i := i + 1;
    }
    JoinCutsIntoBlocks(rawLines, 0, space);
  }

  // --- ARG and FROM lines ---

  /** `ARG key[=value]` before the first FROM. */
  function ParseArg(line: string, env: Substitution.Env, u: Unicode): Substitution.Env {
    var rest := Strip(Drop(line, 4), u.space);
    var eq := FirstIndex(rest, '=');
    if eq >= 0 then
      var key := Strip(rest[..eq], u.space);
      var value := Strip(Strip(Strip(rest[eq + 1..], u.space), c => c == '"'), c => c == '\'');
      env.(args := env.args[key := Some(if key in env.buildArgs then env.buildArgs[key] else value)])
    else
      var key := Strip(rest, u.space);
      env.(args := env.args[key := if key in env.buildArgs then Some(env.buildArgs[key]) else None])
  }

  function AsciiLower(s: string): string {
    seq(|s|, i requires 0 <= i < |s| => if 'A' <= s[i] <= 'Z' then (s[i] as int + 32) as char else s[i])
  }

  /** `--platform=(\S+)\s+(.+)` at the start of a stripped text: the platform and what follows. */
  function PlatformFlag(rest: string, space: char -> bool): Option<(string, string)> {
    if AsciiLower(rest[..if |rest| < 11 then |rest| else 11]) != "--platform=" then None
    else
      var n := Run(rest[11..], c => !space(c));
      var after := rest[11 + n..];
      var m := Run(after, space);
      var tail := after[m..];
      var end := FirstIndex(tail, '\n');
      var group := if end < 0 then tail else tail[..end];
      if n == 0 || m == 0 || group == "" then None else Some((rest[11..11 + n], group))
  }

  /** ` AS alias` starting at position `k`. */
  function AliasAt(rest: string, k: nat, space: char -> bool): (r: Option<string>)
    requires k <= |rest|
    ensures r.Some? ==> r.value != ""
  {
    var m := Run(rest[k..], space);
    var word := Drop(rest, k + m);
    if m == 0 || |word| < 2 || word[0] !in "aA" || word[1] !in "sS" then None
    else
      var p := Run(word[2..], space);
      var alias := word[2 + p..];
      var n := Run(alias, c => !space(c));
      if p == 0 || n == 0 then None else Some(alias[..n])
  }

  /** `(.+?)\s+[Aa][Ss]\s+(\S+)`: the shortest non-empty head, not across a newline, that an alias follows. */
  function FindAlias(rest: string, k: nat, space: char -> bool): (r: Option<(string, string)>)
    ensures r.Some? ==> r.value.1 != ""
    decreases |rest| - k
  {
    if k >= |rest| || rest[k] == '\n' then None
    else
      var alias := AliasAt(rest, k + 1, space);
      if alias.Some? then Some((rest[..k + 1], alias.value)) else FindAlias(rest, k + 1, space)
  }

  /** A private-registry pattern: exact, or with any port. */
  predicate IsPrivate(registry: string, patterns: seq<string>) {
    exists p :: p in patterns &&
      (if HasSuffix(p, ":*") then p[..|p| - 2] <= registry else registry == p)
  }

  function ParseFrom(line: string, number: nat, front: Front, patterns: seq<string>, u: Unicode)
    : (r: Result<Option<Image>, ResolverError>)
    ensures r.Ok? && r.value.Some? ==> AgreesWithRaw(r.value.value, front.aliases, patterns, u) &&
                                       r.value.value.line == number
  {
    var rest := Strip(Drop(line, 5), u.space);
    var flag := PlatformFlag(rest, u.space);
    var platform := if flag.Some? then Substitution.Substitute(flag.value.0, front.env, u.word) else Result.Ok("");
    if platform.Err? then Err(BadArg(number, platform.error))
    else
      var text := Substitution.Substitute(if flag.Some? then flag.value.1 else rest, front.env, u.word);
      if text.Err? then Err(BadArg(number, text.error))
      else
        var found := FindAlias(text.value, 0, u.space);
        var raw := if found.Some? then Strip(found.value.0, u.space) else text.value;
        if u.lower(raw) == "scratch" then Ok(None)
        else
          var ref := ParseImageRef(raw);
          Ok(Some(Image(raw, ref, BuildResolved(ref), if flag.Some? then Some(platform.value) else None,
                        if found.Some? then Some(found.value.1) else None,
                        u.lower(raw) in front.aliases, IsPrivate(ref.registry, patterns), number)))
  }

  /** What a recorded image says about itself follows from its raw text and the aliases known so far. */
  predicate AgreesWithRaw(img: Image, aliases: set<string>, patterns: seq<string>, u: Unicode) {
    && u.lower(img.raw) != "scratch"
    && img.ref == ParseImageRef(img.raw) && img.resolved == BuildResolved(img.ref)
    && (img.isPrivate <==> IsPrivate(img.ref.registry, patterns))
    && (img.isInternal <==> u.lower(img.raw) in aliases)
    && (img.alias.Some? ==> img.alias.value != "")
  }

  /** The parser's loop state. */
  datatype Front = Front(env: Substitution.Env, aliases: set<string>, images: seq<Image>, seenFrom: bool)

  function StepLine(front: Front, entry: (nat, string), patterns: seq<string>, u: Unicode)
    : Result<Front, ResolverError>
  {
    var stripped := Strip(entry.1, u.space);
    var upper := u.upper(stripped);
    if stripped == "" || stripped[0] == '#' then Ok(front)
    else if "ARG " <= upper && !front.seenFrom then Ok(front.(env := ParseArg(stripped, front.env, u)))
    else if "FROM " <= upper then
      match ParseFrom(stripped, entry.0, front, patterns, u)
      case Err(e) => Err(e)
      case Ok(None) => Ok(front.(seenFrom := true))
      case Ok(Some(img)) =>
        Ok(Front(front.env, if img.alias.Some? then front.aliases + {u.lower(img.alias.value)} else front.aliases,
                 front.images + [img], true))
    else Ok(front)
  }

  function StepLines(front: Front, lines: seq<(nat, string)>, patterns: seq<string>, u: Unicode)
    : Result<Front, ResolverError>
    decreases |lines|
  {
    if lines == [] then Ok(front)
    else
      match StepLine(front, lines[0], patterns, u)
      case Err(e) => Err(e)
      case Ok(next) => StepLines(next, lines[1..], patterns, u)
  }

  /** The images of a Dockerfile given as physical lines. */
  function ImagesOf(rawLines: seq<string>, buildArgs: map<string, string>, patterns: seq<string>, u: Unicode)
    : Result<seq<Image>, ResolverError>
  {
    match StepLines(Front(Substitution.Env(map[], buildArgs), {}, [], false), JoinFrom(rawLines, 0, u.space), patterns, u)
    case Err(e) => Err(e)
    case Ok(front) => Ok(front.images)
  }

  /** The aliases, lowered, that a list of images records. */
  function AliasesOf(images: seq<Image>, u: Unicode): set<string> {
    set img | img in images && img.alias.Some? :: u.lower(img.alias.value)
  }

  /** Line numbers grow, and every image was judged against exactly the aliases recorded before it. */
  ghost predicate ImagesAgree(images: seq<Image>, patterns: seq<string>, u: Unicode) {
    && (forall k :: 0 <= k < |images| ==> AgreesWithRaw(images[k], AliasesOf(images[..k], u), patterns, u))
    && (forall j, k :: 0 <= j < k < |images| ==> images[j].line < images[k].line)
  }

  ghost predicate FrontAgrees(front: Front, next: int, patterns: seq<string>, u: Unicode) {
    && ImagesAgree(front.images, patterns, u)
    && front.aliases == AliasesOf(front.images, u)
    && forall img :: img in front.images ==> img.line < next
  }

  ghost predicate NumbersGrow(lines: seq<(nat, string)>, next: int) {
    && (forall k :: 0 <= k < |lines| ==> next <= lines[k].0)
    && forall j, k :: 0 <= j < k < |lines| ==> lines[j].0 < lines[k].0
  }

  lemma RecordedImageAgrees(front: Front, img: Image, next: int, patterns: seq<string>, u: Unicode)
    requires FrontAgrees(front, next, patterns, u) && next <= img.line
    requires AgreesWithRaw(img, front.aliases, patterns, u)
    ensures ImagesAgree(front.images + [img], patterns, u)
    ensures forall i :: i in front.images + [img] ==> i.line < img.line + 1
    ensures AliasesOf(front.images + [img], u) ==
            front.aliases + if img.alias.Some? then {u.lower(img.alias.value)} else {}
  {
    hide AgreesWithRaw;
    var images := front.images + [img];
    forall k | 0 <= k < |images| ensures AgreesWithRaw(images[k], AliasesOf(images[..k], u), patterns, u) {
      assert images[..k] == front.images[..k];
      if k == |front.images| { assert images[..k] == front.images; }
    }
    forall j, k | 0 <= j < k < |images| ensures images[j].line < images[k].line {
      assert images[j] in front.images;
    }
  }

  lemma StepLineAgrees(front: Front, entry: (nat, string), patterns: seq<string>, u: Unicode)
    requires FrontAgrees(front, entry.0, patterns, u)
    ensures var r := StepLine(front, entry, patterns, u);
            r.Ok? ==> FrontAgrees(r.value, entry.0 + 1, patterns, u)
  {
    hide ParseFrom, ParseArg, Strip, AgreesWithRaw, ImagesAgree;
    var r := StepLine(front, entry, patterns, u);
    if r.Ok? && r.value.images != front.images {
      RecordedImageAgrees(front, r.value.images[|front.images|], entry.0, patterns, u);
    }
  }

  lemma {:induction false} StepLinesAgree(front: Front, lines: seq<(nat, string)>, next: int, patterns: seq<string>, u: Unicode)
    requires FrontAgrees(front, next, patterns, u) && NumbersGrow(lines, next)
    ensures StepLines(front, lines, patterns, u).Ok? ==>
              ImagesAgree(StepLines(front, lines, patterns, u).value.images, patterns, u)
    decreases |lines|
  {
    if lines != [] {
      StepLineAgrees(front, lines[0], patterns, u);
      var r := StepLine(front, lines[0], patterns, u);
      if r.Ok? {
        assert NumbersGrow(lines[1..], lines[0].0 + 1);
        StepLinesAgree(r.value, lines[1..], lines[0].0 + 1, patterns, u);
      }
    }
  }

  /** An image is a reference to an earlier stage exactly when its lowered text is an alias that an earlier
      recorded FROM introduced; line numbers of the images strictly increase. */
  lemma InternalIffEarlierAlias(rawLines: seq<string>, buildArgs: map<string, string>, patterns: seq<string>, u: Unicode)
    ensures var r := ImagesOf(rawLines, buildArgs, patterns, u);
            r.Ok? ==> ImagesAgree(r.value, patterns, u) &&
                      forall k :: 0 <= k < |r.value| ==>
                        (r.value[k].isInternal <==>
                         exists j :: 0 <= j < k && r.value[j].alias.Some? &&
                                     u.lower(r.value[j].alias.value) == u.lower(r.value[k].raw))
  {
    hide JoinFrom, StepLines, CutsIntoBlocks;
    var joined := JoinFrom(rawLines, 0, u.space);
    JoinCutsIntoBlocks(rawLines, 0, u.space);
    StartsGrow(rawLines, joined, u.space);
    StepLinesAgree(Front(Substitution.Env(map[], buildArgs), {}, [], false), joined, 0, patterns, u);
    var r := ImagesOf(rawLines, buildArgs, patterns, u);
    if r.Ok? {
      forall k | 0 <= k < |r.value|
        ensures r.value[k].isInternal <==>
                exists j :: 0 <= j < k && r.value[j].alias.Some? &&
                            u.lower(r.value[j].alias.value) == u.lower(r.value[k].raw)
      {
        assert AgreesWithRaw(r.value[k], AliasesOf(r.value[..k], u), patterns, u);
        assert forall j :: 0 <= j < k ==> r.value[..k][j] == r.value[j];
      }
    }
  }

  lemma StartsGrow(lines: seq<string>, joined: seq<(nat, string)>, space: char -> bool)
    requires CutsIntoBlocks(lines, 0, joined, space)
    ensures NumbersGrow(joined, 0)
  {
    forall j, k | 0 <= j < k < |joined| ensures joined[j].0 < joined[k].0 { StartsGrowTo(lines, joined, space, j, k); }
  }

  lemma {:induction false} StartsGrowTo(lines: seq<string>, joined: seq<(nat, string)>, space: char -> bool, j: nat, k: nat)
    requires CutsIntoBlocks(lines, 0, joined, space) && j < k < |joined|
    ensures joined[j].0 < joined[k].0
  {
    assert IsEntry(lines, joined, k - 1, space);
    if j < k - 1 { StartsGrowTo(lines, joined, space, j, k - 1); }
  }

  /** Every image the parser yields is pinned by a tag or a non-empty digest. */
  lemma ImagesArePinned(images: seq<Image>, patterns: seq<string>, u: Unicode)
    requires ImagesAgree(images, patterns, u)
    ensures forall img :: img in images ==> HasPin(img.ref)
  {
    forall img | img in images ensures HasPin(img.ref) {
      var k :| 0 <= k < |images| && images[k] == img;
      assert AgreesWithRaw(images[k], AliasesOf(images[..k], u), patterns, u);
      ExactlyOnePin(img.raw);
    }
  }

  /** The parser's loop over the joined lines. */
  method ParseDockerfile(rawLines: seq<string>, buildArgs: map<string, string>, patterns: seq<string>, u: Unicode)
    returns (r: Result<seq<Image>, ResolverError>)
    ensures r == ImagesOf(rawLines, buildArgs, patterns, u)
    ensures r.Ok? ==> ImagesAgree(r.value, patterns, u) && forall img :: img in r.value ==> HasPin(img.ref)
  {
    InternalIffEarlierAlias(rawLines, buildArgs, patterns, u);
    var lines := JoinContinuations(rawLines, u.space);
    var front := Front(Substitution.Env(map[], buildArgs), {}, [], false);
    ghost var start := front;
    for k := 0 to |lines|
      invariant StepLines(front, lines[k..], patterns, u) == StepLines(start, lines, patterns, u)
    {
      assert lines[k..][1..] == lines[k + 1..];
      var next := StepLine(front, lines[k], patterns, u);
      if next.Err? {
        return Err(next.error);
      }
      front := next.value;
    }
    ImagesArePinned(front.images, patterns, u);
    return Ok(front.images);
  }

  // --- reading back what a FROM or ARG line says ---

  /** A word as it stands in a FROM line: not empty, without white space and references. */
  predicate IsToken(t: string, u: Unicode) {
    t != "" && '$' !in t && forall c :: c in t ==> !u.space(c)
  }

  /** What the tables say about the punctuation of the instructions. */
  ghost predicate UsualSpaces(u: Unicode) {
    u.space(' ') && u.space('\n') && forall c :: c in "-A=\"'" ==> !u.space(c)
  }

  lemma NoReferences(text: string, env: Substitution.Env, u: Unicode)
    requires '$' !in text
    ensures Substitution.Substitute(text, env, u.word) == Result.Ok(text)
  {
    Substitution.LiteralIsCopied(text, "", env, u.word);
    assert text + "" == text;
  }

  lemma WordAfterSpace(alias: string, u: Unicode)
    requires u.space(' ') && IsToken(alias, u)
    ensures var word := "AS " + alias;
            word[2..] == " " + alias && word[2..][1..] == alias && Run(word[2..], u.space) == 1
  {
    hide Run;
    var word := "AS " + alias;
    assert word[2..] == " " + alias;
    assert word[2..][1..] == alias;
    assert alias[0] in alias;
    RunIs(" ", alias, u.space);
  }

  lemma WholeToken(t: string, u: Unicode)
    requires IsToken(t, u)
    ensures Run(t, c => !u.space(c)) == |t|
  {
    hide Run;
    RunIs(t, "", c => !u.space(c));
    assert t + "" == t;
  }

  lemma SpaceBeforeWord(raw: string, alias: string, u: Unicode)
    requires UsualSpaces(u)
    ensures var rest := raw + " AS " + alias;
            Run(rest[|raw|..], u.space) == 1 && Drop(rest, |raw| + 1) == "AS " + alias
  {
    hide Run;
    var rest := raw + " AS " + alias;
    assert rest[|raw|..] == " " + ("AS " + alias);
    assert 'A' in "-A=\"'";
    RunIs(" ", "AS " + alias, u.space);
    assert rest[|raw| + 1..] == "AS " + alias;
  }

  lemma AliasAfterSpace(raw: string, alias: string, u: Unicode)
    requires UsualSpaces(u) && IsToken(alias, u)
    ensures AliasAt(raw + " AS " + alias, |raw|, u.space) == Some(alias)
  {
    hide Run, Drop;
    SpaceBeforeWord(raw, alias, u);
    WordAfterSpace(alias, u);
    WholeToken(alias, u);
    var word := "AS " + alias;
    assert word[0] == 'A' && word[1] == 'S';
    assert alias[..|alias|] == alias;
  }

  lemma NoAliasInside(raw: string, tail: string, k: nat, u: Unicode)
    requires IsToken(raw, u) && 0 < k < |raw|
    ensures AliasAt(raw + tail, k, u.space) == None
  {
    assert (raw + tail)[k..][0] == raw[k];
    assert raw[k] in raw;
  }

  lemma {:induction false} AliasIsFound(raw: string, alias: string, k: nat, u: Unicode)
    requires UsualSpaces(u) && IsToken(raw, u) && IsToken(alias, u) && k < |raw|
    ensures FindAlias(raw + " AS " + alias, k, u.space) == Some((raw, alias))
    decreases |raw| - k
  {
    hide AliasAt;
    var rest := raw + " AS " + alias;
    assert rest == raw + (" AS " + alias);
    assert rest[k] == raw[k] && raw[k] in raw;
    if k + 1 < |raw| {
      NoAliasInside(raw, " AS " + alias, k + 1, u);
      AliasIsFound(raw, alias, k + 1, u);
    } else {
      AliasAfterSpace(raw, alias, u);
      assert rest[..|raw|] == raw;
    }
  }

  lemma LowerOfFlag(rest: string)
    ensures AsciiLower(("--platform=" + rest)[..11]) == "--platform="
  {
    assert ("--platform=" + rest)[..11] == "--platform=";
  }

  lemma FlagIsRead(platform: string, rest: string, u: Unicode)
    requires UsualSpaces(u) && IsToken(platform, u) && rest != "" && !u.space(rest[0]) && '\n' !in rest
    ensures PlatformFlag("--platform=" + (platform + (" " + rest)), u.space) == Some((platform, rest))
  {
    hide AsciiLower;
    var line := "--platform=" + (platform + (" " + rest));
    LowerOfFlag(platform + (" " + rest));
    assert line[11..] == platform + (" " + rest);
    RunIs(platform, " " + rest, c => !u.space(c));
    assert line[11 + |platform|..] == " " + rest;
    RunIs(" ", rest, u.space);
    assert (" " + rest)[1..] == rest;
    assert line[11..11 + |platform|] == platform;
  }

  /** A FROM line with platform and alias is read back field by field, for every environment and every set of
      earlier aliases; with `scratch` nothing is recorded, and its alias is lost. */
  lemma FromLineReadsBack(
      platform: string, raw: string, alias: string, number: nat, front: Front, patterns: seq<string>, u: Unicode)
    requires UsualSpaces(u) && IsToken(platform, u) && IsToken(raw, u) && IsToken(alias, u)
    ensures var ref := ParseImageRef(raw);
            ParseFrom("FROM " + ("--platform=" + (platform + (" " + (raw + " AS " + alias)))), number, front, patterns, u) ==
            if u.lower(raw) == "scratch" then Ok(None)
            else Ok(Some(Image(raw, ref, BuildResolved(ref), Some(platform), Some(alias),
                               u.lower(raw) in front.aliases, IsPrivate(ref.registry, patterns), number)))
  {
    hide PlatformFlag, FindAlias, ParseImageRef, BuildResolved, IsPrivate, Substitution.Substitute, Strip;
    var rest := raw + " AS " + alias;
    var body := "--platform=" + (platform + (" " + rest));
    assert Drop("FROM " + body, 5) == body;
    assert raw[0] in raw && raw[|raw| - 1] in raw && alias[|alias| - 1] in alias;
    assert body[0] == '-' && '-' in "-A=\"'";
    assert body[|body| - 1] == alias[|alias| - 1];
    StripKeeps(body, u.space);
    StripKeeps(raw, u.space);
    assert rest[0] == raw[0];
    TokensInRest(raw, alias, u);
    FlagIsRead(platform, rest, u);
    NoReferences(platform, front.env, u);
    NoReferences(rest, front.env, u);
    AliasIsFound(raw, alias, 0, u);
  }

  lemma TokensInRest(raw: string, alias: string, u: Unicode)
    requires UsualSpaces(u) && IsToken(raw, u) && IsToken(alias, u)
    ensures '\n' !in raw + " AS " + alias && '$' !in raw + " AS " + alias
  {
  }

  lemma ArgSplits(key: string, quoted: string, u: Unicode)
    requires IsToken(key, u) && '=' !in key && quoted != ""
    requires !u.space(quoted[0]) && !u.space(quoted[|quoted| - 1])
    ensures var rest := key + "=" + quoted;
            Strip(rest, u.space) == rest && FirstIndex(rest, '=') == |key| &&
            rest[..|key|] == key && rest[|key| + 1..] == quoted &&
            Strip(key, u.space) == key && Strip(quoted, u.space) == quoted
  {
    hide Strip, FirstIndex;
    var rest := key + "=" + quoted;
    assert key[0] in key && key[|key| - 1] in key;
    assert rest[0] == key[0] && rest[|rest| - 1] == quoted[|quoted| - 1];
    StripKeeps(rest, u.space);
    StripKeeps(key, u.space);
    StripKeeps(quoted, u.space);
    FirstIndexIs(key, '=', quoted);
    assert rest == key + ['='] + quoted;
  }

  /** `ARG key=value`, bare or in either kind of quotes, defines the value unless a build argument overrides it. */
  lemma ArgLineReadsBack(key: string, value: string, quote: string, env: Substitution.Env, u: Unicode)
    requires UsualSpaces(u) && IsToken(key, u) && '=' !in key && quote in ["", "\"", "'"]
    requires IsToken(value, u) && '"' !in value && '\'' !in value
    ensures ParseArg("ARG " + (key + "=" + (quote + value + quote)), env, u) ==
            env.(args := env.args[key := Some(if key in env.buildArgs then env.buildArgs[key] else value)])
  {
    hide Strip, FirstIndex;
    var quoted := quote + value + quote;
    var rest := key + "=" + quoted;
    assert Drop("ARG " + rest, 4) == rest;
    QuotedEnds(value, quote, u);
    ArgSplits(key, quoted, u);
    UnquotedIs(value, quote);
  }

  lemma QuotedEnds(value: string, quote: string, u: Unicode)
    requires UsualSpaces(u) && IsToken(value, u) && quote in ["", "\"", "'"]
    ensures var quoted := quote + value + quote;
            quoted != "" && !u.space(quoted[0]) && !u.space(quoted[|quoted| - 1])
  {
    assert value[0] in value && value[|value| - 1] in value;
    assert '"' in "-A=\"'" && '\'' in "-A=\"'";
  }

  lemma UnquotedIs(value: string, quote: string)
    requires value != "" && '"' !in value && '\'' !in value && quote in ["", "\"", "'"]
    ensures Strip(Strip(quote + value + quote, c => c == '"'), c => c == '\'') == value
  {
    assert value[0] in value && value[|value| - 1] in value;
    StripKeeps(value, c => c == '"');
    StripKeeps(value, c => c == '\'');
    if quote == "" {
      assert quote + value + quote == value;
    } else {
      var q := quote[0];
      assert quote == [q];
      StripKeeps(quote + value + quote, c => c == if q == '"' then '\'' else '"');
      StripQuotes(value, q, c => c == q);
      hide Strip;
      if q == '"' {
        StripSame(quote + value + quote, c => c == '"', c => c == q);
        StripSame(value, c => c == '\'', c => c == '\'');
      } else {
        StripSame(quote + value + quote, c => c == '"', c => c == if q == '"' then '\'' else '"');
        StripSame(quote + value + quote, c => c == '\'', c => c == q);
      }
    }
  }

  lemma StripQuotes(value: string, q: char, isQuote: char -> bool)
    requires value != "" && !isQuote(value[0]) && !isQuote(value[|value| - 1]) && isQuote(q)
    ensures Strip([q] + value + [q], isQuote) == value
  {
    var s := [q] + value + [q];
    assert s == [q] + (value + [q]);
    RunIs([q], value + [q], isQuote);
    assert LStrip(s, isQuote) == value + [q];
    assert (value + [q])[..|value|] == value;
    assert RStrip(value, isQuote) == value;
  }

  lemma {:induction false} RunSame(s: string, p: char -> bool, q: char -> bool)
    requires forall c :: p(c) == q(c)
    ensures Run(s, p) == Run(s, q)
  {
    if s != "" { RunSame(s[1..], p, q); }
  }

  lemma {:induction false} RStripSame(s: string, p: char -> bool, q: char -> bool)
    requires forall c :: p(c) == q(c)
    ensures RStrip(s, p) == RStrip(s, q)
  {
    if s != "" { RStripSame(s[..|s| - 1], p, q); }
  }

  lemma StripSame(s: string, p: char -> bool, q: char -> bool)
    requires forall c :: p(c) == q(c)
    ensures Strip(s, p) == Strip(s, q)
  {
    RunSame(s, p, q);
    RStripSame(LStrip(s, p), p, q);
  }
}
