/** The shared slot between analysing and generating a request, under any interleaving of handler threads. */
module AnalysisSlot {
  import opened Prelude
  import opened Dockerfile
  import opened Resolver
  import opened OnlineFetch
  import opened Requests

  datatype Analysis = Analysis(id: string, images: seq<Image>, missing: seq<MissingBlob>)

  /** A request sent to a client, with the analysis id the client asked for. */
  datatype Emission = Emission(asked: string, images: seq<ImageRequest>, blobs: seq<MissingBlob>)

  /** Where a generate call is between its critical sections. */
  datatype Caller = Holding(asked: string, analysis: Analysis) | Sent(asked: string)

  /** `recorded` is the history of all analyses that were ever put into the slot. */
  datatype World = World(
    slot: Option<Analysis>, callers: map<nat, Caller>, recorded: seq<Analysis>, emitted: seq<Emission>)

  const START := World(None, map[], [], [])

  /** The atomic steps: store an analysis; check the slot and capture it; answer; clear the slot. */
  datatype Step = Record(analysis: Analysis) | Check(caller: nat, asked: string) | Emit(caller: nat) | Clear(caller: nat)

  /** Why a generate call is refused. */
  datatype Refusal = MissingField | NoAnalysis | AnalysisReplaced | NoMissing | NoCryptoKeys

  function CheckSlot(slot: Option<Analysis>, asked: string): Result<Analysis, Refusal> {
    if asked == "" then Err(MissingField)
    else if slot.None? then Err(NoAnalysis)
    else if slot.value.id != asked then Err(AnalysisReplaced)
    else Ok(slot.value)
  }

  /** The answer built from a captured analysis, outside any lock. */
  function Answer(asked: string, a: Analysis, hasKeys: bool): Result<Emission, Refusal> {
    var images := RequestsFor(FirstOfKey(a.images));
    if a.missing == [] && images == [] then Err(NoMissing)
    else if !hasKeys then Err(NoCryptoKeys)
    else Ok(Emission(asked, images, a.missing))
  }

  predicate Enabled(w: World, s: Step) {
    match s
    case Record(_) => true
    case Check(caller, _) => caller !in w.callers
    case Emit(caller) => caller in w.callers && w.callers[caller].Holding?
    case Clear(caller) => caller in w.callers && w.callers[caller].Sent?
  }

  function Next(w: World, s: Step, hasKeys: bool): World
    requires Enabled(w, s)
  {
    match s
    case Record(a) => w.(slot := Some(a), recorded := w.recorded + [a])
    case Check(caller, asked) =>
      var r := CheckSlot(w.slot, asked);
      if r.Err? then w else w.(callers := w.callers[caller := Holding(asked, r.value)])
    case Emit(caller) =>
      var r := Answer(w.callers[caller].asked, w.callers[caller].analysis, hasKeys);
      if r.Err? then w.(callers := w.callers - {caller})
      else w.(callers := w.callers[caller := Sent(w.callers[caller].asked)], emitted := w.emitted + [r.value])
    case Clear(caller) => w.(slot := None, callers := w.callers - {caller})
  }

  /** Steps that are not enabled are skipped, so every list of steps is a run. */
  function RunSteps(w: World, steps: seq<Step>, hasKeys: bool): World
    decreases |steps|
  {
    if steps == [] then w
    else RunSteps(if Enabled(w, steps[0]) then Next(w, steps[0], hasKeys) else w, steps[1..], hasKeys)
  }

  // --- safety under every interleaving ---

  /** An emission carries exactly what a recorded analysis with the id asked for contains. */
  ghost predicate Honest(e: Emission, recorded: seq<Analysis>) {
    exists a :: a in recorded && a.id == e.asked && e.blobs == a.missing && e.images == RequestsFor(FirstOfKey(a.images))
  }

  ghost predicate Sound(w: World) {
    && (w.slot.Some? ==> w.slot.value in w.recorded)
    && (forall c :: c in w.callers && w.callers[c].Holding? ==>
         w.callers[c].analysis in w.recorded && w.callers[c].analysis.id == w.callers[c].asked)
    && forall e :: e in w.emitted ==> Honest(e, w.recorded)
  }

  lemma StepIsSound(w: World, s: Step, hasKeys: bool)
    requires Sound(w) && Enabled(w, s)
    ensures Sound(Next(w, s, hasKeys)) && w.recorded <= Next(w, s, hasKeys).recorded
  {
    hide FirstOfKey, RequestsFor;
    var after := Next(w, s, hasKeys);
    assert forall a :: a in w.recorded ==> a in after.recorded;
    forall e | e in after.emitted ensures Honest(e, after.recorded) {
      if e in w.emitted {
        var a :| a in w.recorded && a.id == e.asked && e.blobs == a.missing && e.images == RequestsFor(FirstOfKey(a.images));
        assert a in after.recorded;
      }
    }
  }

  /** Over every run: whatever threads do, an emitted request carries exactly the missing blobs and the images of
      an analysis whose id was asked for. */
  lemma {:induction false} RunsAreSound(w: World, steps: seq<Step>, hasKeys: bool)
    requires Sound(w)
    ensures Sound(RunSteps(w, steps, hasKeys))
    decreases |steps|
  {
    if steps != [] {
      if Enabled(w, steps[0]) { StepIsSound(w, steps[0], hasKeys); }
      RunsAreSound(if Enabled(w, steps[0]) then Next(w, steps[0], hasKeys) else w, steps[1..], hasKeys);
    }
  }

  ghost predicate DistinctIds(recorded: seq<Analysis>) {
    forall i, j :: 0 <= i < j < |recorded| ==> recorded[i].id != recorded[j].id
  }

  /** With distinct ids it is *the* analysis that was asked for. */
  lemma EmissionsAreExact(steps: seq<Step>, hasKeys: bool, e: Emission, a: Analysis)
    requires var w := RunSteps(START, steps, hasKeys);
             DistinctIds(w.recorded) && e in w.emitted && a in w.recorded && a.id == e.asked
    ensures e.blobs == a.missing && e.images == RequestsFor(FirstOfKey(a.images))
  {
    hide FirstOfKey, RequestsFor, RunSteps;
    RunsAreSound(START, steps, hasKeys);
    var w := RunSteps(START, steps, hasKeys);
    assert Honest(e, w.recorded);
  }

  // --- serial runs ---

  /** A whole request handled without interruption. */
  datatype Operation = Analyze(analysis: Analysis) | Generate(caller: nat, asked: string)

  function StepsOf(op: Operation): seq<Step> {
    match op
    case Analyze(a) => [Record(a)]
    case Generate(caller, asked) => [Check(caller, asked), Emit(caller), Clear(caller)]
  }

  function StepsOfAll(ops: seq<Operation>): seq<Step> {
    if ops == [] then [] else StepsOfAll(ops[..|ops| - 1]) + StepsOf(ops[|ops| - 1])
  }

  /** What one whole operation does to an otherwise quiet server. */
  function Whole(w: World, op: Operation, hasKeys: bool): World {
    match op
    case Analyze(a) => w.(slot := Some(a), recorded := w.recorded + [a])
    case Generate(_, asked) =>
      var r := CheckSlot(w.slot, asked);
      if r.Err? then w
      else
        var answer := Answer(asked, r.value, hasKeys);
        if answer.Err? then w else w.(slot := None, emitted := w.emitted + [answer.value])
  }

  lemma WholeIsItsSteps(w: World, op: Operation, hasKeys: bool)
    requires w.callers == map[]
    ensures RunSteps(w, StepsOf(op), hasKeys) == Whole(w, op, hasKeys) && Whole(w, op, hasKeys).callers == map[]
  {
    hide Answer, CheckSlot;
    match op
    case Analyze(a) =>
      assert [Record(a)][1..] == [];
    case Generate(caller, asked) =>
      var c, e, l := Check(caller, asked), Emit(caller), Clear(caller);
      assert [c, e, l][1..] == [e, l] && [e, l][1..] == [l] && [l][1..] == [];
      var w1 := Next(w, c, hasKeys);
      assert RunSteps(w, [c, e, l], hasKeys) == RunSteps(w1, [e, l], hasKeys);
      if CheckSlot(w.slot, asked).Ok? {
        var w2 := Next(w1, e, hasKeys);
        assert w1.callers - {caller} == map[];
        assert RunSteps(w1, [e, l], hasKeys) == RunSteps(w2, [l], hasKeys);
        if w2.callers == map[] {
          assert RunSteps(w2, [l], hasKeys) == RunSteps(w2, [], hasKeys);
        } else {
          assert w2.callers - {caller} == map[];
          assert RunSteps(w2, [l], hasKeys) == RunSteps(Next(w2, l, hasKeys), [], hasKeys);
        }
      } else {
        assert RunSteps(w, [e, l], hasKeys) == RunSteps(w, [l], hasKeys) == RunSteps(w, [], hasKeys);
      }
  }

  lemma {:induction false} RunAppend(w: World, a: seq<Step>, b: seq<Step>, hasKeys: bool)
    ensures RunSteps(w, a + b, hasKeys) == RunSteps(RunSteps(w, a, hasKeys), b, hasKeys)
    decreases |a|
  {
    hide Next, Enabled;
    if a == [] {
      assert a + b == b;
    } else {
      assert (a + b)[0] == a[0] && (a + b)[1..] == a[1..] + b;
      RunAppend(if Enabled(w, a[0]) then Next(w, a[0], hasKeys) else w, a[1..], b, hasKeys);
    }
  }

  function AskedIds(emitted: seq<Emission>): seq<string> {
    seq(|emitted|, k requires 0 <= k < |emitted| => emitted[k].asked)
  }

  /** Ids are consumed once: none is emitted twice, and the one in the slot was not emitted yet. */
  ghost predicate ConsumedOnce(w: World) {
    && w.callers == map[] && NoDup(AskedIds(w.emitted))
    && (w.slot.Some? ==> w.slot.value in w.recorded && w.slot.value.id !in AskedIds(w.emitted))
    && forall id :: id in AskedIds(w.emitted) ==> exists a :: a in w.recorded && a.id == id
  }

  lemma WholeConsumesOnce(w: World, op: Operation, hasKeys: bool)
    requires ConsumedOnce(w) && DistinctIds(Whole(w, op, hasKeys).recorded)
    ensures ConsumedOnce(Whole(w, op, hasKeys))
  {
    hide FirstOfKey, RequestsFor, NoDup;
    var after := Whole(w, op, hasKeys);
    if op.Analyze? {
      var n := |w.recorded|;
      assert after.recorded[n] == op.analysis;
      forall a | a in w.recorded ensures a.id != op.analysis.id && a in after.recorded {
        var i :| 0 <= i < n && w.recorded[i] == a;
        assert after.recorded[i] == a;
      }
    } else if after.emitted != w.emitted {
      var id := op.asked;
      assert AskedIds(after.emitted) == AskedIds(w.emitted) + [id];
      NoDupAppend(AskedIds(w.emitted), [id]);
      assert NoDup([id]) by { OneIsNoDup(id); }
      assert ToSet([id]) == {id};
    }
  }

  lemma OneIsNoDup(id: string)
    ensures NoDup([id])
  {
  }

  /** In serial runs, with distinct analysis ids, every id is consumed at most once. */
  lemma {:induction false} SerialRunsConsumeOnce(ops: seq<Operation>, hasKeys: bool)
    requires DistinctIds(RunSteps(START, StepsOfAll(ops), hasKeys).recorded)
    ensures ConsumedOnce(RunSteps(START, StepsOfAll(ops), hasKeys))
  {
    hide Whole, DistinctIds, ConsumedOnce, StepsOf;
    if ops == [] {
      StartIsQuiet();
    } else {
      var before, op := ops[..|ops| - 1], ops[|ops| - 1];
      var w := RunSteps(START, StepsOfAll(before), hasKeys);
      RunAppend(START, StepsOfAll(before), StepsOf(op), hasKeys);
      hide RunSteps;
      SerialIsQuiet(before, hasKeys);
      WholeIsItsSteps(w, op, hasKeys);
      EarlierIdsDistinct(w, op, hasKeys);
      SerialRunsConsumeOnce(before, hasKeys);
      WholeConsumesOnce(w, op, hasKeys);
    }
  }

  lemma {:induction false} SerialIsQuiet(ops: seq<Operation>, hasKeys: bool)
    ensures RunSteps(START, StepsOfAll(ops), hasKeys).callers == map[]
  {
    hide Whole, StepsOf;
    if ops != [] {
      var before, op := ops[..|ops| - 1], ops[|ops| - 1];
      SerialIsQuiet(before, hasKeys);
      RunAppend(START, StepsOfAll(before), StepsOf(op), hasKeys);
      WholeIsItsSteps(RunSteps(START, StepsOfAll(before), hasKeys), op, hasKeys);
    }
  }

  lemma StartIsQuiet()
    ensures ConsumedOnce(RunSteps(START, [], true)) && ConsumedOnce(RunSteps(START, [], false))
  {
    assert AskedIds([]) == [];
  }

  lemma EarlierIdsDistinct(w: World, op: Operation, hasKeys: bool)
    requires DistinctIds(Whole(w, op, hasKeys).recorded)
    ensures DistinctIds(w.recorded)
  {
    var after := Whole(w, op, hasKeys).recorded;
    assert forall i :: 0 <= i < |w.recorded| ==> after[i] == w.recorded[i];
  }

  // --- exactly when an id is consumed once ---

  /** A caller that will send, or has sent, an answer for the id. */
  predicate ActsFor(c: Caller, id: string, hasKeys: bool) {
    c.asked == id && (c.Holding? ==> Answer(c.asked, c.analysis, hasKeys).Ok?)
  }

  predicate Busy(w: World, id: string, hasKeys: bool) {
    exists c :: c in w.callers && ActsFor(w.callers[c], id, hasKeys)
  }

  /** The step captures an analysis that can be answered. */
  predicate Captures(w: World, s: Step, hasKeys: bool) {
    s.Check? && Enabled(w, s) && CheckSlot(w.slot, s.asked).Ok? &&
    Answer(s.asked, CheckSlot(w.slot, s.asked).value, hasKeys).Ok?
  }

  /** Somewhere in the run a call captures an id while another call for that id is between its sections. */
  predicate Overlapping(w: World, steps: seq<Step>, hasKeys: bool)
    decreases |steps|
  {
    steps != [] &&
    ((steps[0].Check? && Captures(w, steps[0], hasKeys) && Busy(w, steps[0].asked, hasKeys)) ||
     Overlapping(After(w, steps[0], hasKeys), steps[1..], hasKeys))
  }

  function After(w: World, s: Step, hasKeys: bool): World {
    if Enabled(w, s) then Next(w, s, hasKeys) else w
  }

  /** The callers that hold an answerable analysis of the id. */
  function Holders(w: World, id: string, hasKeys: bool): set<nat> {
    set c | c in w.callers && w.callers[c].Holding? && ActsFor(w.callers[c], id, hasKeys)
  }

  /** Answers for the id that were sent or are bound to be sent. */
  function Due(w: World, id: string, hasKeys: bool): nat {
    multiset(AskedIds(w.emitted))[id] + |Holders(w, id, hasKeys)|
  }

  lemma HoldersGrow(w: World, caller: nat, c: Caller, id: string, hasKeys: bool)
    requires caller !in w.callers && c.Holding?
    ensures Holders(w.(callers := w.callers[caller := c]), id, hasKeys) ==
            Holders(w, id, hasKeys) + if ActsFor(c, id, hasKeys) then {caller} else {}
  {
    hide Answer;
  }

  lemma DueAfterCheck(w: World, caller: nat, asked: string, id: string, hasKeys: bool)
    requires Enabled(w, Check(caller, asked))
    ensures Due(Next(w, Check(caller, asked), hasKeys), id, hasKeys) ==
            Due(w, id, hasKeys) + if Captures(w, Check(caller, asked), hasKeys) && asked == id then 1 else 0
  {
    var r := CheckSlot(w.slot, asked);
    if r.Ok? { HoldersGrow(w, caller, Holding(asked, r.value), id, hasKeys); }
    hide Answer, CheckSlot, Holders;
    assert caller !in Holders(w, id, hasKeys) by { NotYetHolding(w, caller, id, hasKeys); }
  }

  lemma NotYetHolding(w: World, caller: nat, id: string, hasKeys: bool)
    requires caller !in w.callers
    ensures caller !in Holders(w, id, hasKeys)
  {
    hide Answer;
  }

  lemma DueAfterEmit(w: World, caller: nat, id: string, hasKeys: bool)
    requires Enabled(w, Emit(caller))
    ensures Due(Next(w, Emit(caller), hasKeys), id, hasKeys) == Due(w, id, hasKeys)
  {
    var after, c := Next(w, Emit(caller), hasKeys), w.callers[caller];
    AnswerKeepsAsked(c.asked, c.analysis, hasKeys);
    hide Answer;
    var r := Answer(c.asked, c.analysis, hasKeys);
    if r.Ok? {
      assert AskedIds(after.emitted) == AskedIds(w.emitted) + [c.asked];
    }
    if r.Ok? && c.asked == id {
      assert Holders(w, id, hasKeys) == Holders(after, id, hasKeys) + {caller};
    } else {
      assert Holders(w, id, hasKeys) == Holders(after, id, hasKeys);
    }
  }

  lemma AnswerKeepsAsked(asked: string, a: Analysis, hasKeys: bool)
    ensures Answer(asked, a, hasKeys).Ok? ==> Answer(asked, a, hasKeys).value.asked == asked
  {
  }

  lemma DueAfterRest(w: World, s: Step, id: string, hasKeys: bool)
    requires Enabled(w, s) && (s.Record? || s.Clear?)
    ensures Due(Next(w, s, hasKeys), id, hasKeys) == Due(w, id, hasKeys)
  {
    hide Answer;
    assert Holders(Next(w, s, hasKeys), id, hasKeys) == Holders(w, id, hasKeys);
  }

  /** A step adds to what is due for an id exactly when it captures that id. */
  lemma DueAfter(w: World, s: Step, id: string, hasKeys: bool)
    ensures Due(After(w, s, hasKeys), id, hasKeys) ==
            Due(w, id, hasKeys) + if Captures(w, s, hasKeys) && s.asked == id then 1 else 0
  {
    hide Due, Next, CheckSlot, Answer;
    if Enabled(w, s) {
      match s
      case Check(caller, asked) => DueAfterCheck(w, caller, asked, id, hasKeys);
      case Emit(caller) => DueAfterEmit(w, caller, id, hasKeys);
      case Record(_) => DueAfterRest(w, s, id, hasKeys);
      case Clear(_) => DueAfterRest(w, s, id, hasKeys);
    }
  }

  lemma {:induction false} DueGrows(w: World, steps: seq<Step>, id: string, hasKeys: bool)
    ensures Due(w, id, hasKeys) <= Due(RunSteps(w, steps, hasKeys), id, hasKeys)
    decreases |steps|
  {
    hide Due, Next, Enabled, Captures;
    if steps != [] {
      DueAfter(w, steps[0], id, hasKeys);
      DueGrows(After(w, steps[0], hasKeys), steps[1..], id, hasKeys);
    }
  }

  /** Callers that sent an answer are on record, and everything asked for was recorded. */
  ghost predicate Traced(w: World) {
    && Sound(w)
    && forall c :: c in w.callers && w.callers[c].Sent? ==> w.callers[c].asked in AskedIds(w.emitted)
  }

  lemma StepIsTraced(w: World, s: Step, hasKeys: bool)
    requires Traced(w)
    ensures Traced(After(w, s, hasKeys))
  {
    if Enabled(w, s) {
      StepIsSound(w, s, hasKeys);
      if s.Emit? {
        var c := w.callers[s.caller];
        AnswerKeepsAsked(c.asked, c.analysis, hasKeys);
        hide Answer, Sound;
        if Answer(c.asked, c.analysis, hasKeys).Ok? {
          assert AskedIds(Next(w, s, hasKeys).emitted) == AskedIds(w.emitted) + [c.asked];
        }
      } else {
        hide Sound;
      }
    }
  }

  lemma BusyIsDue(w: World, id: string, hasKeys: bool)
    requires Traced(w) && Busy(w, id, hasKeys)
    ensures Due(w, id, hasKeys) >= 1
  {
    hide Answer, Sound;
    var c :| c in w.callers && ActsFor(w.callers[c], id, hasKeys);
    if w.callers[c].Holding? { assert c in Holders(w, id, hasKeys); }
  }

  /** An overlap makes two answers due. */
  lemma {:induction false} OverlapIsDueTwice(w: World, steps: seq<Step>, hasKeys: bool) returns (id: string)
    requires Traced(w) && Overlapping(w, steps, hasKeys)
    ensures Due(RunSteps(w, steps, hasKeys), id, hasKeys) >= 2
    decreases |steps|
  {
    hide Due, Next, Enabled, Captures, Busy, Traced;
    if steps[0].Check? && Captures(w, steps[0], hasKeys) && Busy(w, steps[0].asked, hasKeys) {
      id := steps[0].asked;
      BusyIsDue(w, id, hasKeys);
      DueAfter(w, steps[0], id, hasKeys);
      DueGrows(After(w, steps[0], hasKeys), steps[1..], id, hasKeys);
    } else {
      StepIsTraced(w, steps[0], hasKeys);
      id := OverlapIsDueTwice(After(w, steps[0], hasKeys), steps[1..], hasKeys);
    }
  }

  /** At most one answer is due per id; and once one is due, the id is out of the slot unless its call is under way. */
  ghost predicate Exclusive(w: World, hasKeys: bool) {
    forall id :: ExclusiveFor(w, id, hasKeys)
  }

  ghost predicate ExclusiveFor(w: World, id: string, hasKeys: bool) {
    && Due(w, id, hasKeys) <= 1
    && (Due(w, id, hasKeys) == 1 && !Busy(w, id, hasKeys) ==> w.slot.None? || w.slot.value.id != id)
    && (Due(w, id, hasKeys) == 1 ==> exists a :: a in w.recorded && a.id == id)
  }

  /** How a step changes who is busy with an id. */
  lemma BusyAfter(w: World, s: Step, id: string, hasKeys: bool)
    requires Enabled(w, s)
    ensures Captures(w, s, hasKeys) && s.asked == id ==> Busy(Next(w, s, hasKeys), id, hasKeys)
    ensures Busy(w, id, hasKeys) && !Busy(Next(w, s, hasKeys), id, hasKeys) ==> s.Clear?
  {
    hide Answer;
    var after := Next(w, s, hasKeys);
    if Captures(w, s, hasKeys) && s.asked == id {
      assert ActsFor(after.callers[s.caller], id, hasKeys);
    }
    if Busy(w, id, hasKeys) && !s.Clear? {
      var c :| c in w.callers && ActsFor(w.callers[c], id, hasKeys);
      assert c in after.callers && ActsFor(after.callers[c], id, hasKeys);
    }
  }

  lemma SlotAfter(w: World, s: Step, hasKeys: bool)
    requires Enabled(w, s)
    ensures Next(w, s, hasKeys).slot ==
            match s { case Record(a) => Some(a) case Check(_, _) => w.slot case Emit(_) => w.slot case Clear(_) => None }
    ensures Next(w, s, hasKeys).recorded == w.recorded + if s.Record? then [s.analysis] else []
  {
    hide Answer, CheckSlot;
  }

  lemma CaptureIsOfSlot(w: World, s: Step, hasKeys: bool)
    requires Captures(w, s, hasKeys)
    ensures w.slot.Some? && w.slot.value.id == s.asked
  {
  }

  lemma StepStaysExclusive(w: World, s: Step, id: string, hasKeys: bool)
    requires Exclusive(w, hasKeys) && Traced(w) && Enabled(w, s)
    requires DistinctIds(Next(w, s, hasKeys).recorded)
    requires s.Check? && Captures(w, s, hasKeys) ==> !Busy(w, s.asked, hasKeys)
    ensures ExclusiveFor(Next(w, s, hasKeys), id, hasKeys)
  {
    var after := Next(w, s, hasKeys);
    SlotAfter(w, s, hasKeys);
    DueAfter(w, s, id, hasKeys);
    BusyAfter(w, s, id, hasKeys);
    assert ExclusiveFor(w, id, hasKeys);
    hide Due, Next, Answer, Exclusive, Busy;
    if Captures(w, s, hasKeys) { CaptureIsOfSlot(w, s, hasKeys); }
    hide Captures, Enabled;
    assert forall a :: a in w.recorded ==> a in after.recorded;
    if s.Record? {
      NewIdIsNew(w.recorded, s.analysis);
    }
  }

  lemma NewIdIsNew(recorded: seq<Analysis>, a: Analysis)
    requires DistinctIds(recorded + [a])
    ensures forall x :: x in recorded ==> x.id != a.id
  {
    var all := recorded + [a];
    forall x | x in recorded ensures x.id != a.id {
      var i :| 0 <= i < |recorded| && recorded[i] == x;
      assert all[i] == x && all[|recorded|] == a;
    }
  }

  lemma {:induction false} RecordedGrows(w: World, steps: seq<Step>, hasKeys: bool)
    ensures w.recorded <= RunSteps(w, steps, hasKeys).recorded
    decreases |steps|
  {
    hide Next, Enabled;
    if steps != [] {
      if Enabled(w, steps[0]) { SlotAfter(w, steps[0], hasKeys); }
      RecordedGrows(After(w, steps[0], hasKeys), steps[1..], hasKeys);
    }
  }

  lemma DistinctPrefix(a: seq<Analysis>, b: seq<Analysis>)
    requires a <= b && DistinctIds(b)
    ensures DistinctIds(a)
  {
  }

  lemma {:induction false} NoOverlapStaysExclusive(w: World, steps: seq<Step>, hasKeys: bool)
    requires Exclusive(w, hasKeys) && Traced(w) && !Overlapping(w, steps, hasKeys)
    requires DistinctIds(RunSteps(w, steps, hasKeys).recorded)
    ensures Exclusive(RunSteps(w, steps, hasKeys), hasKeys)
    decreases |steps|
  {
    hide Next, Enabled, Captures, Busy, Traced, ExclusiveFor, DistinctIds;
    if steps != [] {
      var after := After(w, steps[0], hasKeys);
      if Enabled(w, steps[0]) {
        RecordedGrows(after, steps[1..], hasKeys);
        DistinctPrefix(after.recorded, RunSteps(w, steps, hasKeys).recorded);
        forall id ensures ExclusiveFor(after, id, hasKeys) { StepStaysExclusive(w, steps[0], id, hasKeys); }
      }
      StepIsTraced(w, steps[0], hasKeys);
      NoOverlapStaysExclusive(after, steps[1..], hasKeys);
    }
  }

  lemma StartIsExclusive(hasKeys: bool)
    ensures Exclusive(START, hasKeys) && Traced(START)
  {
    assert AskedIds([]) == [];
    assert forall id :: Holders(START, id, hasKeys) == {};
  }

  lemma NoDupIsCountOne(s: seq<string>)
    ensures NoDup(s) <==> forall x :: multiset(s)[x] <= 1
  {
    if NoDup(s) {
      forall x ensures multiset(s)[x] <= 1 { CountInNoDup(s, x); }
    } else {
      var i, j :| 0 <= i < j < |s| && s[i] == s[j];
      assert s == s[..i] + [s[i]] + s[i + 1..j] + [s[j]] + s[j + 1..];
      assert multiset(s)[s[i]] >= 2;
    }
  }

  lemma {:induction false} CountInNoDup(s: seq<string>, x: string)
    requires NoDup(s)
    ensures multiset(s)[x] <= 1
  {
    if s != [] {
      var n := |s| - 1;
      CountInNoDup(s[..n], x);
      assert s == s[..n] + [s[n]];
      assert s[n] !in s[..n];
    }
  }

  /** In every run that ends with no call under way, with distinct ids: each id is answered at most once exactly when
      no call captures an answerable analysis while another call for it is between its sections. */
  lemma OnceIffNoOverlap(steps: seq<Step>, hasKeys: bool)
    requires var w := RunSteps(START, steps, hasKeys); DistinctIds(w.recorded) && w.callers == map[]
    ensures NoDup(AskedIds(RunSteps(START, steps, hasKeys).emitted)) <==> !Overlapping(START, steps, hasKeys)
  {
    var w := RunSteps(START, steps, hasKeys);
    hide RunSteps, Overlapping, DistinctIds, NoDup, Traced;
    StartIsExclusive(hasKeys);
    NoDupIsCountOne(AskedIds(w.emitted));
    assert forall id :: Holders(w, id, hasKeys) == {};
    assert forall id :: Due(w, id, hasKeys) == multiset(AskedIds(w.emitted))[id];
    if Overlapping(START, steps, hasKeys) {
      var id := OverlapIsDueTwice(START, steps, hasKeys);
    } else {
      NoOverlapStaysExclusive(START, steps, hasKeys);
      forall id ensures multiset(AskedIds(w.emitted))[id] <= 1 {
        assert ExclusiveFor(w, id, hasKeys);
      }
    }
  }

  // --- exactly when a finishing call wipes another analysis ---

  /** Some call clears the slot during the run. */
  predicate Clears(w: World, steps: seq<Step>, hasKeys: bool)
    decreases |steps|
  {
    steps != [] &&
    ((steps[0].Clear? && Enabled(w, steps[0])) || Clears(After(w, steps[0], hasKeys), steps[1..], hasKeys))
  }

  /** An analysis is recorded during the run and not cleared away again. */
  predicate Refills(w: World, steps: seq<Step>, hasKeys: bool)
    decreases |steps|
  {
    steps != [] &&
    (Refills(After(w, steps[0], hasKeys), steps[1..], hasKeys) ||
     (steps[0].Record? && !Clears(After(w, steps[0], hasKeys), steps[1..], hasKeys)))
  }

  /** The slot holds an analysis that was recorded at position `n` or later. */
  ghost predicate HoldsLater(w: World, n: nat) {
    w.slot.Some? && exists j :: n <= j < |w.recorded| && w.recorded[j] == w.slot.value
  }

  lemma {:induction false} SlotAfterRun(w: World, steps: seq<Step>, hasKeys: bool)
    ensures w.recorded <= RunSteps(w, steps, hasKeys).recorded
    ensures Refills(w, steps, hasKeys) ==> HoldsLater(RunSteps(w, steps, hasKeys), |w.recorded|)
    ensures !Refills(w, steps, hasKeys) ==>
              RunSteps(w, steps, hasKeys).slot == if Clears(w, steps, hasKeys) then None else w.slot
    decreases |steps|
  {
    hide Next, Enabled, HoldsLater;
    if steps != [] {
      var after := After(w, steps[0], hasKeys);
      var end := RunSteps(w, steps, hasKeys);
      SlotAfterRun(after, steps[1..], hasKeys);
      if Enabled(w, steps[0]) { SlotAfter(w, steps[0], hasKeys); } else { RecordIsEnabled(w, steps[0]); }
      if Refills(after, steps[1..], hasKeys) {
        HoldsEarlier(end, |after.recorded|, |w.recorded|);
      } else if Refills(w, steps, hasKeys) {
        HoldsThat(end, after, steps[0].analysis, |w.recorded|);
      }
    }
  }

  lemma HoldsEarlier(w: World, n: nat, m: nat)
    requires HoldsLater(w, n) && m <= n
    ensures HoldsLater(w, m)
  {
  }

  lemma HoldsThat(end: World, after: World, a: Analysis, n: nat)
    requires end.slot == Some(a) && after.recorded <= end.recorded && n < |after.recorded| && after.recorded[n] == a
    ensures HoldsLater(end, n)
  {
    assert end.recorded[n] == a;
  }

  lemma RecordIsEnabled(w: World, s: Step)
    ensures s.Record? ==> Enabled(w, s)
  {
  }

  /** Between a call's capture and its clearing: the clearing discards an analysis other than the captured one exactly
      when one was recorded in between and not cleared away by another call. */
  lemma WipesIff(w: World, between: seq<Step>, caller: nat, hasKeys: bool)
    requires w.slot.Some? && w.slot.value in w.recorded
    requires var end := RunSteps(w, between, hasKeys); DistinctIds(end.recorded) && Enabled(end, Clear(caller))
    ensures var end := RunSteps(w, between, hasKeys);
            Next(end, Clear(caller), hasKeys).slot == None &&
            (end.slot.Some? && end.slot != w.slot <==> Refills(w, between, hasKeys))
  {
    SlotAfterRun(w, between, hasKeys);
    hide RunSteps, Refills, Clears;
    var end := RunSteps(w, between, hasKeys);
    if Refills(w, between, hasKeys) {
      var i :| 0 <= i < |w.recorded| && w.recorded[i] == w.slot.value;
      var j :| |w.recorded| <= j < |end.recorded| && end.recorded[j] == end.slot.value;
      assert end.recorded[i] == w.slot.value;
    }
  }

  /** Recording alone is not enough: another call may have cleared the newer analysis away already. */
  lemma RecordedAndClearedIsNotWiped(w: World, newer: Analysis, other: nat, hasKeys: bool)
    requires other in w.callers && w.callers[other].Sent?
    ensures RunSteps(w, [Record(newer), Clear(other)], hasKeys).slot == None
    ensures !Refills(w, [Record(newer), Clear(other)], hasKeys)
  {
    ClearWipesNewerAnalysis(w, other, newer, hasKeys);
    SlotAfterRun(w, [Record(newer), Clear(other)], hasKeys);
  }

  // --- the two faults, by example ---

  /** Two generate calls for one id can both succeed. */
  lemma BothCallsCanSucceed(a: Analysis)
    requires a.id != "" && a.missing != []
    ensures var steps := [Record(a), Check(1, a.id), Check(2, a.id), Emit(1), Clear(1), Emit(2)];
            AskedIds(RunSteps(START, steps, true).emitted) == [a.id, a.id]
  {
    hide FirstOfKey, RequestsFor;
    var w1 := Next(START, Record(a), true);
    var w2 := Next(w1, Check(1, a.id), true);
    var w3 := Next(w2, Check(2, a.id), true);
    var w4 := Next(w3, Emit(1), true);
    var w5 := Next(w4, Clear(1), true);
    var w6 := Next(w5, Emit(2), true);
    Unroll6(Record(a), Check(1, a.id), Check(2, a.id), Emit(1), Clear(1), Emit(2), w1, w2, w3, w4, w5, w6);
  }

  lemma Unroll6(s1: Step, s2: Step, s3: Step, s4: Step, s5: Step, s6: Step,
                w1: World, w2: World, w3: World, w4: World, w5: World, w6: World)
    requires Enabled(START, s1) && w1 == Next(START, s1, true)
    requires Enabled(w1, s2) && w2 == Next(w1, s2, true)
    requires Enabled(w2, s3) && w3 == Next(w2, s3, true)
    requires Enabled(w3, s4) && w4 == Next(w3, s4, true)
    requires Enabled(w4, s5) && w5 == Next(w4, s5, true)
    requires Enabled(w5, s6) && w6 == Next(w5, s6, true)
    ensures RunSteps(START, [s1, s2, s3, s4, s5, s6], true) == w6
  {
    hide Next, Enabled;
    assert [s1, s2, s3, s4, s5, s6][1..] == [s2, s3, s4, s5, s6];
    assert [s2, s3, s4, s5, s6][1..] == [s3, s4, s5, s6];
    assert [s3, s4, s5, s6][1..] == [s4, s5, s6];
    assert [s4, s5, s6][1..] == [s5, s6];
    assert [s5, s6][1..] == [s6];
    assert [s6][1..] == [];
    assert RunSteps(w5, [s6], true) == RunSteps(w6, [], true);
    assert RunSteps(w4, [s5, s6], true) == RunSteps(w5, [s6], true);
    assert RunSteps(w3, [s4, s5, s6], true) == RunSteps(w4, [s5, s6], true);
    assert RunSteps(w2, [s3, s4, s5, s6], true) == RunSteps(w3, [s4, s5, s6], true);
    assert RunSteps(w1, [s2, s3, s4, s5, s6], true) == RunSteps(w2, [s3, s4, s5, s6], true);
  }

  /** Clearing is unconditional: a call that has sent its answer wipes whatever analysis is newer. */
  lemma ClearWipesNewerAnalysis(w: World, caller: nat, newer: Analysis, hasKeys: bool)
    requires caller in w.callers && w.callers[caller].Sent?
    ensures var after := RunSteps(w, [Record(newer), Clear(caller)], hasKeys);
            newer in after.recorded && after.slot == None && after.emitted == w.emitted
  {
    var w1 := Next(w, Record(newer), hasKeys);
    assert w1.recorded[|w.recorded|] == newer;
    assert [Record(newer), Clear(caller)][1..] == [Clear(caller)] && [Clear(caller)][1..] == [];
    assert RunSteps(w, [Record(newer), Clear(caller)], hasKeys) == RunSteps(w1, [Clear(caller)], hasKeys);
    assert RunSteps(w1, [Clear(caller)], hasKeys) == RunSteps(Next(w1, Clear(caller), hasKeys), [], hasKeys);
  }

  // --- the handlers ---

  class Server {
    const hasKeys: bool
    var lastAnalysis: Option<Analysis>
    ghost var world: World

    /** No call is under way, and the slot is that of the history so far. */
    ghost predicate Valid()
      reads this
    {
      world.callers == map[] && world.slot == lastAnalysis
    }

    constructor (hasKeys: bool)
      ensures Valid() && this.hasKeys == hasKeys && world == START
    {
      this.hasKeys, lastAnalysis, world := hasKeys, None, START;
    }

    /** The slot write at the end of an analysis. A new id keeps the promise that ids are consumed once. */
    method FinishAnalyze(a: Analysis)
      requires Valid()
      modifies this
      ensures Valid() && world == Whole(old(world), Analyze(a), hasKeys)
      ensures ConsumedOnce(old(world)) && DistinctIds(world.recorded) ==> ConsumedOnce(world)
    {
      if ConsumedOnce(world) && DistinctIds(world.recorded + [a]) {
        WholeConsumesOnce(world, Analyze(a), hasKeys);
      }
      lastAnalysis := Some(a);
      world := Whole(world, Analyze(a), hasKeys);
    }

    /** The generate handler, run without interruption: what its three sections do together. */
    method GenerateManifest(caller: nat, asked: string) returns (r: Result<Emission, Refusal>)
      requires Valid()
      modifies this
      ensures Valid() && world == Whole(old(world), Generate(caller, asked), hasKeys)
      ensures ConsumedOnce(old(world)) && DistinctIds(world.recorded) ==> ConsumedOnce(world)
      ensures var checked := CheckSlot(old(lastAnalysis), asked);
              r == (if checked.Err? then Err(checked.error) else Answer(asked, checked.value, hasKeys))
      ensures lastAnalysis == if r.Ok? then None else old(lastAnalysis)
      ensures world.emitted == if r.Ok? then old(world).emitted + [r.value] else old(world).emitted
    {
      ghost var after := Whole(world, Generate(caller, asked), hasKeys);
      if ConsumedOnce(world) && DistinctIds(after.recorded) {
        WholeConsumesOnce(world, Generate(caller, asked), hasKeys);
      }
      world := after;
      var checked := CheckSlot(lastAnalysis, asked);
      if checked.Err? {
        return Err(checked.error);
      }
      var analysis := checked.value;
      var images := CollectImages(analysis.images);
      if analysis.missing == [] && images == [] {
        return Err(NoMissing);
      }
      if !hasKeys {
        return Err(NoCryptoKeys);
      }
      lastAnalysis := None;
      return Ok(Emission(asked, images, analysis.missing));
    }
  }
}
