/**
  How often a phase is run, what its attempts leave in the test record, and what the failure
  checkpoints behind it make of that record.
 */

/** test_state.py: from the end of one attempt to the outcome in its phase record. */
module PhaseRecords {
  import opened Prelude

  datatype PhaseResult = Continue | FailAndContinue | Repeat | Skip | Stop | FailSubtest

  /** PhaseExecutionOutcome: a result, a timeout (phase_result None), an exception, or a kill. */
  datatype ExecutionOutcome = Result(result: PhaseResult) | TimedOut | Raised | Aborted
  {
    predicate IsTerminal() {
      Raised? || Aborted? || TimedOut? || this == Result(Stop)
    }
  }

  datatype PhaseOutcome = PASS | FAIL | SKIP | ERROR

  datatype PhaseRecord = PhaseRecord(outcome: PhaseOutcome, subtest: Option<string>)

  /** repeat_limit is None, or any integer. */
  datatype PhaseOptions = PhaseOptions(
    hasRunIf: bool, forceRepeat: bool, repeatOnMeasurementFail: bool, repeatOnTimeout: bool,
    repeatLimit: Option<int>, stopOnMeasurementFail: bool)

  datatype RunIfAnswer = Runs | Declines | Faults

  /** What the phase thread came to. */
  datatype ThreadEnd = Returns(returned: Option<PhaseResult>) | ReturnsJunk | Raises | TimesOut | IsKilled

  datatype DiagnoserRun = DiagnoserRun(raises: bool, failureFound: bool)

  /** Everything the environment decides about one attempt. */
  datatype Attempt = Attempt(
    cancelledBefore: bool,     // _stopping as the retry loop reads it
    runIf: RunIfAnswer,
    cancelledInSection: bool,  // _stopping as the lock section reads it
    end: ThreadEnd,
    validationRaises: bool,    // a partially set measurement's validator, at the end of the phase
    measurementsPass: bool,
    diagnosers: seq<DiagnoserRun>)

  /** _thread_proc and join_or_die. */
  function JoinOutcome(end: ThreadEnd, subtest: Option<string>): ExecutionOutcome {
    match end
    case Returns(None) => Result(Continue)
    case Returns(Some(FailSubtest)) => if subtest == None then Raised else Result(FailSubtest)
    case Returns(Some(r)) => Result(r)
    case ReturnsJunk => Raised
    case Raises => Raised
    case TimesOut => TimedOut
    case IsKilled => Aborted
  }

  /** _set_prediagnosis_phase_outcome: the outcome, and the result it may replace. */
  function Prediagnosis(result: ExecutionOutcome, hitLimit: bool, a: Attempt, o: PhaseOptions)
    : (PhaseOutcome, ExecutionOutcome)
  {
    if result.IsTerminal() || hitLimit then (ERROR, result)
    else if result == Result(Repeat) || result == Result(Skip) then (SKIP, result)
    else if result == Result(FailSubtest) || result == Result(FailAndContinue) then (FAIL, result)
    else if !a.measurementsPass then (FAIL, if o.stopOnMeasurementFail then Result(Stop) else result)
    else (PASS, result)
  }

  function RunDiagnosers(result: ExecutionOutcome, ds: seq<DiagnoserRun>): ExecutionOutcome
    decreases |ds|
  {
    if ds == [] then result
    else RunDiagnosers(if ds[0].raises && !result.IsTerminal() then Raised else result, ds[1..])
  }

  /** PhaseState.finalize: the recorded outcome and the refreshed result. */
  function Finalize(joined: ExecutionOutcome, hitLimit: bool, a: Attempt, o: PhaseOptions)
    : (PhaseOutcome, ExecutionOutcome)
  {
    var result := if a.validationRaises && !joined.IsTerminal() then Raised else joined;
    var (pre, result1) := Prediagnosis(result, hitLimit, a, o);
    var diagnosed := !result1.Aborted? && result1 != Result(Repeat) && result1 != Result(Skip);
    var result2 := if diagnosed then RunDiagnosers(result1, a.diagnosers) else result1;
    var failureFound := diagnosed && exists d <- a.diagnosers :: d.failureFound;
    var post := if pre == ERROR then ERROR
                else if result2.IsTerminal() then ERROR
                else if pre == PASS && failureFound then FAIL
                else pre;
    (post, result2)
  }

  /** Diagnosers never turn a result into REPEAT. */
  lemma {:induction false} DiagnosersNeverRepeat(result: ExecutionOutcome, ds: seq<DiagnoserRun>)
    ensures RunDiagnosers(result, ds) == Result(Repeat) ==> result == Result(Repeat)
    decreases |ds|
  {
    if ds != [] {
      DiagnosersNeverRepeat(if ds[0].raises && !result.IsTerminal() then Raised else result, ds[1..]);
    }
  }
}

/** phase_executor.py: the retry loop. */
module PhaseExecution {
  import opened Prelude
  import opened PhaseRecords

  const DEFAULT_REPEAT_LIMIT := 3

  datatype ExecutionError = NoPhaseRecords  // the IndexError of phases[-1] on an empty list

  /** The limit in force: zero counts as not given, a negative limit does not. */
  function EffectiveLimit(o: PhaseOptions): int {
    if o.repeatLimit == None || o.repeatLimit.value == 0 then DEFAULT_REPEAT_LIMIT else o.repeatLimit.value
  }

  /** The record an attempt appends, if it gets that far, and the outcome it returns. */
  function Once(o: PhaseOptions, isLast: bool, a: Attempt, subtest: Option<string>)
    : (Option<PhaseRecord>, ExecutionOutcome)
  {
    if o.hasRunIf && a.runIf.Faults? then (None, Raised)
    else if o.hasRunIf && a.runIf.Declines? then (None, Result(Skip))
    else if a.cancelledInSection then
      (Some(PhaseRecord(Finalize(Aborted, false, a, o).0, subtest)), Aborted)
    else
      var joined := JoinOutcome(a.end, subtest);
      var hitLimit := joined == Result(Repeat) && isLast;
      var (outcome, result) := Finalize(joined, hitLimit, a, o);
      (Some(PhaseRecord(outcome, subtest)), if hitLimit then Result(Stop) else result)
  }

  function AppendRecord(phases: seq<PhaseRecord>, r: Option<PhaseRecord>): seq<PhaseRecord> {
    if r.Some? then phases + [r.value] else phases
  }

  /** _should_repeat: the answer and the records after it, or the IndexError. */
  function Repeats(o: PhaseOptions, outcome: ExecutionOutcome, isLast: bool, phases: seq<PhaseRecord>)
    : Prelude.Result<(bool, seq<PhaseRecord>), ExecutionError>
  {
    if outcome == TimedOut && o.repeatOnTimeout then Ok((true, phases))
    else if outcome == Result(Repeat) then Ok((true, phases))
    else if o.forceRepeat then Ok((true, phases))
    else if !o.repeatOnMeasurementFail then Ok((false, phases))
    else if phases == [] then Err(NoPhaseRecords)
    else
      var last := |phases| - 1;
      if phases[last].outcome != FAIL then Ok((false, phases))
      else Ok((true, if isLast then phases else phases[last := phases[last].(outcome := SKIP)]))
  }

  /** `attempts` counts the attempts begun, whether or not they leave a record. */
  datatype Execution = Execution(
    phases: seq<PhaseRecord>, returned: Prelude.Result<ExecutionOutcome, ExecutionError>, attempts: nat)

  /** execute_phase from its k-th attempt on, `script(k)` being what the environment decides about it. */
  function Execute(
      o: PhaseOptions, script: nat -> Attempt, k: nat, phases: seq<PhaseRecord>, subtest: Option<string>): Execution
    requires k >= 1
    decreases EffectiveLimit(o) - k
  {
    if script(k).cancelledBefore then Execution(phases, Ok(TimedOut), k - 1)
    else
      var isLast := k >= EffectiveLimit(o);
      var (record, outcome) := Once(o, isLast, script(k), subtest);
      match Repeats(o, outcome, isLast, AppendRecord(phases, record))
      case Err(e) => Execution(AppendRecord(phases, record), Err(e), k)
      case Ok((repeat, phases')) =>
        if repeat && !isLast then Execute(o, script, k + 1, phases', subtest)
        else Execution(phases', Ok(outcome), k)
  }

  class PhaseExecutor {
    /** The test record's phases. */
    var phases: seq<PhaseRecord>

    constructor ()
      ensures phases == []
    {
      phases := [];
    }

    method ExecutePhaseOnce(o: PhaseOptions, isLast: bool, a: Attempt, subtest: Option<string>)
      returns (outcome: ExecutionOutcome)
      modifies this
      ensures var (record, result) := Once(o, isLast, a, subtest);
              phases == AppendRecord(old(phases), record) && outcome == result
    {
      if o.hasRunIf {
        if a.runIf.Faults? { return Raised; }
        if a.runIf.Declines? { return Result(Skip); }
      }
      if a.cancelledInSection {
        outcome := Aborted;
        phases := phases + [PhaseRecord(Finalize(outcome, false, a, o).0, subtest)];
        return;
      }
      var hitLimit := false;
      outcome := JoinOutcome(a.end, subtest);
      if outcome == Result(Repeat) && isLast {
        hitLimit := true;
      }
      var (recorded, refreshed) := Finalize(outcome, hitLimit, a, o);
      phases := phases + [PhaseRecord(recorded, subtest)];
      outcome := if hitLimit then Result(Stop) else refreshed;
    }

    method ShouldRepeat(o: PhaseOptions, outcome: ExecutionOutcome, isLast: bool)
      returns (r: Prelude.Result<bool, ExecutionError>)
      modifies this
      ensures match Repeats(o, outcome, isLast, old(phases))
              case Err(e) => r == Err(e) && phases == old(phases)
              case Ok((repeat, after)) => r == Ok(repeat) && phases == after
    {
      if outcome == TimedOut && o.repeatOnTimeout { return Ok(true); }
      if outcome == Result(Repeat) { return Ok(true); }
      if o.forceRepeat { return Ok(true); }
      if !o.repeatOnMeasurementFail { return Ok(false); }
      if phases == [] { return Err(NoPhaseRecords); }
      var last := |phases| - 1;
      var failed := phases[last].outcome == FAIL;
      if failed && !isLast {
        phases := phases[last := phases[last].(outcome := SKIP)];
      }
      return Ok(failed);
    }

    method ExecutePhase(o: PhaseOptions, script: nat -> Attempt, subtest: Option<string>)
      returns (r: Prelude.Result<ExecutionOutcome, ExecutionError>)
      modifies this
      ensures phases == Execute(o, script, 1, old(phases), subtest).phases
      ensures r == Execute(o, script, 1, old(phases), subtest).returned
    {
      var repeatCount: nat := 1;
      var repeatLimit := EffectiveLimit(o);
      while !script(repeatCount).cancelledBefore
        invariant repeatCount >= 1
        invariant Execute(o, script, repeatCount, phases, subtest) == Execute(o, script, 1, old(phases), subtest)
        decreases repeatLimit - repeatCount
      {
        var isLast := repeatCount >= repeatLimit;
        var outcome := ExecutePhaseOnce(o, isLast, script(repeatCount), subtest);
        var repeat := ShouldRepeat(o, outcome, isLast);
        if repeat.Err? { return Err(repeat.error); }
        if repeat.value && !isLast {
          repeatCount := repeatCount + 1;
          continue;
        }
        return Ok(outcome);
      }
      return Ok(TimedOut);
    }
  }

  // ---------------------------------------------------------------- what one attempt comes to

  /** run_if lets the phase begin. */
  predicate Begins(o: PhaseOptions, a: Attempt) {
    !o.hasRunIf || a.runIf.Runs?
  }

  /** The phase returned None or CONTINUE, and so leaves the verdict to measurements and diagnosers. */
  predicate Plain(a: Attempt) {
    a.end == Returns(None) || a.end == Returns(Some(Continue))
  }

  predicate DiagnoserRaises(a: Attempt) {
    exists d <- a.diagnosers :: d.raises
  }

  predicate DiagnoserFails(a: Attempt) {
    exists d <- a.diagnosers :: d.failureFound
  }

  /** The phase asked to fail: by FAIL_AND_CONTINUE, or by FAIL_SUBTEST inside of a subtest. */
  predicate AsksToFail(a: Attempt, subtest: Option<string>) {
    a.end == Returns(Some(FailAndContinue)) || (a.end == Returns(Some(FailSubtest)) && subtest.Some?)
  }

  /** The phase raised, or returned what is refused and so raises. */
  predicate EndsRaising(a: Attempt, subtest: Option<string>) {
    a.end.Raises? || a.end.ReturnsJunk? || (a.end == Returns(Some(FailSubtest)) && subtest == None)
  }

  /** The phase ran and neither a validator nor a diagnoser raised afterwards. */
  predicate Undisturbed(a: Attempt) {
    !a.cancelledInSection && !a.validationRaises && !DiagnoserRaises(a)
  }

  /** The attempt is to be recorded FAIL. */
  predicate Fails(o: PhaseOptions, a: Attempt, subtest: Option<string>) {
    && Undisturbed(a)
    && (|| AsksToFail(a, subtest)
        || (Plain(a) && !a.measurementsPass && !o.stopOnMeasurementFail)
        || (Plain(a) && a.measurementsPass && DiagnoserFails(a)))
  }

  /** The phase goes on to be diagnosed, and one of its diagnosers raises. */
  predicate RaisesInDiagnosis(a: Attempt, subtest: Option<string>) {
    DiagnoserRaises(a) && (Plain(a) || AsksToFail(a, subtest))
  }

  lemma {:induction false} DiagnosersRaiseIff(result: ExecutionOutcome, ds: seq<DiagnoserRun>)
    ensures RunDiagnosers(result, ds) == if !result.IsTerminal() && exists d <- ds :: d.raises then Raised else result
    decreases |ds|
  {
    if ds != [] {
      DiagnosersRaiseIff(if ds[0].raises && !result.IsTerminal() then Raised else result, ds[1..]);
      assert ds == [ds[0]] + ds[1..];
      assert (exists d <- ds :: d.raises) <==> ds[0].raises || exists d <- ds[1..] :: d.raises;
    }
  }

  /** The record of an attempt: there is one exactly if the phase begins, and its outcome is told by what happened. */
  lemma RecordedIff(o: PhaseOptions, isLast: bool, a: Attempt, subtest: Option<string>)
    ensures var record := Once(o, isLast, a, subtest).0;
            && (record.Some? <==> Begins(o, a))
            && (record.Some? ==>
                  && record.value.subtest == subtest
                  && (record.value.outcome == PASS <==>
                        Undisturbed(a) && Plain(a) && a.measurementsPass && !DiagnoserFails(a))
                  && (record.value.outcome == FAIL <==> Fails(o, a, subtest))
                  && (record.value.outcome == SKIP <==>
                        && !a.cancelledInSection && !a.validationRaises
                        && (a.end == Returns(Some(Skip)) || (a.end == Returns(Some(Repeat)) && !isLast)))
                  && (record.value.outcome == ERROR <==>
                        || a.cancelledInSection || a.validationRaises
                        || a.end.TimesOut? || a.end.IsKilled? || EndsRaising(a, subtest)
                        || a.end == Returns(Some(Stop)) || (a.end == Returns(Some(Repeat)) && isLast)
                        || (Plain(a) && !a.measurementsPass && o.stopOnMeasurementFail)
                        || RaisesInDiagnosis(a, subtest)))
  {
    var joined := JoinOutcome(a.end, subtest);
    DiagnosersRaiseIff(joined, a.diagnosers);
    DiagnosersRaiseIff(Result(Stop), a.diagnosers);
    DiagnosersRaiseIff(Raised, a.diagnosers);
  }

  /** The outcome that an attempt returns, told by what happened. */
  lemma ReturnedIff(o: PhaseOptions, isLast: bool, a: Attempt, subtest: Option<string>)
    ensures var outcome := Once(o, isLast, a, subtest).1;
            var stops := Plain(a) && !a.measurementsPass && o.stopOnMeasurementFail;
            var runs := Begins(o, a) && !a.cancelledInSection;
            var goesOn := Plain(a) || AsksToFail(a, subtest)
                          || a.end == Returns(Some(Skip)) || (a.end == Returns(Some(Repeat)) && !isLast);
            && (outcome == TimedOut <==> runs && a.end.TimesOut?)
            && (outcome == Aborted <==> Begins(o, a) && (a.cancelledInSection || a.end.IsKilled?))
            && (outcome == Raised <==>
                  || (o.hasRunIf && a.runIf.Faults?)
                  || (runs && EndsRaising(a, subtest))
                  || (runs && a.validationRaises && goesOn)
                  || (runs && RaisesInDiagnosis(a, subtest) && !stops))
            && (outcome == Result(Stop) <==>
                  && runs
                  && (|| a.end == Returns(Some(Stop)) || (a.end == Returns(Some(Repeat)) && isLast)
                      || (stops && !a.validationRaises)))
            && (outcome == Result(Repeat) <==>
                  runs && a.end == Returns(Some(Repeat)) && !isLast && !a.validationRaises)
            && (outcome == Result(Skip) <==>
                  (o.hasRunIf && a.runIf.Declines?) || (runs && a.end == Returns(Some(Skip)) && !a.validationRaises))
            && (outcome == Result(FailSubtest) <==>
                  runs && Undisturbed(a) && a.end == Returns(Some(FailSubtest)) && subtest.Some?)
            && (outcome == Result(FailAndContinue) <==>
                  runs && Undisturbed(a) && a.end == Returns(Some(FailAndContinue)))
            && (outcome == Result(Continue) <==> runs && Undisturbed(a) && Plain(a) && !stops)
  {
    var joined := JoinOutcome(a.end, subtest);
    DiagnosersRaiseIff(joined, a.diagnosers);
    DiagnosersRaiseIff(Result(Stop), a.diagnosers);
    DiagnosersRaiseIff(Raised, a.diagnosers);
  }

  // ---------------------------------------------------------------- how many attempts

  /** An attempt in which the phase begins is one to repeat. */
  predicate WantsRepeat(o: PhaseOptions, a: Attempt, subtest: Option<string>) {
    || o.forceRepeat
    || (o.repeatOnTimeout && !a.cancelledInSection && a.end.TimesOut?)
    || (!a.cancelledInSection && a.end == Returns(Some(Repeat)) && !a.validationRaises)
    || (o.repeatOnMeasurementFail && Fails(o, a, subtest))
  }

  /** Attempt k is one to repeat, and not the limit-th. */
  predicate LeavesRepeat(o: PhaseOptions, script: nat -> Attempt, k: nat, subtest: Option<string>) {
    WantsRepeat(o, script(k), subtest) && k < EffectiveLimit(o)
  }

  predicate IsRepeated(o: PhaseOptions, script: nat -> Attempt, k: nat, subtest: Option<string>) {
    LeavesRepeat(o, script, k, subtest) && !script(k + 1).cancelledBefore
  }

  /**
    Where run_if does not interfere: every attempt before the last one was to be repeated and was
    not the limit-th, and the last one was not, or was the limit-th, or a stop() came.
   */
  lemma {:induction false} RepeatedIff(
      o: PhaseOptions, script: nat -> Attempt, k: nat, phases: seq<PhaseRecord>, subtest: Option<string>)
    requires k >= 1 && (forall j :: Begins(o, script(j))) && !script(k).cancelledBefore
    ensures var e := Execute(o, script, k, phases, subtest);
            && e.attempts >= k
            && (forall j :: k <= j < e.attempts ==> IsRepeated(o, script, j, subtest))
            && (if LeavesRepeat(o, script, e.attempts, subtest)
                then script(e.attempts + 1).cancelledBefore && e.returned == Ok(TimedOut)
                else e.returned == Ok(Once(o, e.attempts >= EffectiveLimit(o), script(e.attempts), subtest).1))
    decreases EffectiveLimit(o) - k
  {
    var isLast := k >= EffectiveLimit(o);
    var (record, outcome) := Once(o, isLast, script(k), subtest);
    RecordedIff(o, isLast, script(k), subtest);
    ReturnedIff(o, isLast, script(k), subtest);
    var rep := Repeats(o, outcome, isLast, AppendRecord(phases, record));
    if rep.value.0 && !isLast && !script(k + 1).cancelledBefore {
      assert IsRepeated(o, script, k, subtest);
      RepeatedIff(o, script, k + 1, rep.value.1, subtest);
    }
  }

  // ---------------------------------------------------------------- termination and REPEAT

  /** At most max(1, limit) attempts are made, whatever they return and whenever stop() lands. */
  lemma {:induction false} AttemptsAreBounded(
      o: PhaseOptions, script: nat -> Attempt, k: nat, phases: seq<PhaseRecord>, subtest: Option<string>)
    requires 1 <= k && (k == 1 || k <= EffectiveLimit(o))
    ensures var n := Execute(o, script, k, phases, subtest).attempts; n <= 1 || n <= EffectiveLimit(o)
    decreases EffectiveLimit(o) - k
  {
    var isLast := k >= EffectiveLimit(o);
    if !script(k).cancelledBefore && !isLast {
      var (record, outcome) := Once(o, isLast, script(k), subtest);
      var rep := Repeats(o, outcome, isLast, AppendRecord(phases, record));
      if rep.Ok? && rep.value.0 {
        AttemptsAreBounded(o, script, k + 1, rep.value.1, subtest);
      }
    }
  }

  /** execute_phase never returns REPEAT: hitting the limit turns it into STOP. */
  lemma {:induction false} NeverReturnsRepeat(
      o: PhaseOptions, script: nat -> Attempt, k: nat, phases: seq<PhaseRecord>, subtest: Option<string>)
    requires k >= 1
    ensures Execute(o, script, k, phases, subtest).returned != Ok(Result(Repeat))
    decreases EffectiveLimit(o) - k
  {
    var isLast := k >= EffectiveLimit(o);
    if !script(k).cancelledBefore {
      var (record, outcome) := Once(o, isLast, script(k), subtest);
      var rep := Repeats(o, outcome, isLast, AppendRecord(phases, record));
      if rep.Ok? && rep.value.0 && !isLast {
        NeverReturnsRepeat(o, script, k + 1, rep.value.1, subtest);
      } else if outcome == Result(Repeat) {
        var joined := JoinOutcome(script(k).end, subtest);
        var result := if script(k).validationRaises && !joined.IsTerminal() then Raised else joined;
        DiagnosersNeverRepeat(Prediagnosis(result, false, script(k), o).1, script(k).diagnosers);
      }
    }
  }

  /** A phase with force_repeat is run three times if no limit, or 0, is given, and once for a negative limit. */
  lemma ForcedRepeatsReachLimit(
      o: PhaseOptions, script: nat -> Attempt, phases: seq<PhaseRecord>, subtest: Option<string>)
    requires o.forceRepeat && (forall j :: Begins(o, script(j))) && (forall j :: !script(j).cancelledBefore)
    ensures Execute(o, script, 1, phases, subtest).attempts ==
            match o.repeatLimit
            case None => 3
            case Some(limit) => if limit == 0 then 3 else if limit < 0 then 1 else limit
  {
    RepeatedIff(o, script, 1, phases, subtest);
    AttemptsAreBounded(o, script, 1, phases, subtest);
  }

  // ---------------------------------------------------------------- the records of other phases

  /** The first attempt leaves no record of its own, and yet the last record decides about a repeat. */
  predicate FirstAttemptConsultsForeignRecord(o: PhaseOptions, script: nat -> Attempt) {
    && !script(1).cancelledBefore && o.hasRunIf && !script(1).runIf.Runs?
    && !o.forceRepeat && o.repeatOnMeasurementFail
  }

  /** From attempt k on, the first n records are safe. */
  predicate Shielded(o: PhaseOptions, phases: seq<PhaseRecord>, n: nat) {
    || |phases| > n
    || (n > 0 && |phases| == n && phases[n - 1].outcome != FAIL)
    || !o.repeatOnMeasurementFail || o.forceRepeat
  }

  lemma {:induction false} ShieldedRecordsStay(
      o: PhaseOptions, script: nat -> Attempt, k: nat, phases: seq<PhaseRecord>, subtest: Option<string>, n: nat)
    requires k >= 1 && n <= |phases| && Shielded(o, phases, n)
    ensures var e := Execute(o, script, k, phases, subtest);
            n <= |e.phases| && e.phases[..n] == phases[..n] && e.returned.Ok?
    decreases EffectiveLimit(o) - k
  {
    var isLast := k >= EffectiveLimit(o);
    if !script(k).cancelledBefore {
      var (record, outcome) := Once(o, isLast, script(k), subtest);
      var rep := Repeats(o, outcome, isLast, AppendRecord(phases, record));
      if rep.Ok? && rep.value.0 && !isLast {
        ShieldedRecordsStay(o, script, k + 1, rep.value.1, subtest, n);
      }
    }
  }

  lemma RecordingFirstAttemptShields(
      o: PhaseOptions, script: nat -> Attempt, phases: seq<PhaseRecord>, subtest: Option<string>)
    requires !script(1).cancelledBefore && (!o.hasRunIf || script(1).runIf.Runs?)
    ensures var e := Execute(o, script, 1, phases, subtest);
            |phases| <= |e.phases| && e.phases[..|phases|] == phases && e.returned.Ok?
  {
    var isLast := 1 >= EffectiveLimit(o);
    var (record, outcome) := Once(o, isLast, script(1), subtest);
    var rep := Repeats(o, outcome, isLast, AppendRecord(phases, record));
    var after := rep.value.1;
    assert |after| == |phases| + 1 && after[..|phases|] == phases;
    if rep.value.0 && !isLast {
      ShieldedRecordsStay(o, script, 2, after, subtest, |phases|);
    }
  }

  lemma ForeignFailureIsErased(
      o: PhaseOptions, script: nat -> Attempt, phases: seq<PhaseRecord>, subtest: Option<string>)
    requires FirstAttemptConsultsForeignRecord(o, script) && EffectiveLimit(o) > 1
    requires phases != [] && phases[|phases| - 1].outcome == FAIL
    ensures var n := |phases|;
            Execute(o, script, 1, phases, subtest) ==
            Execute(o, script, 2, phases[n - 1 := phases[n - 1].(outcome := SKIP)], subtest)
  {
  }

  lemma ForeignRecordDecides(o: PhaseOptions, script: nat -> Attempt, phases: seq<PhaseRecord>, subtest: Option<string>)
    requires FirstAttemptConsultsForeignRecord(o, script)
    ensures var e := Execute(o, script, 1, phases, subtest);
            && |phases| <= |e.phases|
            && (e.phases[..|phases|] == phases <==>
                  !(EffectiveLimit(o) > 1 && phases != [] && phases[|phases| - 1].outcome == FAIL))
            && (e.returned.Err? <==> phases == [])
  {
    var n := |phases|;
    if n > 0 && phases[n - 1].outcome == FAIL && EffectiveLimit(o) > 1 {
      var after := phases[n - 1 := phases[n - 1].(outcome := SKIP)];
      ForeignFailureIsErased(o, script, phases, subtest);
      ShieldedRecordsStay(o, script, 2, after, subtest, n);
      assert after[..n] == after && after[n - 1] != phases[n - 1];
    } else {
      assert Execute(o, script, 1, phases, subtest).phases == phases;
    }
  }

  /**
    Records of other phases survive execute_phase, and it raises no IndexError, unless run_if
    keeps the first attempt from running although repeat_on_measurement_fail is set. In that
    case the last record, whichever phase it belongs to, is rewritten exactly when it is a FAIL
    and a repeat is left, and the IndexError comes exactly when there is no record at all.
   */
  lemma EarlierRecordsUntouchedIff(
      o: PhaseOptions, script: nat -> Attempt, phases: seq<PhaseRecord>, subtest: Option<string>)
    ensures var e := Execute(o, script, 1, phases, subtest);
            var foreign := FirstAttemptConsultsForeignRecord(o, script);
            && |phases| <= |e.phases|
            && (e.phases[..|phases|] == phases <==>
                  !(foreign && EffectiveLimit(o) > 1 && phases != [] && phases[|phases| - 1].outcome == FAIL))
            && (e.returned.Err? <==> foreign && phases == [])
  {
    if FirstAttemptConsultsForeignRecord(o, script) {
      ForeignRecordDecides(o, script, phases, subtest);
    } else if script(1).cancelledBefore {
      assert phases[..|phases|] == phases;
    } else if !o.hasRunIf || script(1).runIf.Runs? {
      RecordingFirstAttemptShields(o, script, phases, subtest);
    } else {
      ShieldedRecordsStay(o, script, 1, phases, subtest, |phases|);
      assert phases[..|phases|] == phases;
    }
  }

  /** A concrete loss: a phase that run_if skips turns another phase's FAIL into SKIP. */
  lemma SkippedPhaseCanEraseAFailure(a: Attempt) returns (o: PhaseOptions)
    ensures var script := k => a.(cancelledBefore := false, runIf := Declines);
            var e := Execute(o, script, 1, [PhaseRecord(FAIL, None)], None);
            e.phases == [PhaseRecord(SKIP, None)]
  {
    o := PhaseOptions(true, false, true, false, None, false);
    var script := k => a.(cancelledBefore := false, runIf := Declines);
    EarlierRecordsUntouchedIff(o, script, [PhaseRecord(FAIL, None)], None);
    assert Execute(o, script, 2, [PhaseRecord(SKIP, None)], None).phases == [PhaseRecord(SKIP, None)];
  }

  // ---------------------------------------------------------------- repeat_on_measurement_fail

  /** An attempt repeated because of REPEAT or a timeout is never recorded as FAIL. */
  lemma RepeatAndTimeoutAreNotFail(o: PhaseOptions, isLast: bool, a: Attempt, subtest: Option<string>)
    requires var outcome := Once(o, isLast, a, subtest).1; outcome == Result(Repeat) || outcome == TimedOut
    ensures var record := Once(o, isLast, a, subtest).0; record.Some? ==> record.value.outcome != FAIL
  {
    if !o.hasRunIf || a.runIf.Runs? {
      if !a.cancelledInSection {
        var joined := JoinOutcome(a.end, subtest);
        var hitLimit := joined == Result(Repeat) && isLast;
        var result := if a.validationRaises && !joined.IsTerminal() then Raised else joined;
        var (pre, result1) := Prediagnosis(result, hitLimit, a, o);
        DiagnosersNeverRepeat(result1, a.diagnosers);
        DiagnosersNeverTimeOut(result1, a.diagnosers);
      }
    }
  }

  lemma {:induction false} DiagnosersNeverTimeOut(result: ExecutionOutcome, ds: seq<DiagnoserRun>)
    ensures RunDiagnosers(result, ds) == TimedOut ==> result == TimedOut
    decreases |ds|
  {
    if ds != [] {
      DiagnosersNeverTimeOut(if ds[0].raises && !result.IsTerminal() then Raised else result, ds[1..]);
    }
  }

  /** The outcome that attempt k, which run_if does not keep from running, is recorded with as it ends. */
  function RecordedOutcome(o: PhaseOptions, script: nat -> Attempt, k: nat, subtest: Option<string>): PhaseOutcome
    requires !o.hasRunIf
  {
    Once(o, k >= EffectiveLimit(o), script(k), subtest).0.value.outcome
  }

  /** What the record of attempt k says in the end: before the limit a FAIL is rewritten for the next attempt. */
  function KeptOutcome(o: PhaseOptions, script: nat -> Attempt, k: nat, subtest: Option<string>): PhaseOutcome
    requires !o.hasRunIf
  {
    var recorded := RecordedOutcome(o, script, k, subtest);
    if recorded == FAIL && k < EffectiveLimit(o) then SKIP else recorded
  }

  /** One attempt without run_if: its record is rewritten as KeptOutcome says, and the next attempt may follow. */
  lemma AttemptWithoutRunIf(
      o: PhaseOptions, script: nat -> Attempt, k: nat, phases: seq<PhaseRecord>, subtest: Option<string>)
      returns (again: bool, r: PhaseRecord)
    requires k >= 1 && !script(k).cancelledBefore
    requires !o.hasRunIf && !o.forceRepeat && o.repeatOnMeasurementFail
    ensures r == PhaseRecord(KeptOutcome(o, script, k, subtest), subtest)
    ensures RecordedOutcome(o, script, k, subtest) == FAIL && k < EffectiveLimit(o) ==> again
    ensures again ==>
              k < EffectiveLimit(o) &&
              Execute(o, script, k, phases, subtest) == Execute(o, script, k + 1, phases + [r], subtest)
    ensures !again ==>
              var e := Execute(o, script, k, phases, subtest);
              e.phases == phases + [r] && e.returned.Ok? && e.attempts == k
  {
    var isLast := k >= EffectiveLimit(o);
    var (record, outcome) := Once(o, isLast, script(k), subtest);
    var rep := Repeats(o, outcome, isLast, AppendRecord(phases, record));
    again := rep.value.0 && !isLast;
    r := rep.value.1[|phases|];
    assert rep.value.1 == phases + [r];
    if outcome == TimedOut || outcome == Result(Repeat) {
      RepeatAndTimeoutAreNotFail(o, isLast, script(k), subtest);
    }
  }

  /** The records of attempts k, ..., n, as they are in the end. */
  function KeptRecords(
      o: PhaseOptions, script: nat -> Attempt, k: nat, n: nat, subtest: Option<string>): seq<PhaseRecord>
    requires !o.hasRunIf
    decreases n + 1 - k
  {
    if k > n then []
    else [PhaseRecord(KeptOutcome(o, script, k, subtest), subtest)] + KeptRecords(o, script, k + 1, n, subtest)
  }

  /**
    With repeat_on_measurement_fail, no force_repeat and no run_if: each attempt adds one record,
    with the outcome it was recorded with, except that before the limit every FAIL has become SKIP.
    So only the limit-th attempt can leave a FAIL.
   */
  lemma {:induction false} RepeatsLeaveOneVerdict(
      o: PhaseOptions, script: nat -> Attempt, k: nat, phases: seq<PhaseRecord>, subtest: Option<string>)
    requires k >= 1 && !o.hasRunIf && !o.forceRepeat && o.repeatOnMeasurementFail
    ensures var e := Execute(o, script, k, phases, subtest);
            && e.returned.Ok? && e.attempts + 1 >= k && (!script(k).cancelledBefore ==> e.attempts >= k)
            && e.phases == phases + KeptRecords(o, script, k, e.attempts, subtest)
    decreases EffectiveLimit(o) - k
  {
    if script(k).cancelledBefore {
      assert phases + [] == phases;
    } else {
      var again, r := AttemptWithoutRunIf(o, script, k, phases, subtest);
      if again {
        RepeatsLeaveOneVerdict(o, script, k + 1, phases + [r], subtest);
      }
      var e := Execute(o, script, k, phases, subtest);
      RecordFirst(o, script, k, e.attempts, subtest, phases, r);
    }
  }

  lemma RecordFirst(
      o: PhaseOptions, script: nat -> Attempt, k: nat, n: nat, subtest: Option<string>,
      phases: seq<PhaseRecord>, r: PhaseRecord)
    requires !o.hasRunIf && k <= n && r == PhaseRecord(KeptOutcome(o, script, k, subtest), subtest)
    ensures phases + [r] + KeptRecords(o, script, k + 1, n, subtest) == phases + KeptRecords(o, script, k, n, subtest)
    ensures k == n ==> KeptRecords(o, script, k, n, subtest) == [r]
  {
  }

  /** The execution, from its last attempt on. */
  lemma {:induction false} LastAttempt(
      o: PhaseOptions, script: nat -> Attempt, k: nat, phases: seq<PhaseRecord>, subtest: Option<string>)
      returns (before: seq<PhaseRecord>)
    requires k >= 1 && !o.hasRunIf && !o.forceRepeat && o.repeatOnMeasurementFail && !script(k).cancelledBefore
    ensures var e := Execute(o, script, k, phases, subtest);
            && e.attempts >= k && !script(e.attempts).cancelledBefore
            && Execute(o, script, e.attempts, before, subtest) == e
    decreases EffectiveLimit(o) - k
  {
    var again, r := AttemptWithoutRunIf(o, script, k, phases, subtest);
    if again && !script(k + 1).cancelledBefore {
      before := LastAttempt(o, script, k + 1, phases + [r], subtest);
    } else {
      before := phases;
    }
  }

  /** An execution that ends before the limit, on an attempt recorded FAIL, was cut off by a stop(). */
  lemma FailureIsRepeatedOrStopped(
      o: PhaseOptions, script: nat -> Attempt, phases: seq<PhaseRecord>, subtest: Option<string>)
    requires !o.hasRunIf && !o.forceRepeat && o.repeatOnMeasurementFail && !script(1).cancelledBefore
    ensures var n := Execute(o, script, 1, phases, subtest).attempts;
            RecordedOutcome(o, script, n, subtest) == FAIL && n < EffectiveLimit(o) ==> script(n + 1).cancelledBefore
  {
    var n := Execute(o, script, 1, phases, subtest).attempts;
    var before := LastAttempt(o, script, 1, phases, subtest);
    var again, r := AttemptWithoutRunIf(o, script, n, before, subtest);
    if again {
      RepeatsLeaveOneVerdict(o, script, n + 1, before + [r], subtest);
    }
  }

  /** None of the records but the last is a FAIL; the last is the last attempt's. */
  lemma {:induction false} OnlyLastCanFail(
      o: PhaseOptions, script: nat -> Attempt, k: nat, n: nat, subtest: Option<string>)
    requires !o.hasRunIf && 1 <= k <= n && (n == 1 || n <= EffectiveLimit(o))
    ensures var rs := KeptRecords(o, script, k, n, subtest);
            && |rs| == n + 1 - k && rs[|rs| - 1].outcome == KeptOutcome(o, script, n, subtest)
            && (forall i :: 0 <= i < |rs| ==> rs[i].subtest == subtest)
            && (forall i :: 0 <= i < |rs| - 1 ==> rs[i].outcome != FAIL)
    decreases n - k
  {
    if k < n {
      OnlyLastCanFail(o, script, k + 1, n, subtest);
    } else {
      assert KeptRecords(o, script, k + 1, n, subtest) == [];
    }
  }
}

/** phase_branches.py: PhaseFailureCheckpoint, and evaluate_checkpoint around it. */
module FailureCheckpoints {
  import opened Prelude
  import opened PhaseRecords
  import opened PhaseExecution

  datatype PreviousPhases = LAST | ALL | SUBTEST

  datatype CheckpointError = NoPhasesFound

  datatype Checkpoint = Checkpoint(action: PhaseResult, previous: PreviousPhases)

  predicate Failed(r: PhaseRecord) {
    r.outcome == FAIL
  }

  /** _check_for_action */
  function Check(
      c: PreviousPhases, phases: seq<PhaseRecord>, subtest: Option<string>): Prelude.Result<bool, CheckpointError> {
    if phases == [] then Err(NoPhasesFound)
    else match c
      case LAST => Ok(Failed(phases[|phases| - 1]))
      case SUBTEST =>
        if subtest == None then Ok(exists r <- phases :: Failed(r))
        else Ok(exists r <- phases :: r.subtest == subtest && Failed(r))
      case ALL => Ok(exists r <- phases :: Failed(r))
  }

  /** evaluate_checkpoint: whatever goes wrong inside becomes an exception outcome. */
  function Evaluate(c: Checkpoint, phases: seq<PhaseRecord>, subtest: Option<string>): ExecutionOutcome {
    match Check(c.previous, phases, subtest)
    case Err(_) => Raised
    case Ok(triggers) =>
      var result := if triggers then c.action else Continue;
      if result == FailSubtest && subtest == None then Raised else Result(result)
  }

  /** The checkpoint looks at the i-th record, and that has failed. */
  predicate TriggersAt(c: PreviousPhases, phases: seq<PhaseRecord>, subtest: Option<string>, i: nat) {
    && i < |phases| && phases[i].outcome == FAIL
    && (c == LAST ==> i == |phases| - 1)
    && (c == SUBTEST && subtest.Some? ==> phases[i].subtest == subtest)
  }

  /** A checkpoint triggers exactly on a failed record that it looks at, and goes wrong in two cases. */
  lemma TriggersIff(c: Checkpoint, phases: seq<PhaseRecord>, subtest: Option<string>)
    ensures var triggers := exists i: nat :: TriggersAt(c.previous, phases, subtest, i);
            && (Check(c.previous, phases, subtest) == Ok(true) <==> triggers)
            && (Check(c.previous, phases, subtest) == Ok(false) <==> phases != [] && !triggers)
            && (Evaluate(c, phases, subtest) == Raised <==>
                  phases == [] || (triggers && c.action == FailSubtest && subtest == None))
            && (Evaluate(c, phases, subtest) != Raised ==>
                  Evaluate(c, phases, subtest) == Result(if triggers then c.action else Continue))
  {
    if i: nat :| TriggersAt(c.previous, phases, subtest, i) {
      assert phases[i] in phases && Failed(phases[i]);
    } else if Check(c.previous, phases, subtest) == Ok(true) && c.previous == LAST {
      assert TriggersAt(c.previous, phases, subtest, |phases| - 1);
    } else if Check(c.previous, phases, subtest) == Ok(true) {
      var r :| r in phases && Failed(r) && (c.previous == SUBTEST && subtest.Some? ==> r.subtest == subtest);
      var i: nat :| i < |phases| && phases[i] == r;
      assert TriggersAt(c.previous, phases, subtest, i);
    }
  }

  /** ALL is the widest checkpoint: whatever record triggers LAST or SUBTEST triggers it as well. */
  lemma AllIsWidest(c: PreviousPhases, phases: seq<PhaseRecord>, subtest: Option<string>)
    ensures Check(c, phases, subtest) == Ok(true) ==> Check(ALL, phases, subtest) == Ok(true)
    ensures Check(c, phases, subtest).Err? <==> phases == []
  {
    if phases != [] && c == LAST && Failed(phases[|phases| - 1]) {
      assert phases[|phases| - 1] in phases;
    }
  }

  /**
    Behind a phase repeated on measurement failure, a LAST checkpoint triggers iff the last attempt
    was recorded FAIL and was the limit-th; an ALL checkpoint iff that or an earlier record is FAIL;
    a SUBTEST checkpoint likewise within the phase's subtest.
   */
  lemma CheckpointsSeeTheLastAttempt(
      o: PhaseOptions, script: nat -> Attempt, phases: seq<PhaseRecord>, subtest: Option<string>)
    requires !o.hasRunIf && !o.forceRepeat && o.repeatOnMeasurementFail
    requires !script(1).cancelledBefore
    ensures var e := Execute(o, script, 1, phases, subtest);
            var failed := RecordedOutcome(o, script, e.attempts, subtest) == FAIL && e.attempts >= EffectiveLimit(o);
            && e.phases != []
            && Check(ALL, e.phases, subtest) == Ok((exists r <- phases :: Failed(r)) || failed)
            && Check(LAST, e.phases, subtest) == Ok(failed)
            && (subtest.Some? ==>
                  Check(SUBTEST, e.phases, subtest) ==
                  Ok((exists r <- phases :: r.subtest == subtest && Failed(r)) || failed))
  {
    RecordsBehind(o, script, phases, subtest);
    CheckpointsOverExtension(phases, Execute(o, script, 1, phases, subtest).phases, subtest);
  }

  lemma RecordsBehind(o: PhaseOptions, script: nat -> Attempt, phases: seq<PhaseRecord>, subtest: Option<string>)
    requires !o.hasRunIf && !o.forceRepeat && o.repeatOnMeasurementFail && !script(1).cancelledBefore
    ensures var e := Execute(o, script, 1, phases, subtest);
            && |phases| < |e.phases| && e.phases[..|phases|] == phases
            && (forall i :: |phases| <= i < |e.phases| ==> e.phases[i].subtest == subtest)
            && (forall i :: |phases| <= i < |e.phases| - 1 ==> !Failed(e.phases[i]))
            && e.phases[|e.phases| - 1].outcome == KeptOutcome(o, script, e.attempts, subtest)
  {
    var n := Execute(o, script, 1, phases, subtest).attempts;
    RepeatsLeaveOneVerdict(o, script, 1, phases, subtest);
    AttemptsAreBounded(o, script, 1, phases, subtest);
    OnlyLastCanFail(o, script, 1, n, subtest);
    BehindAll(phases, KeptRecords(o, script, 1, n, subtest));
  }

  lemma BehindAll(phases: seq<PhaseRecord>, added: seq<PhaseRecord>)
    ensures var after := phases + added;
            after[..|phases|] == phases && forall i :: |phases| <= i < |after| ==> after[i] == added[i - |phases|]
  {
  }

  /**
    So the checkpoints do not always see a last attempt that failed. They do if and only if that
    attempt was the limit-th: otherwise a stop() came after its FAIL was rewritten for an attempt
    that was never made, and the test goes on.
   */
  lemma LastFailureIsSeenIff(
      o: PhaseOptions, script: nat -> Attempt, phases: seq<PhaseRecord>, subtest: Option<string>)
    requires !o.hasRunIf && !o.forceRepeat && o.repeatOnMeasurementFail && !script(1).cancelledBefore
    requires RecordedOutcome(o, script, Execute(o, script, 1, phases, subtest).attempts, subtest) == FAIL
    ensures var e := Execute(o, script, 1, phases, subtest);
            var cutOff := e.attempts < EffectiveLimit(o);
            && (Check(LAST, e.phases, subtest) == Ok(true) <==> !cutOff)
            && Evaluate(Checkpoint(Stop, LAST), e.phases, subtest) == Result(if cutOff then Continue else Stop)
            && (subtest.Some? ==>
                  Evaluate(Checkpoint(FailSubtest, LAST), e.phases, subtest) ==
                  Result(if cutOff then Continue else FailSubtest))
            && (Check(ALL, e.phases, subtest) == Ok(true) <==> !cutOff || exists r <- phases :: Failed(r))
            && (cutOff ==> script(e.attempts + 1).cancelledBefore)
  {
    CheckpointsSeeTheLastAttempt(o, script, phases, subtest);
    RepeatsLeaveOneVerdict(o, script, 1, phases, subtest);
    FailureIsRepeatedOrStopped(o, script, phases, subtest);
  }

  /** Without a stop() every failed last attempt is seen. */
  lemma WithoutStopLastFailureIsSeen(
      o: PhaseOptions, script: nat -> Attempt, phases: seq<PhaseRecord>, subtest: Option<string>)
    requires !o.hasRunIf && !o.forceRepeat && o.repeatOnMeasurementFail
    requires forall k :: !script(k).cancelledBefore
    ensures var e := Execute(o, script, 1, phases, subtest);
            var failed := RecordedOutcome(o, script, e.attempts, subtest) == FAIL;
            && Check(LAST, e.phases, subtest) == Ok(failed)
            && Check(ALL, e.phases, subtest) == Ok((exists r <- phases :: Failed(r)) || failed)
  {
    CheckpointsSeeTheLastAttempt(o, script, phases, subtest);
    RepeatsLeaveOneVerdict(o, script, 1, phases, subtest);
    FailureIsRepeatedOrStopped(o, script, phases, subtest);
  }

  /** Every attempt fails its measurements; a stop() comes after the first. */
  function FailsThenStops(k: nat): Attempt {
    Attempt(k > 1, Runs, false, Returns(None), false, false, [])
  }

  /** A failed attempt that no checkpoint sees: its record says SKIP. */
  lemma StopErasesTheLastFailure(subtest: Option<string>) returns (o: PhaseOptions)
    ensures !o.hasRunIf && !o.forceRepeat && o.repeatOnMeasurementFail
    ensures var e := Execute(o, FailsThenStops, 1, [], subtest);
            && e.attempts == 1 && RecordedOutcome(o, FailsThenStops, 1, subtest) == FAIL
            && e.phases == [PhaseRecord(SKIP, subtest)]
            && Check(ALL, e.phases, subtest) == Check(LAST, e.phases, subtest) == Ok(false)
  {
    o := PhaseOptions(false, false, true, false, None, false);
    var e := Execute(o, FailsThenStops, 1, [], subtest);
    assert RecordedOutcome(o, FailsThenStops, 1, subtest) == FAIL;
    assert e == Execute(o, FailsThenStops, 2, [PhaseRecord(SKIP, subtest)], subtest);
  }

  /** Records of one subtest are appended, none but the last of them failed. */
  lemma CheckpointsOverExtension(phases: seq<PhaseRecord>, after: seq<PhaseRecord>, subtest: Option<string>)
    requires |phases| < |after| && after[..|phases|] == phases
    requires forall i :: |phases| <= i < |after| ==> after[i].subtest == subtest
    requires forall i :: |phases| <= i < |after| - 1 ==> !Failed(after[i])
    ensures var failed := Failed(after[|after| - 1]);
            && Check(ALL, after, subtest) == Ok((exists r <- phases :: Failed(r)) || failed)
            && Check(LAST, after, subtest) == Ok(failed)
            && (subtest.Some? ==>
                  Check(SUBTEST, after, subtest) ==
                    Ok((exists r <- phases :: r.subtest == subtest && Failed(r)) || failed))
  {
    forall r | r in phases ensures r in after {
      var i :| 0 <= i < |phases| && phases[i] == r;
      assert after[..|phases|][i] == r;
    }
    forall r | r in after && Failed(r) ensures r in phases || r == after[|after| - 1] {
      var i :| 0 <= i < |after| && after[i] == r;
      if i < |phases| { assert after[..|phases|][i] == r; }
    }
    assert after[|after| - 1] in after;
  }
}
