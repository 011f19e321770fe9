/** measurements.py: the outcome machine of a measurement, and Collection. */
module MeasurementOutcomes {
  import opened Prelude
  import DimensionedValues

  type Value = DimensionedValues.Value

  datatype Outcome = PASS | FAIL | UNSET | PARTIALLY_SET | SKIPPED

  /** What a call of a validator does. */
  datatype Answer = Yes | No | Raises

  /** isMarginal is None for validators without an `is_marginal` attribute. */
  datatype Validator = Validator(check: Value -> Answer, isMarginal: Option<Value -> Answer>)

  datatype Error =
    | NotAMeasurement
    | InvalidDimensions
    | AlreadySet
    | NotSet
    | TransformRaised
    | ConversionRaised
    | ValidatorRaised

  /** What a phase declares. transform and convert answer None when they raise. */
  datatype Declaration = Declaration(
    dimensioned: bool, validators: seq<Validator>, transform: Option<Value -> Option<Value>>,
    convert: Value -> Option<Value>)

  datatype State = State(stored: Option<Value>, isSet: bool, outcome: Outcome, marginal: bool)

  const FRESH: State := State(None, false, UNSET, false)

  // ---------------------------------------------------------------- verdicts

  /** Whether every validator accepts the value; the first that does not, or raises, ends the search. */
  function AllPass(validators: seq<Validator>, value: Value): Answer {
    if validators == [] then Yes
    else match validators[0].check(value)
      case Yes => AllPass(validators[1..], value)
      case other => other
  }

  /** Whether some validator calls the value marginal; the first that does, or raises, ends the search. */
  function AnyMarginal(validators: seq<Validator>, value: Value): Answer {
    if validators == [] then No
    else
      var first := if validators[0].isMarginal.None? then No else validators[0].isMarginal.value(value);
      match first
      case No => AnyMarginal(validators[1..], value)
      case other => other
  }

  datatype Verdict = Verdict(outcome: Outcome, marginal: bool, raised: bool)

  function VerdictOn(validators: seq<Validator>, value: Value): Verdict {
    match AllPass(validators, value)
    case No => Verdict(FAIL, false, false)
    case Raises => Verdict(FAIL, false, true)
    case Yes =>
      match AnyMarginal(validators, value)
      case Yes => Verdict(PASS, true, false)
      case No => Verdict(PASS, false, false)
      case Raises => Verdict(FAIL, false, true)
  }

  lemma {:induction false} AllPassIff(validators: seq<Validator>, value: Value)
    ensures AllPass(validators, value) == Yes <==> forall v <- validators :: v.check(value) == Yes
    decreases |validators|
  {
    if validators != [] {
      AllPassIff(validators[1..], value);
      assert validators == [validators[0]] + validators[1..];
    }
  }

  function MarginalAnswer(v: Validator, value: Value): Answer {
    if v.isMarginal.None? then No else v.isMarginal.value(value)
  }

  /** Validator i is the first that does not deny marginality, and it affirms it. */
  ghost predicate AffirmedBy(validators: seq<Validator>, value: Value, i: nat) {
    && i < |validators| && MarginalAnswer(validators[i], value) == Yes
    && forall j :: 0 <= j < i ==> MarginalAnswer(validators[j], value) == No
  }

  ghost predicate NoneMarginal(validators: seq<Validator>, value: Value) {
    forall i :: 0 <= i < |validators| ==> MarginalAnswer(validators[i], value) == No
  }

  lemma {:induction false} AnyMarginalIff(validators: seq<Validator>, value: Value)
    ensures AnyMarginal(validators, value) == No <==> NoneMarginal(validators, value)
    ensures AnyMarginal(validators, value) == Yes <==> exists i :: AffirmedBy(validators, value, i)
    decreases |validators|
  {
    if validators != [] {
      var rest := validators[1..];
      AnyMarginalIff(rest, value);
      if MarginalAnswer(validators[0], value) == No {
        AffirmedLater(validators, value);
      } else {
        assert MarginalAnswer(validators[0], value) == Yes <==> AffirmedBy(validators, value, 0);
      }
    }
  }

  lemma AffirmedLater(validators: seq<Validator>, value: Value)
    requires validators != [] && MarginalAnswer(validators[0], value) == No
    ensures (exists i :: AffirmedBy(validators, value, i)) <==> exists i :: AffirmedBy(validators[1..], value, i)
    ensures NoneMarginal(validators, value) <==> NoneMarginal(validators[1..], value)
  {
    var rest := validators[1..];
    assert forall j :: 1 <= j < |validators| ==> validators[j] == rest[j - 1];
    if i: nat :| AffirmedBy(validators, value, i) {
      assert AffirmedBy(rest, value, i - 1);
    }
    if i: nat :| AffirmedBy(rest, value, i) {
      assert AffirmedBy(validators, value, i + 1);
    }
  }

  /** A measurement passes if and only if every validator says so and no marginality check raises before one holds. */
  lemma PassesIff(validators: seq<Validator>, value: Value)
    ensures VerdictOn(validators, value).outcome in {PASS, FAIL}
    ensures VerdictOn(validators, value).outcome == PASS <==>
            && (forall v <- validators :: v.check(value) == Yes)
            && (NoneMarginal(validators, value) || exists i :: AffirmedBy(validators, value, i))
    ensures VerdictOn(validators, value).marginal <==>
            (forall v <- validators :: v.check(value) == Yes) && exists i :: AffirmedBy(validators, value, i)
  {
    AllPassIff(validators, value);
    AnyMarginalIff(validators, value);
  }

  // ---------------------------------------------------------------- specification

  /** The outcome of validation. Reading an unset value raises, but only if there is a validator to ask. */
  function ValidateSpec(d: Declaration, s: State): (State, Option<Error>) {
    if s.isSet && s.stored.Some? then
      var v := VerdictOn(d.validators, s.stored.value);
      (s.(outcome := v.outcome, marginal := s.marginal || v.marginal), if v.raised then Some(ValidatorRaised) else None)
    else if d.validators == [] then (s.(outcome := PASS), None)
    else (s.(outcome := FAIL), Some(NotSet))
  }

  /** Setting and validating a measurement without dimensions. */
  function SetSpec(d: Declaration, s: State, value: Value): (State, Option<Error>) {
    var t := if d.transform.None? then Some(value) else d.transform.value(value);
    if t.None? then (s, Some(TransformRaised))
    else if d.convert(t.value).None? then (s.(stored := t), Some(ConversionRaised))
    else ValidateSpec(d, s.(stored := t, isSet := true))
  }

  /** An entry of a dimensioned measurement was set; `rows` is its value now. */
  function SetEntrySpec(s: State, rows: Value): State {
    s.(stored := Some(rows), isSet := true, outcome := PARTIALLY_SET)
  }

  function SkipSpec(s: State): (State, Option<Error>) {
    if s.isSet then (s, Some(AlreadySet)) else (s.(outcome := SKIPPED), None)
  }

  /** The end of the phase. */
  function FinalizeSpec(d: Declaration, s: State, phaseSkipped: bool): (State, Option<Error>) {
    var s1 := if phaseSkipped && s.outcome == UNSET then s.(outcome := SKIPPED) else s;
    if s1.outcome == PARTIALLY_SET then ValidateSpec(d, s1) else (s1, None)
  }

  // ---------------------------------------------------------------- the classes

  class Measurement {
    const declaration: Declaration
    var storedValue: Option<Value>
    var isValueSet: bool
    var outcome: Outcome
    var marginal: bool

    constructor (declaration: Declaration)
      ensures this.declaration == declaration && Contents() == FRESH
    {
      this.declaration := declaration;
      storedValue, isValueSet, outcome, marginal := None, false, UNSET, false;
    }

    function Contents(): State
      reads this
    {
      State(storedValue, isValueSet, outcome, marginal)
    }

    method Validate() returns (error: Option<Error>)
      modifies this`outcome, this`marginal
      ensures (Contents(), error) == ValidateSpec(declaration, old(Contents()))
    {
      var validators := declaration.validators;
      if validators != [] && !(isValueSet && storedValue.Some?) {
        outcome := FAIL;
        return Some(NotSet);
      }
      var i, passes := 0, Yes;
      while i < |validators| && passes == Yes
        invariant i <= |validators|
        invariant isValueSet && storedValue.Some? ==>
                    AllPass(validators, storedValue.value) ==
                      (if passes == Yes then AllPass(validators[i..], storedValue.value) else passes)
        invariant validators == [] ==> passes == Yes
        decreases |validators| - i
      {
        passes := validators[i].check(storedValue.value);
        i := i + 1;
      }
      if passes != Yes {
        outcome := FAIL;
        return if passes == Raises then Some(ValidatorRaised) else None;
      }
      outcome := PASS;
      var isMarginal := No;
      i := 0;
      while i < |validators| && isMarginal == No
        invariant i <= |validators|
        invariant isValueSet && storedValue.Some? ==>
                    AnyMarginal(validators, storedValue.value) ==
                    (if isMarginal == No then AnyMarginal(validators[i..], storedValue.value) else isMarginal)
        invariant validators == [] ==> isMarginal == No
        decreases |validators| - i
      {
        if validators[i].isMarginal.Some? {
          isMarginal := validators[i].isMarginal.value(storedValue.value);
        }
        i := i + 1;
      }
      if isMarginal == Raises {
        outcome := FAIL;
        return Some(ValidatorRaised);
      }
      if isMarginal == Yes { marginal := true; }
      return None;
    }

    method SetValue(value: Value) returns (error: Option<Error>)
      modifies this
      ensures (Contents(), error) == SetSpec(declaration, old(Contents()), value)
    {
      var v := value;
      if declaration.transform.Some? {
        match declaration.transform.value(value) {
          case None => return Some(TransformRaised);
          case Some(t) => v := t;
        }
      }
      storedValue := Some(v);
      if declaration.convert(v).None? { return Some(ConversionRaised); }
      isValueSet := true;
      error := Validate();
    }

    method SetEntry(rows: Value)
      modifies this
      ensures Contents() == SetEntrySpec(old(Contents()), rows)
    {
      storedValue, isValueSet := Some(rows), true;
      outcome := PARTIALLY_SET;
    }

    method FinalizePhase(phaseSkipped: bool) returns (error: Option<Error>)
      modifies this`outcome, this`marginal
      ensures (Contents(), error) == FinalizeSpec(declaration, old(Contents()), phaseSkipped)
    {
      if phaseSkipped && outcome == UNSET { outcome := SKIPPED; }
      if outcome == PARTIALLY_SET { error := Validate(); } else { error := None; }
    }
  }

  class Collection {
    const measurements: map<string, Measurement>

    constructor (measurements: map<string, Measurement>)
      ensures this.measurements == measurements
    {
      this.measurements := measurements;
    }

    /** Assigns to a measurement by name; a refused name or a dimensioned measurement is left alone. */
    method SetItem(name: string, value: Value) returns (error: Option<Error>)
      modifies measurements.Values
      ensures name !in measurements ==> error == Some(NotAMeasurement)
      ensures name in measurements && measurements[name].declaration.dimensioned ==>
                error == Some(InvalidDimensions) && measurements[name].Contents() == old(measurements[name].Contents())
      ensures name in measurements && !measurements[name].declaration.dimensioned ==>
                var m := measurements[name];
                (m.Contents(), error) == SetSpec(m.declaration, old(m.Contents()), value)
      ensures forall m <- measurements.Values :: (name !in measurements || m != measurements[name]) ==>
                m.Contents() == old(m.Contents())
    {
      if name !in measurements { return Some(NotAMeasurement); }
      var m := measurements[name];
      if m.declaration.dimensioned { return Some(InvalidDimensions); }
      error := m.SetValue(value);
    }

    method SetMeasurementOutcomeToSkipped(name: string) returns (error: Option<Error>)
      modifies measurements.Values
      ensures name !in measurements ==> error == Some(NotAMeasurement)
      ensures name in measurements ==>
                (measurements[name].Contents(), error) == SkipSpec(old(measurements[name].Contents()))
      ensures forall m <- measurements.Values :: (name !in measurements || m != measurements[name]) ==>
                m.Contents() == old(m.Contents())
    {
      if name !in measurements { return Some(NotAMeasurement); }
      var m := measurements[name];
      if m.isValueSet { return Some(AlreadySet); }
      m.outcome := SKIPPED;
      return None;
    }
  }

  // ---------------------------------------------------------------- what is set and what is skipped

  /** Validator i is the first that does not accept the value, and answers this. */
  ghost predicate StoppedBy(validators: seq<Validator>, value: Value, i: nat, answer: Answer) {
    && i < |validators| && validators[i].check(value) == answer != Yes
    && forall j :: 0 <= j < i ==> validators[j].check(value) == Yes
  }

  lemma {:induction false} StoppedIff(validators: seq<Validator>, value: Value, answer: Answer)
    requires answer != Yes
    ensures AllPass(validators, value) == answer <==> exists i :: StoppedBy(validators, value, i, answer)
    decreases |validators|
  {
    if validators != [] {
      var rest := validators[1..];
      StoppedIff(rest, value, answer);
      assert forall j :: 1 <= j < |validators| ==> validators[j] == rest[j - 1];
      if validators[0].check(value) != Yes {
        assert validators[0].check(value) == answer ==> StoppedBy(validators, value, 0, answer);
      } else {
        if i: nat :| StoppedBy(validators, value, i, answer) {
          assert StoppedBy(rest, value, i - 1, answer);
        }
        if i: nat :| StoppedBy(rest, value, i, answer) {
          assert StoppedBy(validators, value, i + 1, answer);
        }
      }
    }
  }

  /** Every validator accepts the value. */
  ghost predicate Accepted(d: Declaration, value: Value) {
    forall v <- d.validators :: v.check(value) == Yes
  }

  /** A validation of the value passes, and makes the measurement marginal if it does so marginally. */
  ghost predicate Validated(d: Declaration, s: State, value: Value, next: State) {
    && next.stored == Some(value) && next.isSet
    && next.outcome == (if Accepted(d, value)
                           && (NoneMarginal(d.validators, value) || exists i :: AffirmedBy(d.validators, value, i))
                        then PASS else FAIL)
    && (next.marginal <==> s.marginal || (Accepted(d, value) && exists i :: AffirmedBy(d.validators, value, i)))
  }

  /**
    What a set does: nothing if the transform raises; only the storing of the transformed value if
    its conversion raises; otherwise that value is set and validated, and a validator's exception,
    if one is reached, comes back.
   */
  lemma SetIff(d: Declaration, s: State, value: Value)
    ensures var (next, error) := SetSpec(d, s, value);
            var t := if d.transform.None? then Some(value) else d.transform.value(value);
            && (error == Some(TransformRaised) <==> t == None)
            && (error == Some(ConversionRaised) <==> t.Some? && d.convert(t.value) == None)
            && (t == None ==> next == s)
            && (error == Some(ConversionRaised) ==> next == s.(stored := t))
            && (t.Some? && d.convert(t.value).Some? ==>
                  && Validated(d, s, t.value, next)
                  && error in {None, Some(ValidatorRaised)}
                  && (error == Some(ValidatorRaised) <==>
                        || (exists i :: StoppedBy(d.validators, t.value, i, Raises))
                        || (Accepted(d, t.value) && next.outcome == FAIL)))
  {
    var t := if d.transform.None? then Some(value) else d.transform.value(value);
    if t.Some? {
      PassesIff(d.validators, t.value);
      AllPassIff(d.validators, t.value);
      AnyMarginalIff(d.validators, t.value);
      StoppedIff(d.validators, t.value, Raises);
    }
  }

  /** A phase end validates exactly the partially set values, and touches the others only to skip unset ones. */
  lemma FinalizeIff(d: Declaration, s: State, phaseSkipped: bool)
    requires Consistent(d, s)
    ensures var next := FinalizeSpec(d, s, phaseSkipped).0;
            if s.outcome == PARTIALLY_SET then Validated(d, s, s.stored.value, next)
            else next == s.(outcome := if phaseSkipped && s.outcome == UNSET then SKIPPED else s.outcome)
  {
    if s.outcome == PARTIALLY_SET {
      PassesIff(d.validators, s.stored.value);
    }
  }

  /** Exactly when a measurement is SKIPPED after a step. */
  lemma SkippedAfterStepIff(d: Declaration, s: State, e: Event)
    requires Consistent(d, s)
    ensures Step(d, s, e).outcome == SKIPPED <==>
            match e
            case Skip => !s.isSet
            case Finalize(phaseSkipped) => s.outcome == SKIPPED || (s.outcome == UNSET && phaseSkipped)
            case SetEntry(_) => s.outcome == SKIPPED && !d.dimensioned
            case Set(value) =>
              s.outcome == SKIPPED &&
              (d.dimensioned || SetSpec(d, s, value).1 in {Some(TransformRaised), Some(ConversionRaised)})
  {
    if e.Set? { SetIff(d, s, e.value); }
  }

  // ---------------------------------------------------------------- histories

  /** What can happen to a measurement through its collection and its phase. */
  datatype Event = Set(value: Value) | SetEntry(rows: Value) | Skip | Finalize(phaseSkipped: bool)

  function Step(d: Declaration, s: State, e: Event): State {
    match e
    case Set(value) => if d.dimensioned then s else SetSpec(d, s, value).0
    case SetEntry(rows) => if d.dimensioned then SetEntrySpec(s, rows) else s
    case Skip => SkipSpec(s).0
    case Finalize(phaseSkipped) => FinalizeSpec(d, s, phaseSkipped).0
  }

  function Run(d: Declaration, s: State, events: seq<Event>): State
    decreases |events|
  {
    if events == [] then s else Run(d, Step(d, s, events[0]), events[1..])
  }

  /** The values that a step hands to the validators. */
  function Judged(d: Declaration, s: State, e: Event): seq<Value> {
    match e
    case Set(value) =>
      if d.dimensioned then []
      else
        var next := SetSpec(d, s, value);
        if next.1 in {Some(TransformRaised), Some(ConversionRaised)} then [] else [next.0.stored.value]
    case Finalize(_) => if s.outcome == PARTIALLY_SET && s.isSet && s.stored.Some? then [s.stored.value] else []
    case _ => []
  }

  function JudgedBy(d: Declaration, s: State, events: seq<Event>): seq<Value>
    decreases |events|
  {
    if events == [] then [] else Judged(d, s, events[0]) + JudgedBy(d, Step(d, s, events[0]), events[1..])
  }

  /** What holds of every measurement, whatever its validators, transform and conversion do. */
  ghost predicate Consistent(d: Declaration, s: State) {
    && (s.isSet ==> s.stored.Some?)
    && (s.outcome in {PASS, FAIL, PARTIALLY_SET} <==> s.isSet)
    && (s.outcome == PARTIALLY_SET ==> d.dimensioned)
  }

  lemma StepKeepsConsistent(d: Declaration, s: State, e: Event)
    requires Consistent(d, s)
    ensures Consistent(d, Step(d, s, e))
    ensures e.Finalize? ==> Step(d, s, e).outcome != PARTIALLY_SET
  {
  }

  /** The outcome is the verdict on the value that is stored now. */
  ghost predicate Judges(d: Declaration, s: State) {
    s.isSet && s.stored.Some? && s.outcome != PARTIALLY_SET ==>
      s.outcome == VerdictOn(d.validators, s.stored.value).outcome
  }

  /** A set replaces the stored value, but the conversion raises before the new one is judged. */
  predicate StoresUnjudged(d: Declaration, s: State, e: Event) {
    e.Set? && !d.dimensioned && s.isSet && SetSpec(d, s, e.value).1 == Some(ConversionRaised)
  }

  /** The verdict on the value that the set stores is the outcome as it is. */
  predicate OutcomeFits(d: Declaration, s: State, e: Event)
    requires e.Set?
  {
    var stored := SetSpec(d, s, e.value).0.stored;
    stored.Some? && VerdictOn(d.validators, stored.value).outcome == s.outcome
  }

  /** A value is judged, or is stored to be judged at the end of the phase. */
  predicate JudgesAnew(d: Declaration, s: State, e: Event) {
    if e.SetEntry? then d.dimensioned else Judged(d, s, e) != []
  }

  /**
    Exactly when a step leaves a measurement with the verdict on its latest stored value. A value
    whose conversion raises is stored by then, but not judged.
   */
  lemma JudgesAfterStepIff(d: Declaration, s: State, e: Event)
    requires Consistent(d, s)
    ensures Judges(d, Step(d, s, e)) <==>
            if StoresUnjudged(d, s, e) then OutcomeFits(d, s, e) else Judges(d, s) || JudgesAnew(d, s, e)
  {
  }

  /** Is the outcome the verdict on the latest stored value in the end, given that it is, or is not, now? */
  predicate JudgedSince(d: Declaration, s: State, events: seq<Event>, judges: bool)
    decreases |events|
  {
    if events == [] then judges
    else
      var e := events[0];
      var now := if StoresUnjudged(d, s, e) then OutcomeFits(d, s, e) else judges || JudgesAnew(d, s, e);
      JudgedSince(d, Step(d, s, events[0]), events[1..], now)
  }

  /**
    Over any history of sets, entries, skips and phase ends: a measurement is PASS, FAIL or
    PARTIALLY_SET exactly when a value is set, so that SKIPPED never coexists with a value; it is
    marginal exactly when some value so far passed marginally; and its outcome is the verdict on the
    latest stored value if and only if no conversion that raised has left another one behind since
    a value was last judged.
   */
  lemma {:induction false} OutcomeMachine(d: Declaration, s: State, events: seq<Event>)
    requires Consistent(d, s)
    ensures var last := Run(d, s, events);
            && Consistent(d, last)
            && (last.outcome == SKIPPED ==> !last.isSet)
            && (Judges(d, last) <==> JudgedSince(d, s, events, Judges(d, s)))
            && (last.marginal <==>
                  s.marginal || exists v <- JudgedBy(d, s, events) :: VerdictOn(d.validators, v).marginal)
    decreases |events|
  {
    if events != [] {
      StepKeepsConsistent(d, s, events[0]);
      JudgesAfterStepIff(d, s, events[0]);
      StepMarginal(d, s, events[0]);
      OutcomeMachine(d, Step(d, s, events[0]), events[1..]);
    }
  }

  /** Where no conversion raises, the outcome of a fresh measurement is always the verdict on its value. */
  lemma {:induction false} JudgedWithoutRaising(d: Declaration, s: State, events: seq<Event>)
    requires ConversionsSucceed(d, s, events)
    ensures JudgedSince(d, s, events, true)
    decreases |events|
  {
    if events != [] {
      JudgedWithoutRaising(d, Step(d, s, events[0]), events[1..]);
    }
  }

  /** No set of this history has a conversion that raises. */
  predicate ConversionsSucceed(d: Declaration, s: State, events: seq<Event>)
    decreases |events|
  {
    events == [] ||
    (&& (events[0].Set? && !d.dimensioned ==> SetSpec(d, s, events[0].value).1 != Some(ConversionRaised))
     && ConversionsSucceed(d, Step(d, s, events[0]), events[1..]))
  }

  lemma StepMarginal(d: Declaration, s: State, e: Event)
    requires Consistent(d, s)
    ensures Step(d, s, e).marginal <==> s.marginal || exists v <- Judged(d, s, e) :: VerdictOn(d.validators, v).marginal
  {
    var judged := Judged(d, s, e);
    if |judged| == 1 {
      assert judged[0] in judged;
      assert forall v <- judged :: v == judged[0];
    }
  }

  /** A value whose conversion raises takes the place of the one before, whose verdict stays. */
  lemma ConversionLeavesOldVerdict(d: Declaration, a: Value, b: Value)
    requires !d.dimensioned && d.transform.None? && d.convert(a).Some? && d.convert(b).None?
    ensures var last := Run(d, FRESH, [Set(a), Set(b)]);
            && last.stored == Some(b) && last.outcome == VerdictOn(d.validators, a).outcome
            && (Judges(d, last) <==> VerdictOn(d.validators, b).outcome == VerdictOn(d.validators, a).outcome)
  {
    assert [Set(a), Set(b)][1..] == [Set(b)] && [Set(b)][1..] == [];
    var s1 := Step(d, FRESH, Set(a));
    assert Run(d, FRESH, [Set(a), Set(b)]) == Run(d, s1, [Set(b)]) == Step(d, s1, Set(b));
  }

  /** `marginal` is never reset: a marginal pass followed by a failing value is FAIL and marginal. */
  lemma MarginalSurvivesFailure(d: Declaration, a: Value, b: Value)
    requires !d.dimensioned && d.transform.None? && d.convert(a).Some? && d.convert(b).Some?
    requires VerdictOn(d.validators, a).marginal && VerdictOn(d.validators, b).outcome == FAIL
    ensures var last := Run(d, FRESH, [Set(a), Set(b)]);
            last.outcome == FAIL && last.marginal
  {
    assert [Set(a), Set(b)][1..] == [Set(b)] && [Set(b)][1..] == [];
    var s1 := Step(d, FRESH, Set(a));
    assert Run(d, FRESH, [Set(a), Set(b)]) == Run(d, s1, [Set(b)]) == Step(d, s1, Set(b));
  }
}
