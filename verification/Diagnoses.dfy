/** diagnoses_lib.py: the store of diagnoses, the diagnosers that fill it, and (phase_branches.py) conditions on it. */
module Diagnoses {
  import opened Prelude

  // ---------------------------------------------------------------- data

  /** A member of an enumeration of results. The members are strings: dictionaries know them by their value. */
  datatype DiagResult = DiagResult(enumeration: string, value: string)

  datatype DiagnosisFields = DiagnosisFields(result: DiagResult, description: string, isFailure: bool, isInternal: bool)

  /** The constructor refuses internal failures. */
  type Diagnosis = d: DiagnosisFields | !(d.isInternal && d.isFailure)
    witness DiagnosisFields(DiagResult("", ""), "", false, false)

  const BASE_ENUMERATION := "DiagResultEnum"

  datatype Diagnoser = Diagnoser(resultType: string, alwaysFail: bool)

  datatype Error = InvalidDiagnosis | RunRaised

  /** An element of the iterable that a diagnoser returns; Raising stands for an iterator that raises there. */
  datatype Element = ADiagnosis(diagnosis: Diagnosis) | SomethingElse | Raising

  datatype Returned = Nothing | Single(diagnosis: Diagnosis) | NotIterable | Elements(elements: seq<Element>) | Raised

  // ---------------------------------------------------------------- what a diagnoser yields

  predicate IsInstance(r: DiagResult, resultType: string) {
    r.enumeration == resultType || resultType == BASE_ENUMERATION
  }

  /** _verify_and_fix_diagnosis */
  function Verified(d: Diagnosis, diagnoser: Diagnoser): Result<Diagnosis, Error> {
    if !IsInstance(d.result, diagnoser.resultType) then Err(InvalidDiagnosis)
    else if diagnoser.alwaysFail then
      if d.isInternal then Err(InvalidDiagnosis) else Ok(d.(isFailure := true))
    else Ok(d)
  }

  function ElementsOf(r: Returned): seq<Element> {
    match r
    case Single(d) => [ADiagnosis(d)]
    case Elements(es) => es
    case _ => []
  }

  function Converted(e: Element, diagnoser: Diagnoser): Result<Diagnosis, Error> {
    match e
    case ADiagnosis(d) => Verified(d, diagnoser)
    case SomethingElse => Err(InvalidDiagnosis)
    case Raising => Err(RunRaised)
  }

  /** What a phase diagnoser or a test diagnoser adds for an element; only the former may add internal diagnoses. */
  function Added(e: Element, diagnoser: Diagnoser, testLevel: bool): Result<Diagnosis, Error> {
    var c := Converted(e, diagnoser);
    if c.Ok? && testLevel && c.value.isInternal then Err(InvalidDiagnosis) else c
  }

  /** How many elements come through before the first that does not. */
  function GoodPrefix(es: seq<Element>, diagnoser: Diagnoser, testLevel: bool): (n: nat)
    ensures n <= |es|
  {
    if es == [] || Added(es[0], diagnoser, testLevel).Err? then 0 else 1 + GoodPrefix(es[1..], diagnoser, testLevel)
  }

  lemma {:induction false} GoodPrefixIsLongest(es: seq<Element>, diagnoser: Diagnoser, testLevel: bool)
    ensures var n := GoodPrefix(es, diagnoser, testLevel);
            && (forall i :: 0 <= i < n ==> Added(es[i], diagnoser, testLevel).Ok?)
            && (n < |es| ==> Added(es[n], diagnoser, testLevel).Err?)
    decreases |es|
  {
    if es != [] {
      GoodPrefixIsLongest(es[1..], diagnoser, testLevel);
    }
  }

  /** The diagnoses that a run of a diagnoser adds, in order. */
  function Yielded(r: Returned, diagnoser: Diagnoser, testLevel: bool): seq<Diagnosis> {
    var es := ElementsOf(r);
    var n := GoodPrefix(es, diagnoser, testLevel);
    GoodPrefixIsLongest(es, diagnoser, testLevel);
    seq(n, i requires 0 <= i < n => Added(es[i], diagnoser, testLevel).value)
  }

  /** The exception that ends the run, if any. */
  function Failure(r: Returned, diagnoser: Diagnoser, testLevel: bool): Option<Error> {
    if r.Raised? then Some(RunRaised)
    else if r.NotIterable? then Some(InvalidDiagnosis)
    else
      var es := ElementsOf(r);
      var n := GoodPrefix(es, diagnoser, testLevel);
      GoodPrefixIsLongest(es, diagnoser, testLevel);
      if n < |es| then Some(Added(es[n], diagnoser, testLevel).error) else None
  }

  /** The diagnoser may add this element: a diagnosis with one of its results, internal only where that is allowed. */
  predicate Acceptable(e: Element, diagnoser: Diagnoser, testLevel: bool) {
    && e.ADiagnosis?
    && (diagnoser.resultType == e.diagnosis.result.enumeration || diagnoser.resultType == BASE_ENUMERATION)
    && (e.diagnosis.isInternal ==> !diagnoser.alwaysFail && !testLevel)
  }

  /** It is added as it is, but as a failure by a diagnoser that always fails; anything else is an exception. */
  lemma AddedIff(e: Element, diagnoser: Diagnoser, testLevel: bool)
    ensures Added(e, diagnoser, testLevel).Ok? <==> Acceptable(e, diagnoser, testLevel)
    ensures Acceptable(e, diagnoser, testLevel) ==>
              var d := Added(e, diagnoser, testLevel).value;
              && d.result == e.diagnosis.result && d.description == e.diagnosis.description
              && d.isInternal == e.diagnosis.isInternal
              && (d.isFailure <==> e.diagnosis.isFailure || diagnoser.alwaysFail)
    ensures Added(e, diagnoser, testLevel) == Err(RunRaised) <==> e.Raising?
  {
  }

  /**
    A single diagnosis counts as a list of one. What a list adds is what comes before the first
    element that is not acceptable; the run raises exactly if there is one, or nothing to go through.
   */
  lemma YieldedIff(r: Returned, diagnoser: Diagnoser, testLevel: bool)
    ensures var added, failure := Yielded(r, diagnoser, testLevel), Failure(r, diagnoser, testLevel);
            match r
            case Nothing => added == [] && failure == None
            case Raised => added == [] && failure == Some(RunRaised)
            case NotIterable => added == [] && failure == Some(InvalidDiagnosis)
            case Single(d) =>
              if Acceptable(ADiagnosis(d), diagnoser, testLevel)
              then added == [Added(ADiagnosis(d), diagnoser, testLevel).value] && failure == None
              else added == [] && failure == Some(InvalidDiagnosis)
            case Elements(es) =>
              var n := |added|;
              && n <= |es| && (forall i :: 0 <= i < n ==> Acceptable(es[i], diagnoser, testLevel))
              && (forall i :: 0 <= i < n ==> added[i] == Added(es[i], diagnoser, testLevel).value)
              && (failure == None <==> n == |es|)
              && (n < |es| ==>
                    && !Acceptable(es[n], diagnoser, testLevel)
                    && failure == Some(if es[n].Raising? then RunRaised else InvalidDiagnosis))
  {
    GoodPrefixIsLongest(ElementsOf(r), diagnoser, testLevel);
    forall e ensures Added(e, diagnoser, testLevel).Ok? <==> Acceptable(e, diagnoser, testLevel) {
      AddedIff(e, diagnoser, testLevel);
    }
    if r.Single? {
      var es := ElementsOf(r);
      assert es == [ADiagnosis(r.diagnosis)] && es[0] == ADiagnosis(r.diagnosis);
    }
  }

  // ---------------------------------------------------------------- the store

  function LastMatching(ds: seq<Diagnosis>, value: string): Option<Diagnosis> {
    if ds == [] then None
    else if ds[|ds| - 1].result.value == value then Some(ds[|ds| - 1])
    else LastMatching(ds[..|ds| - 1], value)
  }

  lemma {:induction false} LastMatchingIsLast(ds: seq<Diagnosis>, value: string)
    ensures LastMatching(ds, value).None? <==> forall i :: 0 <= i < |ds| ==> ds[i].result.value != value
    ensures LastMatching(ds, value).Some? ==>
              exists i :: 0 <= i < |ds| && ds[i] == LastMatching(ds, value).value && ds[i].result.value == value &&
                          forall j :: i < j < |ds| ==> ds[j].result.value != value
    decreases |ds|
  {
    if ds != [] && ds[|ds| - 1].result.value != value {
      LastMatchingIsLast(ds[..|ds| - 1], value);
    }
  }

  class DiagnosesStore {
    var diagnosesByResults: map<string, Diagnosis>
    var diagnoses: seq<Diagnosis>

    /** The index answers every question as the last matching entry of the list would. */
    ghost predicate Valid()
      reads this
    {
      forall value ::
        LastMatching(diagnoses, value) == if value in diagnosesByResults then Some(diagnosesByResults[value]) else None
    }

    constructor ()
      ensures Valid() && diagnoses == []
    {
      diagnosesByResults, diagnoses := map[], [];
    }

    method AddDiagnosis(diagnosis: Diagnosis)
      requires Valid()
      modifies this
      ensures Valid() && diagnoses == old(diagnoses) + [diagnosis]
    {
      diagnosesByResults := diagnosesByResults[diagnosis.result.value := diagnosis];
      diagnoses := diagnoses + [diagnosis];
    }

    method HasDiagnosisResult(result: DiagResult) returns (r: bool)
      requires Valid()
      ensures r == Has(diagnoses, result)
    {
      r := result.value in diagnosesByResults;
      LastMatchingIsLast(diagnoses, result.value);
    }

    method GetDiagnosis(result: DiagResult) returns (r: Option<Diagnosis>)
      requires Valid()
      ensures r == LastMatching(diagnoses, result.value)
    {
      r := if result.value in diagnosesByResults then Some(diagnosesByResults[result.value]) else None;
    }
  }

  predicate Has(ds: seq<Diagnosis>, result: DiagResult) {
    exists i :: 0 <= i < |ds| && ds[i].result.value == result.value
  }

  // ---------------------------------------------------------------- the manager

  class PhaseRecord {
    var diagnosisResults: seq<DiagResult>
    var failureDiagnosisResults: seq<DiagResult>

    constructor ()
      ensures diagnosisResults == [] && failureDiagnosisResults == []
    {
      diagnosisResults, failureDiagnosisResults := [], [];
    }

    method AddDiagnosis(d: Diagnosis)
      modifies this
      ensures diagnosisResults == if d.isFailure then old(diagnosisResults) else old(diagnosisResults) + [d.result]
      ensures failureDiagnosisResults ==
              if d.isFailure then old(failureDiagnosisResults) + [d.result] else old(failureDiagnosisResults)
    {
      if d.isFailure {
        failureDiagnosisResults := failureDiagnosisResults + [d.result];
      } else {
        diagnosisResults := diagnosisResults + [d.result];
      }
    }
  }

  class TestRecord {
    var diagnoses: seq<Diagnosis>

    constructor ()
      ensures diagnoses == []
    {
      diagnoses := [];
    }
  }

  /** The results of the diagnoses that are, or are not, failures. */
  function ResultsOf(ds: seq<Diagnosis>, failures: bool): seq<DiagResult> {
    if ds == [] then []
    else
      var last := ds[|ds| - 1];
      ResultsOf(ds[..|ds| - 1], failures) + (if last.isFailure == failures then [last.result] else [])
  }

  function External(ds: seq<Diagnosis>): seq<Diagnosis> {
    if ds == [] then []
    else
      var last := ds[|ds| - 1];
      External(ds[..|ds| - 1]) + (if last.isInternal then [] else [last])
  }

  lemma {:induction false} ResultsConcat(a: seq<Diagnosis>, b: seq<Diagnosis>, failures: bool)
    ensures ResultsOf(a + b, failures) == ResultsOf(a, failures) + ResultsOf(b, failures)
    decreases |b|
  {
    if b == [] {
      assert a + b == a;
    } else {
      assert (a + b)[..|a + b| - 1] == a + b[..|b| - 1];
      ResultsConcat(a, b[..|b| - 1], failures);
    }
  }

  lemma {:induction false} ExternalConcat(a: seq<Diagnosis>, b: seq<Diagnosis>)
    ensures External(a + b) == External(a) + External(b)
    decreases |b|
  {
    if b == [] {
      assert a + b == a;
    } else {
      assert (a + b)[..|a + b| - 1] == a + b[..|b| - 1];
      ExternalConcat(a, b[..|b| - 1]);
    }
  }

  /** The store's list, the test record's list, and the results in the phase record (or in all of them together). */
  datatype World = World(
    store: seq<Diagnosis>, record: seq<Diagnosis>, results: seq<DiagResult>, failures: seq<DiagResult>)

  /** The lists after a phase diagnoser added diagnoses. */
  function AddAll(w: World, added: seq<Diagnosis>): World {
    World(w.store + added, w.record + External(added),
          w.results + ResultsOf(added, false), w.failures + ResultsOf(added, true))
  }

  lemma AddOneMore(w: World, seen: seq<Diagnosis>, d: Diagnosis)
    ensures AddAll(w, seen + [d]) == AddAll(AddAll(w, seen), [d])
  {
    assert (seen + [d])[..|seen|] == seen;
    ResultsConcat(seen, [d], true);
    ResultsConcat(seen, [d], false);
    ExternalConcat(seen, [d]);
    assert w.store + (seen + [d]) == w.store + seen + [d];
  }

  lemma ListsOfOne(d: Diagnosis)
    ensures External([d]) == if d.isInternal then [] else [d]
    ensures ResultsOf([d], true) == if d.isFailure then [d.result] else []
    ensures ResultsOf([d], false) == if d.isFailure then [] else [d.result]
  {
    assert [d][..0] == [];
  }

  lemma AppendNone<T>(s: seq<T>)
    ensures s + [] == s
  {
  }

  lemma AddJustOne(w: World, d: Diagnosis)
    ensures AddAll(w, [d]) == World(
              w.store + [d], if d.isInternal then w.record else w.record + [d],
              if d.isFailure then w.results else w.results + [d.result],
              if d.isFailure then w.failures + [d.result] else w.failures)
  {
    ListsOfOne(d);
    AppendNone(w.record);
    AppendNone(w.results);
    AppendNone(w.failures);
  }

  lemma AddNone(w: World)
    ensures AddAll(w, []) == w
  {
    AppendNone(w.store);
    AppendNone(w.record);
    AppendNone(w.results);
    AppendNone(w.failures);
  }

  class DiagnosesManager {
    const store: DiagnosesStore

    constructor ()
      ensures fresh(store) && store.Valid() && store.diagnoses == []
    {
      store := new DiagnosesStore();
    }

    ghost function Lists(phase: PhaseRecord, record: TestRecord): World
      reads store, phase, record
    {
      World(store.diagnoses, record.diagnoses, phase.diagnosisResults, phase.failureDiagnosisResults)
    }

    /** One turn of the loop of execute_phase_diagnoser. */
    method AddForPhase(d: Diagnosis, phase: PhaseRecord, record: TestRecord)
      requires store.Valid()
      modifies store, phase, record
      ensures store.Valid() && Lists(phase, record) == AddAll(old(Lists(phase, record)), [d])
    {
      AddJustOne(Lists(phase, record), d);
      phase.AddDiagnosis(d);
      if !d.isInternal { record.diagnoses := record.diagnoses + [d]; }
      store.AddDiagnosis(d);
    }

    /** A diagnosis that is refused ends the run; the earlier ones stay where they were added. */
    method ExecutePhaseDiagnoser(diagnoser: Diagnoser, returned: Returned, phase: PhaseRecord, record: TestRecord)
      returns (error: Option<Error>)
      requires store.Valid()
      modifies store, phase, record
      ensures store.Valid()
      ensures Lists(phase, record) == AddAll(old(Lists(phase, record)), Yielded(returned, diagnoser, false))
      ensures error == Failure(returned, diagnoser, false)
    {
      ghost var before, seen: seq<Diagnosis> := Lists(phase, record), [];
      AddNone(before);
      if returned.Raised? { return Some(RunRaised); }
      if returned.NotIterable? { return Some(InvalidDiagnosis); }
      var es := ElementsOf(returned);
      ghost var added := Yielded(returned, diagnoser, false);
      GoodPrefixIsLongest(es, diagnoser, false);
      for i := 0 to |es|
        invariant |seen| == i && seen <= added && store.Valid()
        invariant Lists(phase, record) == AddAll(before, seen)
      {
        var converted := Converted(es[i], diagnoser);
        if converted.Err? {
          assert seen == added;
          return Some(converted.error);
        }
        assert added[i] == converted.value;
        AddForPhase(converted.value, phase, record);
        AddOneMore(before, seen, converted.value);
        seen := seen + [converted.value];
      }
      assert seen == added;
      return None;
    }

    method ExecuteTestDiagnoser(diagnoser: Diagnoser, returned: Returned, record: TestRecord)
      returns (error: Option<Error>)
      requires store.Valid()
      modifies store, record
      ensures store.Valid()
      ensures var added := Yielded(returned, diagnoser, true);
              store.diagnoses == old(store.diagnoses) + added && record.diagnoses == old(record.diagnoses) + added
      ensures error == Failure(returned, diagnoser, true)
    {
      if returned.Raised? { return Some(RunRaised); }
      if returned.NotIterable? { return Some(InvalidDiagnosis); }
      var es := ElementsOf(returned);
      ghost var added := Yielded(returned, diagnoser, true);
      GoodPrefixIsLongest(es, diagnoser, true);
      for i := 0 to |es|
        invariant i <= |added| && store.Valid()
        invariant store.diagnoses == old(store.diagnoses) + added[..i]
        invariant record.diagnoses == old(record.diagnoses) + added[..i]
      {
        var converted := Converted(es[i], diagnoser);
        if converted.Err? || converted.value.isInternal {
          assert added[..i] == added;
          return Some(if converted.Err? then converted.error else InvalidDiagnosis);
        }
        record.diagnoses := record.diagnoses + [converted.value];
        store.AddDiagnosis(converted.value);
      }
      assert added[..|es|] == added;
      return None;
    }
  }

  // ---------------------------------------------------------------- runs

  datatype Event =
    | RunPhaseDiagnoser(diagnoser: Diagnoser, returned: Returned)
    | RunTestDiagnoser(diagnoser: Diagnoser, returned: Returned)

  function Step(w: World, e: Event): World {
    match e
    case RunPhaseDiagnoser(diagnoser, returned) => AddAll(w, Yielded(returned, diagnoser, false))
    case RunTestDiagnoser(diagnoser, returned) =>
      var added := Yielded(returned, diagnoser, true);
      w.(store := w.store + added, record := w.record + added)
  }

  function Run(w: World, events: seq<Event>): World
    decreases |events|
  {
    if events == [] then w else Run(Step(w, events[0]), events[1..])
  }

  lemma {:induction false} ExternalOfExternal(ds: seq<Diagnosis>)
    requires forall i :: 0 <= i < |ds| ==> !ds[i].isInternal
    ensures External(ds) == ds
    decreases |ds|
  {
    if ds != [] {
      ExternalOfExternal(ds[..|ds| - 1]);
    }
  }

  lemma YieldedAreExternal(r: Returned, diagnoser: Diagnoser)
    ensures External(Yielded(r, diagnoser, true)) == Yielded(r, diagnoser, true)
  {
    GoodPrefixIsLongest(ElementsOf(r), diagnoser, true);
    ExternalOfExternal(Yielded(r, diagnoser, true));
  }

  /** `more` continues `before`. */
  ghost predicate Extends<T>(before: seq<T>, more: seq<T>) {
    |before| <= |more| && more[..|before|] == before
  }

  /**
    Over any run of diagnosers, including those that fail part-way through their list, the test
    record lists exactly the store's diagnoses that are not internal, in the same order, and the
    store only ever grows at its end.
   */
  lemma {:induction false} RecordIsStoreWithoutInternal(w: World, events: seq<Event>)
    requires w.record == External(w.store)
    ensures Run(w, events).record == External(Run(w, events).store)
    ensures Extends(w.store, Run(w, events).store)
    decreases |events|
  {
    if events != [] {
      var next := Step(w, events[0]);
      ExternalConcat(w.store, Yielded(events[0].returned, events[0].diagnoser, events[0].RunTestDiagnoser?));
      YieldedAreExternal(events[0].returned, events[0].diagnoser);
      RecordIsStoreWithoutInternal(next, events[1..]);
      assert Run(w, events).store[..|w.store|] == next.store[..|w.store|];
    }
  }

  /** Every failure result in the phase records comes from a stored failure, which the test record lists, too. */
  lemma {:induction false} FailuresAreRecorded(w: World, events: seq<Event>)
    requires w.record == External(w.store)
    requires forall r <- w.failures :: exists d <- w.record :: d.isFailure && d.result == r
    ensures forall r <- Run(w, events).failures :: exists d <- Run(w, events).record :: d.isFailure && d.result == r
    decreases |events|
  {
    if events != [] {
      var next := Step(w, events[0]);
      var added := Yielded(events[0].returned, events[0].diagnoser, events[0].RunTestDiagnoser?);
      ExternalConcat(w.store, added);
      YieldedAreExternal(events[0].returned, events[0].diagnoser);
      forall r <- next.failures ensures exists d <- next.record :: d.isFailure && d.result == r {
        if r in w.failures {
          var d :| d in w.record && d.isFailure && d.result == r;
          assert d in next.record;
        } else {
          FailureOf(added, r);
        }
      }
      FailuresAreRecorded(next, events[1..]);
    }
  }

  lemma {:induction false} FailureOf(ds: seq<Diagnosis>, r: DiagResult)
    requires r in ResultsOf(ds, true)
    ensures exists d <- External(ds) :: d.isFailure && d.result == r
    decreases |ds|
  {
    var last := ds[|ds| - 1];
    if last.isFailure && last.result == r {
      assert last in External(ds);
    } else {
      FailureOf(ds[..|ds| - 1], r);
      var d :| d in External(ds[..|ds| - 1]) && d.isFailure && d.result == r;
      assert d in External(ds);
    }
  }

  /**
    always_fail: everything such a diagnoser adds is a failure and not internal, and a run that
    returns an internal diagnosis of the right type raises, after adding those before it.
   */
  lemma AlwaysFailNeverInternal(diagnoser: Diagnoser, returned: Returned, testLevel: bool)
    requires diagnoser.alwaysFail
    ensures forall d <- Yielded(returned, diagnoser, testLevel) :: d.isFailure && !d.isInternal
    ensures (exists e <- ElementsOf(returned) :: e.ADiagnosis? && e.diagnosis.isInternal) ==>
              Failure(returned, diagnoser, testLevel).Some?
  {
    GoodPrefixIsLongest(ElementsOf(returned), diagnoser, testLevel);
  }

  // ---------------------------------------------------------------- conditions

  datatype ConditionOn = ALL | ANY | NOT_ANY | NOT_ALL

  datatype DiagnosisCondition = DiagnosisCondition(condition: ConditionOn, results: seq<DiagResult>)
  {
    /** Complement: the condition that holds exactly when this one does not. */
    function Negated(): DiagnosisCondition {
      match condition
      case ALL => this.(condition := NOT_ALL)
      case ANY => this.(condition := NOT_ANY)
      case NOT_ANY => this.(condition := ANY)
      case NOT_ALL => this.(condition := ALL)
    }
  }

  function HasEach(ds: seq<Diagnosis>, results: seq<DiagResult>): seq<bool> {
    seq(|results|, i requires 0 <= i < |results| => Has(ds, results[i]))
  }

  /** check: all or any over the answers of the store. */
  predicate Check(c: DiagnosisCondition, ds: seq<Diagnosis>) {
    var answers := HasEach(ds, c.results);
    match c.condition
    case ALL => false !in answers
    case ANY => true in answers
    case NOT_ANY => !(true in answers)
    case NOT_ALL => !(false !in answers)
  }

  /** In terms of the diagnoses: conditions go by the values of the results, not by their enumerations. */
  lemma CheckIff(c: DiagnosisCondition, ds: seq<Diagnosis>)
    ensures Check(c.Negated(), ds) <==> !Check(c, ds)
    ensures c.condition == ALL ==>
              (Check(c, ds) <==> forall r <- c.results :: exists d <- ds :: d.result.value == r.value)
    ensures c.condition == ANY ==>
              (Check(c, ds) <==> exists r <- c.results :: exists d <- ds :: d.result.value == r.value)
  {
    var answers := HasEach(ds, c.results);
    forall i | 0 <= i < |answers| ensures answers[i] <==> exists d <- ds :: d.result.value == c.results[i].value {
      if Has(ds, c.results[i]) {
        var k :| 0 <= k < |ds| && ds[k].result.value == c.results[i].value;
        assert ds[k] in ds;
      }
    }
    assert forall i :: 0 <= i < |answers| ==> c.results[i] in c.results;
    if false !in answers {
      forall r <- c.results ensures exists d <- ds :: d.result.value == r.value {
        var i :| 0 <= i < |c.results| && c.results[i] == r;
        assert answers[i] in answers;
      }
    }
  }

  /** Once true, ALL and ANY stay true over the rest of any run; NOT_ALL and NOT_ANY, once false, stay false. */
  lemma ConditionsAreMonotone(c: DiagnosisCondition, w: World, events: seq<Event>)
    requires w.record == External(w.store)
    ensures c.condition in {ALL, ANY} ==> Check(c, w.store) ==> Check(c, Run(w, events).store)
    ensures c.condition in {NOT_ALL, NOT_ANY} ==> !Check(c, w.store) ==> !Check(c, Run(w, events).store)
  {
    RecordIsStoreWithoutInternal(w, events);
    var before, later := HasEach(w.store, c.results), HasEach(Run(w, events).store, c.results);
    forall i | 0 <= i < |before| && before[i] ensures later[i] {
      var k :| 0 <= k < |w.store| && w.store[k].result.value == c.results[i].value;
      assert Run(w, events).store[k] == w.store[k];
    }
  }
}
