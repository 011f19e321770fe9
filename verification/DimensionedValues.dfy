/** measurements.py, DimensionedMeasuredValue: the values of a dimensioned measurement and the cache of their rows. */
module DimensionedValues {
  import opened Prelude

  // ---------------------------------------------------------------- data

  /** Python values as coordinates and as measured values. */
  datatype Value =
    /** An int, a finite float or a bool: they are equal if their values are. */
    | Num(n: real)
    /** None */
    | NoValue
    | Text(s: string)
    | Tuple(elements: seq<Value>)
    /** Hashable, with a length, and not a tuple: bytes, a frozenset. */
    | Sized(id: int, length: nat)
    /** Not hashable: a list, a dict. */
    | Mutable(id: int, length: nat)

  datatype Error = InvalidDimensions | TransformRaised | TypeError

  type Row = seq<Value>

  /** An ordered dictionary, oldest key first. */
  type Dict = seq<(Value, Value)>

  datatype State = State(dict: Dict, cache: Option<seq<Row>>)

  datatype Config = Config(numDimensions: nat, transform: Option<Value -> Option<Value>>, convert: Row -> Row)

  function CoordinatesLen(coordinates: Value): nat {
    match coordinates
    case Num(_) => 1
    case NoValue => 1
    case Text(_) => 1
    case Tuple(elements) => |elements|
    case Sized(_, length) => length
    case Mutable(_, length) => length
  }

  predicate Hashable(v: Value) {
    match v
    case Mutable(_, _) => false
    case Tuple(elements) => forall i :: 0 <= i < |elements| ==> Hashable(elements[i])
    case _ => true
  }

  // ---------------------------------------------------------------- the ordered dictionary

  predicate HasKey(d: Dict, key: Value) {
    d != [] && (d[|d| - 1].0 == key || HasKey(d[..|d| - 1], key))
  }

  /** Assigning to a key: in place if it is known, at the end if it is new. */
  function Store(d: Dict, key: Value, v: Value): Dict {
    if d == [] then [(key, v)]
    else
      var n := |d| - 1;
      if d[n].0 == key then d[..n] + [(key, v)]
      else if HasKey(d[..n], key) then Store(d[..n], key, v) + [d[n]]
      else d + [(key, v)]
  }

  ghost predicate DistinctKeys(d: Dict) {
    forall i, j :: 0 <= i < j < |d| ==> d[i].0 != d[j].0
  }

  lemma {:induction false} HasKeyIff(d: Dict, key: Value)
    ensures HasKey(d, key) <==> exists i :: 0 <= i < |d| && d[i].0 == key
    decreases |d|
  {
    if d != [] {
      HasKeyIff(d[..|d| - 1], key);
    }
  }

  /** r is d with the value under the key, in place if the key is in d, at the end otherwise. */
  ghost predicate IsStored(d: Dict, key: Value, v: Value, r: Dict) {
    && DistinctKeys(r)
    && |r| == (if HasKey(d, key) then |d| else |d| + 1)
    && (forall i :: 0 <= i < |d| ==> r[i] == if d[i].0 == key then (key, v) else d[i])
    && (!HasKey(d, key) ==> r[|d|] == (key, v))
  }

  lemma StoredBehind(d: Dict, key: Value, v: Value, last: (Value, Value), r: Dict)
    requires DistinctKeys(d + [last]) && last.0 != key && HasKey(d, key) && IsStored(d, key, v, r)
    ensures IsStored(d + [last], key, v, r + [last])
  {
    HasKeyIff(d + [last], key);
    HasKeyIff(d, key);
    forall i | 0 <= i < |d| ensures r[i].0 != last.0 {
      assert (d + [last])[i].0 != (d + [last])[|d|].0;
    }
  }

  lemma StoredNew(d: Dict, key: Value, v: Value)
    requires DistinctKeys(d) && !HasKey(d, key)
    ensures IsStored(d, key, v, d + [(key, v)])
  {
    HasKeyIff(d, key);
  }

  lemma StoredLast(d: Dict, key: Value, v: Value, last: (Value, Value))
    requires DistinctKeys(d + [last]) && last.0 == key
    ensures IsStored(d + [last], key, v, d + [(key, v)])
  {
    HasKeyIff(d + [last], key);
    assert forall i :: 0 <= i <= |d| ==> (d + [last])[i].0 == (d + [(key, v)])[i].0;
  }

  /** Overriding keeps every key in its place; a new key goes to the end; other values stay. */
  lemma {:induction false} StoreKeepsOrder(d: Dict, key: Value, v: Value)
    requires DistinctKeys(d)
    ensures IsStored(d, key, v, Store(d, key, v))
    decreases |d|
  {
    if d == [] {
      StoredNew(d, key, v);
    } else {
      var n := |d| - 1;
      assert d == d[..n] + [d[n]];
      if d[n].0 == key {
        StoredLast(d[..n], key, v, d[n]);
      } else if HasKey(d[..n], key) {
        StoreKeepsOrder(d[..n], key, v);
        StoredBehind(d[..n], key, v, d[n], Store(d[..n], key, v));
      } else {
        StoredNew(d, key, v);
      }
    }
  }

  // ---------------------------------------------------------------- specification

  /** The key that coordinates are stored under: single coordinates are wrapped. */
  function KeyOf(c: Config, coordinates: Value): Value {
    if c.numDimensions == 1 then Tuple([coordinates]) else coordinates
  }

  function Transformed(c: Config, v: Value): Option<Value> {
    if c.transform.None? then Some(v) else c.transform.value(v)
  }

  /** The row of an entry: `key + (value,)`, a TypeError for keys that are no tuples. */
  function RowOf(key: Value, v: Value): Option<Row> {
    if key.Tuple? then Some(key.elements + [v]) else None
  }

  function RowsOf(d: Dict): Option<seq<Row>> {
    if d == [] then Some([])
    else
      var n := |d| - 1;
      match (RowsOf(d[..n]), RowOf(d[n].0, d[n].1))
      case (Some(rows), Some(row)) => Some(rows + [row])
      case _ => None
  }

  function Converted(c: Config, rows: seq<Row>): seq<Row> {
    seq(|rows|, i requires 0 <= i < |rows| => c.convert(rows[i]))
  }

  function SetItemSpec(c: Config, s: State, coordinates: Value, v: Value): (State, Option<Error>) {
    var key := KeyOf(c, coordinates);
    if CoordinatesLen(coordinates) != c.numDimensions || !Hashable(key) then (s, Some(InvalidDimensions))
    else if !HasKey(s.dict, key) && s.cache.Some? && !key.Tuple? then (s, Some(InvalidDimensions))
    else
      var cache := if HasKey(s.dict, key) then None
                   else if s.cache.Some? then Some(s.cache.value + [c.convert(key.elements + [v])])
                   else None;
      if Transformed(c, v).None? then (State(s.dict, cache), Some(TransformRaised))
      else (State(Store(s.dict, key, Transformed(c, v).value), cache), None)
  }

  /** basetype_value: fills the cache if it is gone. */
  function ReadSpec(c: Config, s: State): (State, Result<seq<Row>, Error>) {
    if s.cache.Some? then (s, Ok(s.cache.value))
    else if RowsOf(s.dict).None? then (s, Err(TypeError))
    else
      var rows := Converted(c, RowsOf(s.dict).value);
      (State(s.dict, Some(rows)), Ok(rows))
  }

  // ---------------------------------------------------------------- the class

  class DimensionedMeasuredValue {
    const config: Config
    var valueDict: Dict
    /** None once a value was overridden, until the next read. */
    var cachedBasetypeValues: Option<seq<Row>>

    constructor (config: Config)
      ensures this.config == config && Contents() == State([], Some([]))
    {
      this.config := config;
      valueDict := [];
      cachedBasetypeValues := Some([]);
    }

    function Contents(): State
      reads this
    {
      State(valueDict, cachedBasetypeValues)
    }

    method SetItem(coordinates: Value, value: Value) returns (error: Option<Error>)
      modifies this
      ensures (Contents(), error) == SetItemSpec(config, old(Contents()), coordinates, value)
    {
      var length := CoordinatesLen(coordinates);
      if length != config.numDimensions { return Some(InvalidDimensions); }
      var key := coordinates;
      if config.numDimensions == 1 { key := Tuple([coordinates]); }
      if !Hashable(key) { return Some(InvalidDimensions); }
      if HasKey(valueDict, key) {
        cachedBasetypeValues := None;
      } else if cachedBasetypeValues != None {
        if !key.Tuple? { return Some(InvalidDimensions); }
        cachedBasetypeValues := Some(cachedBasetypeValues.value + [config.convert(key.elements + [value])]);
      }
      var v := value;
      if config.transform.Some? {
        match config.transform.value(value) {
          case None => return Some(TransformRaised);
          case Some(t) => v := t;
        }
      }
      valueDict := Store(valueDict, key, v);
      return None;
    }

    method BasetypeValue() returns (r: Result<seq<Row>, Error>)
      modifies this
      ensures (Contents(), r) == ReadSpec(config, old(Contents()))
    {
      if cachedBasetypeValues == None {
        var rows: seq<Row> := [];
        for i := 0 to |valueDict|
          invariant RowsOf(valueDict[..i]).Some? && rows == Converted(config, RowsOf(valueDict[..i]).value)
        {
          var (key, value) := valueDict[i];
          assert valueDict[..i + 1][..i] == valueDict[..i];
          if !key.Tuple? {
            RowsNeedTuples(valueDict, i);
            return Err(TypeError);
          }
          rows := rows + [config.convert(key.elements + [value])];
        }
        assert valueDict[..|valueDict|] == valueDict;
        cachedBasetypeValues := Some(rows);
      }
      return Ok(cachedBasetypeValues.value);
    }
  }

  lemma {:induction false} RowsNeedTuples(d: Dict, i: nat)
    requires i < |d| && !d[i].0.Tuple?
    ensures RowsOf(d).None?
    decreases |d|
  {
    if i < |d| - 1 {
      RowsNeedTuples(d[..|d| - 1], i);
    }
  }

  // ---------------------------------------------------------------- one assignment

  /** As many coordinates as there are dimensions: a text, a number or None is one, whatever its length. */
  predicate FitsDimensions(n: nat, coordinates: Value) {
    match coordinates
    case Tuple(elements) => |elements| == n
    case Sized(_, length) => length == n
    case Mutable(_, length) => length == n
    case _ => n == 1
  }

  /** Somewhere in the nested tuples there is something that cannot be hashed. */
  predicate HasMutable(v: Value) {
    v.Mutable? || (v.Tuple? && exists i :: 0 <= i < |v.elements| && HasMutable(v.elements[i]))
  }

  lemma {:induction false} HashableIff(v: Value)
    ensures Hashable(v) <==> !HasMutable(v)
  {
    if v.Tuple? {
      forall i | 0 <= i < |v.elements| ensures Hashable(v.elements[i]) <==> !HasMutable(v.elements[i]) {
        HashableIff(v.elements[i]);
      }
    }
  }

  ghost predicate IsKnown(d: Dict, key: Value) {
    exists i :: 0 <= i < |d| && d[i].0 == key
  }

  /** The assignment is refused: the coordinates do not fit, or cannot be a key, or cannot make a row of the cache. */
  ghost predicate Refused(c: Config, s: State, coordinates: Value) {
    || !FitsDimensions(c.numDimensions, coordinates) || HasMutable(coordinates)
    || (coordinates.Sized? && c.numDimensions != 1 && s.cache.Some? && !IsKnown(s.dict, coordinates))
  }

  /**
    An assignment stores the transformed value under the coordinates, wrapped if there is one
    dimension, or raises exactly as stated, and leaves the dictionary alone. The cache is gone
    afterwards exactly if it was before or the coordinates were known.
   */
  lemma SetItemIff(c: Config, s: State, coordinates: Value, v: Value)
    requires DistinctKeys(s.dict)
    ensures var (next, error) := SetItemSpec(c, s, coordinates, v);
            var key := if c.numDimensions == 1 then Tuple([coordinates]) else coordinates;
            && (error == Some(InvalidDimensions) <==> Refused(c, s, coordinates))
            && (error == Some(TransformRaised) <==>
                  !Refused(c, s, coordinates) && c.transform.Some? && c.transform.value(v) == None)
            && (error.Some? ==> next.dict == s.dict)
            && (error.None? ==>
                  IsStored(s.dict, key, if c.transform.None? then v else c.transform.value(v).value, next.dict))
            && (next.cache == None <==> s.cache == None || (!Refused(c, s, coordinates) && IsKnown(s.dict, key)))
  {
    var key := KeyOf(c, coordinates);
    HasKeyIff(s.dict, key);
    KeyHashable(c, coordinates);
    if Transformed(c, v).Some? {
      StoreKeepsOrder(s.dict, key, Transformed(c, v).value);
    }
  }

  lemma KeyHashable(c: Config, coordinates: Value)
    ensures Hashable(KeyOf(c, coordinates)) <==> !HasMutable(coordinates)
    ensures CoordinatesLen(coordinates) == c.numDimensions <==> FitsDimensions(c.numDimensions, coordinates)
    ensures FitsDimensions(c.numDimensions, coordinates) && !HasMutable(coordinates) ==>
              (!KeyOf(c, coordinates).Tuple? <==> coordinates.Sized? && c.numDimensions != 1)
  {
    HashableIff(coordinates);
    if c.numDimensions == 1 {
      var key := KeyOf(c, coordinates);
      assert key.elements[0] == coordinates;
      assert Hashable(key) <==> Hashable(coordinates);
    }
  }

  // ---------------------------------------------------------------- the cache agrees with the values

  ghost predicate TupleKeys(d: Dict) {
    forall i :: 0 <= i < |d| ==> d[i].0.Tuple?
  }

  lemma {:induction false} RowsOfTuples(d: Dict)
    ensures RowsOf(d).Some? <==> TupleKeys(d)
    ensures RowsOf(d).Some? ==>
              && |RowsOf(d).value| == |d|
              && forall i :: 0 <= i < |d| ==> RowsOf(d).value[i] == d[i].0.elements + [d[i].1]
    decreases |d|
  {
    if d != [] {
      RowsOfTuples(d[..|d| - 1]);
      if TupleKeys(d) {
        assert TupleKeys(d[..|d| - 1]);
      }
    }
  }

  /** If there is a cache, it holds the converted row of every entry, in order. */
  ghost predicate Agrees(c: Config, s: State) {
    s.cache.Some? ==> RowsOf(s.dict).Some? && s.cache.value == Converted(c, RowsOf(s.dict).value)
  }

  /** The assignment adds new coordinates and reaches the cache. */
  predicate Appends(c: Config, s: State, coordinates: Value) {
    var key := KeyOf(c, coordinates);
    && CoordinatesLen(coordinates) == c.numDimensions && Hashable(key)
    && !HasKey(s.dict, key) && s.cache.Some? && key.Tuple?
  }

  predicate Overrides(c: Config, s: State, coordinates: Value) {
    var key := KeyOf(c, coordinates);
    CoordinatesLen(coordinates) == c.numDimensions && Hashable(key) && HasKey(s.dict, key)
  }

  /** The transform makes no difference to the converted row. */
  predicate RowSurvivesTransform(c: Config, coordinates: Value, v: Value) {
    var key := KeyOf(c, coordinates);
    && key.Tuple? && Transformed(c, v).Some?
    && c.convert(key.elements + [v]) == c.convert(key.elements + [Transformed(c, v).value])
  }

  lemma {:induction false} StoreNew(d: Dict, key: Value, v: Value)
    requires !HasKey(d, key)
    ensures Store(d, key, v) == d + [(key, v)]
  {
  }

  lemma AppendedRow(c: Config, d: Dict, key: Value, v: Value)
    requires !HasKey(d, key) && key.Tuple? && RowsOf(d).Some?
    ensures RowsOf(Store(d, key, v)).Some?
    ensures Converted(c, RowsOf(Store(d, key, v)).value) ==
            Converted(c, RowsOf(d).value) + [c.convert(key.elements + [v])]
  {
    StoreNew(d, key, v);
    assert (d + [(key, v)])[..|d|] == d;
  }

  /**
    An assignment leaves an agreeing cache in agreement with the values if and only if it does not
    append a row that the transform changes, or fails to compute: the cache gets the value before
    the transform.
   */
  lemma AgreesAfterSetIff(c: Config, s: State, coordinates: Value, v: Value)
    requires Agrees(c, s)
    ensures Agrees(c, SetItemSpec(c, s, coordinates, v).0) <==>
            (Appends(c, s, coordinates) ==> RowSurvivesTransform(c, coordinates, v))
  {
    var key := KeyOf(c, coordinates);
    if Appends(c, s, coordinates) {
      var rows, row := Converted(c, RowsOf(s.dict).value), c.convert(key.elements + [v]);
      var t := Transformed(c, v);
      assert s.cache.value == rows && |rows + [row]| == |rows| + 1;
      if t.Some? {
        AppendedRow(c, s.dict, key, t.value);
        var row2 := c.convert(key.elements + [t.value]);
        assert (rows + [row])[|rows|] == row && (rows + [row2])[|rows|] == row2;
      }
    }
  }

  /** What a cache keeps even when it disagrees: it never has too few rows. */
  ghost predicate CacheInv(s: State) {
    DistinctKeys(s.dict) && (s.cache.Some? ==> TupleKeys(s.dict) && |s.cache.value| >= |s.dict|)
  }

  lemma SetKeepsCacheInv(c: Config, s: State, coordinates: Value, v: Value)
    requires CacheInv(s)
    ensures CacheInv(SetItemSpec(c, s, coordinates, v).0)
  {
    if Transformed(c, v).Some? {
      StoreKeepsOrder(s.dict, KeyOf(c, coordinates), Transformed(c, v).value);
    }
  }

  lemma ReadKeepsCacheInv(c: Config, s: State)
    requires CacheInv(s)
    ensures CacheInv(ReadSpec(c, s).0) && (Agrees(c, ReadSpec(c, s).0) <==> Agrees(c, s))
  {
    RowsOfTuples(s.dict);
  }

  /** A cache that disagrees with the values does so until known coordinates are overridden. */
  lemma DisagreementEndsIff(c: Config, s: State, coordinates: Value, v: Value)
    requires CacheInv(s) && !Agrees(c, s)
    ensures Agrees(c, SetItemSpec(c, s, coordinates, v).0) <==> Overrides(c, s, coordinates)
  {
    if Appends(c, s, coordinates) {
      var key, t, rows := KeyOf(c, coordinates), Transformed(c, v), s.cache.value;
      var more := rows + [c.convert(key.elements + [v])];
      RowsOfTuples(s.dict);
      if t.Some? {
        AppendedRow(c, s.dict, key, t.value);
        if |rows| == |s.dict| {
          assert more[..|rows|] == rows;
          var good := Converted(c, RowsOf(s.dict).value);
          assert (good + [c.convert(key.elements + [t.value])])[..|rows|] == good;
        }
      }
    }
  }

  // ---------------------------------------------------------------- runs

  datatype Op = Set(coordinates: Value, value: Value) | Read

  function Step(c: Config, s: State, op: Op): State {
    match op
    case Set(coordinates, v) => SetItemSpec(c, s, coordinates, v).0
    case Read => ReadSpec(c, s).0
  }

  function Run(c: Config, s: State, ops: seq<Op>): State
    decreases |ops|
  {
    if ops == [] then s else Run(c, Step(c, s, ops[0]), ops[1..])
  }

  /** Does the cache agree in the end: is the transform harmless for every row appended since the last override? */
  predicate HarmlessSinceOverride(c: Config, s: State, ops: seq<Op>, agrees: bool)
    decreases |ops|
  {
    if ops == [] then agrees
    else
      var now := match ops[0]
        case Read => agrees
        case Set(coordinates, v) =>
          if Overrides(c, s, coordinates) then true
          else agrees && (Appends(c, s, coordinates) ==> RowSurvivesTransform(c, coordinates, v));
      HarmlessSinceOverride(c, Step(c, s, ops[0]), ops[1..], now)
  }

  /**
    After any run of assignments and reads, with or without a transform, the cache agrees with the
    values if and only if every row appended since the last override is one the transform does not change.
   */
  lemma {:induction false} CacheAgreesIff(c: Config, s: State, ops: seq<Op>)
    requires CacheInv(s)
    ensures CacheInv(Run(c, s, ops))
    ensures Agrees(c, Run(c, s, ops)) <==> HarmlessSinceOverride(c, s, ops, Agrees(c, s))
    decreases |ops|
  {
    if ops != [] {
      var next := Step(c, s, ops[0]);
      match ops[0] {
        case Read => ReadKeepsCacheInv(c, s);
        case Set(coordinates, v) =>
          SetKeepsCacheInv(c, s, coordinates, v);
          if Agrees(c, s) {
            AgreesAfterSetIff(c, s, coordinates, v);
          } else {
            DisagreementEndsIff(c, s, coordinates, v);
          }
      }
      CacheAgreesIff(c, next, ops[1..]);
    }
  }

  lemma {:induction false} HarmlessWithoutTransform(c: Config, s: State, ops: seq<Op>)
    requires c.transform.None?
    ensures HarmlessSinceOverride(c, s, ops, true)
    decreases |ops|
  {
    if ops != [] {
      HarmlessWithoutTransform(c, Step(c, s, ops[0]), ops[1..]);
    }
  }

  /**
    Without a transform, after any run, basetype_value() answers the converted row of every entry of
    the dictionary, in the order of first assignment, or a TypeError if some key is no tuple.
   */
  lemma CacheAgrees(c: Config, ops: seq<Op>)
    requires c.transform.None?
    ensures var last := Run(c, State([], Some([])), ops);
            && DistinctKeys(last.dict)
            && (TupleKeys(last.dict) ==>
                RowsOf(last.dict).Some? && ReadSpec(c, last).1 == Ok(Converted(c, RowsOf(last.dict).value)))
            && (!TupleKeys(last.dict) ==> ReadSpec(c, last).1 == Err(TypeError))
  {
    var start := State([], Some([]));
    CacheAgreesIff(c, start, ops);
    HarmlessWithoutTransform(c, start, ops);
    RowsOfTuples(Run(c, start, ops).dict);
  }

  /** A key that is no tuple gets in only while the cache is gone. */
  lemma TupleKeysAfterSetIff(c: Config, s: State, coordinates: Value, v: Value)
    requires TupleKeys(s.dict) && DistinctKeys(s.dict)
    ensures TupleKeys(SetItemSpec(c, s, coordinates, v).0.dict) <==>
            !(&& c.numDimensions != 1 && coordinates.Sized? && coordinates.length == c.numDimensions
              && s.cache.None? && Transformed(c, v).Some?)
  {
    var key := KeyOf(c, coordinates);
    HasKeyIff(s.dict, key);
    if CoordinatesLen(coordinates) == c.numDimensions && Hashable(key) && Transformed(c, v).Some? {
      StoreKeepsOrder(s.dict, key, Transformed(c, v).value);
    }
  }

  function AlwaysOne(): Config {
    Config(1, Some((v: Value) => Some(Num(1.0))), (row: Row) => row)
  }

  /** With a transform the cache keeps the value as it was given: 0 where 1 is stored. */
  lemma TransformExample()
    ensures var s := Step(AlwaysOne(), State([], Some([])), Set(Num(7.0), Num(0.0)));
            s == State([(Tuple([Num(7.0)]), Num(1.0))], Some([[Num(7.0), Num(0.0)]])) && !Agrees(AlwaysOne(), s)
  {
    var s := Step(AlwaysOne(), State([], Some([])), Set(Num(7.0), Num(0.0)));
    var key, c := Tuple([Num(7.0)]), AlwaysOne();
    assert KeyOf(c, Num(7.0)) == key && CoordinatesLen(Num(7.0)) == c.numDimensions;
    assert Hashable(key);
    assert Transformed(c, Num(0.0)) == Some(Num(1.0));
    assert key.elements + [Num(0.0)] == [Num(7.0), Num(0.0)];
    assert s.cache.value == [[Num(7.0), Num(0.0)]];
    assert s.dict == [(key, Num(1.0))];
    assert RowsOf(s.dict).value[0] == [Num(7.0)] + [Num(1.0)] by { assert s.dict[..0] == []; }
    assert s.cache.value[0][1] == Num(0.0);
  }

  function Plain(numDimensions: nat): Config {
    Config(numDimensions, None, (row: Row) => row)
  }

  const PAIR: Value := Tuple([Num(1.0), Num(2.0)])

  lemma SetPair(v: Value)
    ensures Step(Plain(2), State([], Some([])), Set(PAIR, v)).dict == [(PAIR, v)]
  {
    assert |PAIR.elements| == 2 && Hashable(PAIR);
    StoreNew([], PAIR, v);
  }

  lemma OverridePair(s: State, v: Value)
    requires s.dict == [(PAIR, v)]
    ensures Step(Plain(2), s, Set(PAIR, v)) == State([(PAIR, v)], None)
  {
    assert |PAIR.elements| == 2 && Hashable(PAIR);
    assert s.dict[..0] == [];
    assert Store(s.dict, PAIR, v) == [(PAIR, v)];
  }

  lemma AddOddKey(id: int, v: Value)
    ensures Step(Plain(2), State([(PAIR, v)], None), Set(Sized(id, 2), v)).dict == [(PAIR, v), (Sized(id, 2), v)]
  {
    var d: Dict := [(PAIR, v)];
    assert d[..0] == [] && !HasKey(d, Sized(id, 2));
    StoreNew(d, Sized(id, 2), v);
  }

  /** Set, overridden, and then joined by a key that is no tuple: the next read is a TypeError. */
  lemma BytesAfterOverrideExample(id: int, v: Value)
    ensures var last := Run(Plain(2), State([], Some([])), [Set(PAIR, v), Set(PAIR, v), Set(Sized(id, 2), v)]);
            !TupleKeys(last.dict) && ReadSpec(Plain(2), last).1 == Err(TypeError)
  {
    var c, odd := Plain(2), Set(Sized(id, 2), v);
    var s0 := State([], Some([]));
    var s1 := Step(c, s0, Set(PAIR, v));
    var s2 := State([(PAIR, v)], None);
    var s3 := Step(c, s2, odd);
    SetPair(v);
    OverridePair(s1, v);
    AddOddKey(id, v);
    RunOfThree(c, s0, Set(PAIR, v), Set(PAIR, v), odd);
    assert s3.dict[1].0 == odd.coordinates && s3.cache == None;
    RowsOfTuples(s3.dict);
  }

  lemma RunOfThree(c: Config, s: State, first: Op, second: Op, third: Op)
    ensures Run(c, s, [first, second, third]) == Step(c, Step(c, Step(c, s, first), second), third)
  {
    var ops := [first, second, third];
    assert ops[1..] == [second, third] && ops[1..][1..] == [third] && ops[1..][1..][1..] == [];
    var s1 := Step(c, s, first);
    var s2 := Step(c, s1, second);
    assert Run(c, s, ops) == Run(c, s1, [second, third]) == Run(c, s2, [third]);
  }
}
