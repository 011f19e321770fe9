/** configuration.py: declared keys, layered values, and save_and_restore around arbitrary bodies. */
module Configuration {
  import opened Prelude

  type Value = int

  datatype ReadError = InvalidKey | KeyAlreadyDeclared | UndeclaredKey | UnsetKey | ConfigurationInvalid

  /** default_value, None for NOT_SET */
  datatype Declaration = Declaration(default: Option<Value>)

  datatype State = State(declarations: map<string, Declaration>, loaded: map<string, Value>)

  // ---------------------------------------------------------------- specification

  predicate IsValidKey(key: string) {
    key != [] && 'a' <= key[0] <= 'z'
  }

  /** __getitem__: flag values before loaded values before defaults. */
  function Read(flags: map<string, Value>, s: State, key: string): Result<Value, ReadError> {
    if key !in s.declarations then Err(UndeclaredKey)
    else if key in flags then Ok(flags[key])
    else if key in s.loaded then Ok(s.loaded[key])
    else if s.declarations[key].default.Some? then Ok(s.declarations[key].default.value)
    else Err(UnsetKey)
  }

  predicate Accepts(s: State, override: bool, allowUndeclared: bool, key: string) {
    (key in s.declarations || allowUndeclared) && (key in s.loaded ==> override)
  }

  /** The loaded values once the given keys of the dictionary were looked at. */
  function LoadedAfter(
      s: State, dictionary: map<string, Value>, override: bool, allowUndeclared: bool,
      seen: set<string>): map<string, Value> {
    s.loaded + map k | k in dictionary && k in seen && Accepts(s, override, allowUndeclared, k) :: dictionary[k]
  }

  lemma LoadNext(
      s: State, dictionary: map<string, Value>, override: bool, allowUndeclared: bool, seen: set<string>, key: string)
    requires key in dictionary && key !in seen
    ensures var before, after := LoadedAfter(s, dictionary, override, allowUndeclared, seen),
                                 LoadedAfter(s, dictionary, override, allowUndeclared, seen + {key});
            && after == (if Accepts(s, override, allowUndeclared, key) then before[key := dictionary[key]] else before)
            && (key in before <==> key in s.loaded)
  {
    var before, after := LoadedAfter(s, dictionary, override, allowUndeclared, seen),
                         LoadedAfter(s, dictionary, override, allowUndeclared, seen + {key});
    var expected := if Accepts(s, override, allowUndeclared, key) then before[key := dictionary[key]] else before;
    assert after.Keys == expected.Keys;
    assert forall k <- after :: after[k] == expected[k];
  }

  lemma LoadNone(s: State, dictionary: map<string, Value>, override: bool, allowUndeclared: bool)
    ensures LoadedAfter(s, dictionary, override, allowUndeclared, {}) == s.loaded
  {
  }

  lemma LoadAll(s: State, dictionary: map<string, Value>, override: bool, allowUndeclared: bool)
    ensures LoadedAfter(s, dictionary, override, allowUndeclared, dictionary.Keys) ==
            LoadSpec(s, dictionary, override, allowUndeclared).loaded
  {
    var all := LoadedAfter(s, dictionary, override, allowUndeclared, dictionary.Keys);
    var expected := LoadSpec(s, dictionary, override, allowUndeclared).loaded;
    assert all.Keys == expected.Keys && forall k <- all :: all[k] == expected[k];
  }

  function FlagsOver(
      s: State, flags: map<string, Value>, start: map<string, Value>, seen: set<string>): map<string, Value> {
    start + map k | k in flags && k in seen && k in s.declarations :: flags[k]
  }

  lemma FlagNext(s: State, flags: map<string, Value>, start: map<string, Value>, seen: set<string>, key: string)
    requires key in flags && key !in seen
    ensures var before := FlagsOver(s, flags, start, seen);
            FlagsOver(s, flags, start, seen + {key}) ==
            if key in s.declarations then before[key := flags[key]] else before
  {
    var before, after := FlagsOver(s, flags, start, seen), FlagsOver(s, flags, start, seen + {key});
    var expected := if key in s.declarations then before[key := flags[key]] else before;
    assert after.Keys == expected.Keys;
    assert forall k <- after :: after[k] == expected[k];
  }

  lemma FlagNone(s: State, flags: map<string, Value>, start: map<string, Value>)
    ensures FlagsOver(s, flags, start, {}) == start
  {
  }

  lemma FlagAll(s: State, flags: map<string, Value>)
    ensures FlagsOver(s, flags, Defaults(s) + s.loaded, flags.Keys) == AsDictSpec(flags, s)
  {
    var all, expected := FlagsOver(s, flags, Defaults(s) + s.loaded, flags.Keys), AsDictSpec(flags, s);
    assert all.Keys == expected.Keys && forall k <- all :: all[k] == expected[k];
  }

  function Defaults(s: State): map<string, Value> {
    map k | k in s.declarations && s.declarations[k].default.Some? :: s.declarations[k].default.value
  }

  function LoadSpec(s: State, dictionary: map<string, Value>, override: bool, allowUndeclared: bool): State {
    s.(loaded := s.loaded + map k | k in dictionary && Accepts(s, override, allowUndeclared, k) :: dictionary[k])
  }

  function DeclareSpec(s: State, name: string, default: Option<Value>): (State, Option<ReadError>) {
    if !IsValidKey(name) then (s, Some(InvalidKey))
    else if name in s.declarations then (s, Some(KeyAlreadyDeclared))
    else (s.(declarations := s.declarations[name := Declaration(default)]), None)
  }

  /** What reading --config-file answers: no file, its dictionary, or content that is none. */
  datatype ConfigFile = NoFile | Contents(dictionary: map<string, Value>) | NotADictionary

  function ResetSpec(s: State, file: ConfigFile): (State, Option<ReadError>) {
    var empty := s.(loaded := map[]);
    match file
    case NoFile => (empty, None)
    case Contents(d) => (LoadSpec(empty, d, true, true), None)
    case NotADictionary => (empty, Some(ConfigurationInvalid))
  }

  function AsDictSpec(flags: map<string, Value>, s: State): map<string, Value> {
    Defaults(s) + s.loaded + (map k | k in flags && k in s.declarations :: flags[k])
  }

  // ---------------------------------------------------------------- programs

  /** What a function can do to the configuration; SaveAndRestore calls a wrapped function. */
  datatype Op =
    | Load(dictionary: map<string, Value>, override: bool, allowUndeclared: bool)
    | Declare(name: string, default: Option<Value>)
    | Reset(file: ConfigFile)
    | Raise
    | Try(body: seq<Op>)
    | SaveAndRestore(values: map<string, Value>, body: seq<Op>)

  datatype Outcome = Outcome(state: State, raised: bool)

  /** The state in which a wrapped function starts. */
  function InsideSpec(s: State, values: map<string, Value>): State {
    LoadSpec(s, values, true, false)
  }

  function ExecOp(s: State, op: Op): Outcome
    decreases op
  {
    match op
    case Load(d, override, allowUndeclared) => Outcome(LoadSpec(s, d, override, allowUndeclared), false)
    case Declare(name, default) => var (s1, e) := DeclareSpec(s, name, default); Outcome(s1, e.Some?)
    case Reset(file) => var (s1, e) := ResetSpec(s, file); Outcome(s1, e.Some?)
    case Raise => Outcome(s, true)
    case Try(body) => Outcome(Exec(s, body).state, false)
    case SaveAndRestore(values, body) =>
      var r := Exec(InsideSpec(s, values), body);
      Outcome(r.state.(loaded := s.loaded), r.raised)
  }

  function Exec(s: State, ops: seq<Op>): Outcome
    decreases ops
  {
    if ops == [] then Outcome(s, false)
    else
      var first := ExecOp(s, ops[0]);
      if first.raised then first else Exec(first.state, ops[1..])
  }

  // ---------------------------------------------------------------- the classes

  /** A dictionary object: what is shared when it is assigned, and not when it is copied. */
  class Dict {
    var entries: map<string, Value>

    constructor (entries: map<string, Value>)
      ensures this.entries == entries
    {
      this.entries := entries;
    }
  }

  class Conf {
    const flagValues: map<string, Value>
    var declarations: map<string, Declaration>
    var loadedValues: Dict

    constructor (flagValues: map<string, Value>)
      ensures this.flagValues == flagValues && Contents() == State(map[], map[]) && fresh(loadedValues)
    {
      this.flagValues := flagValues;
      declarations := map[];
      loadedValues := new Dict(map[]);
    }

    function Contents(): State
      reads this, loadedValues
    {
      State(declarations, loadedValues.entries)
    }

    method GetItem(item: string) returns (r: Result<Value, ReadError>)
      ensures r == Read(flagValues, Contents(), item)
    {
      if item !in declarations { return Err(UndeclaredKey); }
      if item in flagValues { return Ok(flagValues[item]); }
      if item in loadedValues.entries { return Ok(loadedValues.entries[item]); }
      if declarations[item].default.Some? { return Ok(declarations[item].default.value); }
      return Err(UnsetKey);
    }

    /** `name in CONF`: exactly when reading it does not raise. */
    method Contains(name: string) returns (r: bool)
      ensures r == Read(flagValues, Contents(), name).Ok?
    {
      r := name in declarations &&
        (declarations[name].default.Some? || name in loadedValues.entries || name in flagValues);
    }

    method AsDict() returns (r: map<string, Value>)
      ensures r == AsDictSpec(flagValues, Contents())
    {
      r := map k | k in declarations && declarations[k].default.Some? :: declarations[k].default.value;
      r := r + loadedValues.entries;
      ghost var start, s, seen: set<string> := r, Contents(), {};
      var keys := flagValues.Keys;
      FlagNone(s, flagValues, start);
      while keys != {}
        invariant keys !! seen && keys + seen == flagValues.Keys && r == FlagsOver(s, flagValues, start, seen)
        decreases |keys|
      {
        var key :| key in keys;
        FlagNext(s, flagValues, start, seen, key);
        if key in declarations { r := r[key := flagValues[key]]; }
        keys := keys - {key};
        seen := seen + {key};
      }
      FlagAll(s, flagValues);
    }

    method LoadFromDict(dictionary: map<string, Value>, override: bool, allowUndeclared: bool)
      modifies loadedValues
      ensures Contents() == LoadSpec(old(Contents()), dictionary, override, allowUndeclared)
    {
      ghost var s, seen: set<string> := Contents(), {};
      var keys := dictionary.Keys;
      LoadNone(s, dictionary, override, allowUndeclared);
      while keys != {}
        invariant keys !! seen && keys + seen == dictionary.Keys
        invariant loadedValues.entries == LoadedAfter(s, dictionary, override, allowUndeclared, seen)
        decreases |keys|
      {
        var key :| key in keys;
        LoadNext(s, dictionary, override, allowUndeclared, seen, key);
        keys := keys - {key};
        seen := seen + {key};
        if key !in declarations && !allowUndeclared { continue; }
        if key in loadedValues.entries && !override { continue; }
        loadedValues.entries := loadedValues.entries[key := dictionary[key]];
      }
      LoadAll(s, dictionary, override, allowUndeclared);
    }

    method DeclareKey(name: string, default: Option<Value>) returns (error: Option<ReadError>)
      modifies this`declarations
      ensures (Contents(), error) == DeclareSpec(old(Contents()), name, default)
    {
      if !IsValidKey(name) { return Some(InvalidKey); }
      if name in declarations { return Some(KeyAlreadyDeclared); }
      declarations := declarations[name := Declaration(default)];
      return None;
    }

    /** A new dictionary takes the place of the loaded values; the old one is not changed. */
    method ResetLoaded(file: ConfigFile) returns (error: Option<ReadError>)
      modifies this`loadedValues
      ensures fresh(loadedValues) && (Contents(), error) == ResetSpec(old(Contents()), file)
    {
      loadedValues := new Dict(map[]);
      match file {
        case NoFile => error := None;
        case Contents(d) => LoadFromDict(d, true, true); error := None;
        case NotADictionary => error := Some(ConfigurationInvalid);
      }
    }

    /**
      Runs one operation. The dictionary object that is in use when it starts may be changed; any
      other that is in use when it ends is a new one. That is why a saved copy stays as it is.
     */
    method Perform(op: Op) returns (raised: bool)
      modifies this, loadedValues
      ensures Outcome(Contents(), raised) == ExecOp(old(Contents()), op)
      ensures loadedValues == old(loadedValues) || fresh(loadedValues)
      decreases op
    {
      match op {
        case Load(d, override, allowUndeclared) => LoadFromDict(d, override, allowUndeclared); raised := false;
        case Declare(name, default) => var e := DeclareKey(name, default); raised := e.Some?;
        case Reset(file) => var e := ResetLoaded(file); raised := e.Some?;
        case Raise => raised := true;
        case Try(body) => raised := PerformAll(body); raised := false;
        case SaveAndRestore(values, body) =>
          var savedConfig := new Dict(loadedValues.entries);
          LoadFromDict(values, true, false);
          raised := PerformAll(body);
          loadedValues := savedConfig;
      }
    }

    method PerformAll(ops: seq<Op>) returns (raised: bool)
      modifies this, loadedValues
      ensures Outcome(Contents(), raised) == Exec(old(Contents()), ops)
      ensures loadedValues == old(loadedValues) || fresh(loadedValues)
      decreases ops
    {
      if ops == [] { return false; }
      raised := Perform(ops[0]);
      if !raised { raised := PerformAll(ops[1..]); }
    }
  }

  // ---------------------------------------------------------------- properties

  /** What a declared key reads when no flag is given for it and nothing is loaded. */
  function DefaultRead(default: Option<Value>): Result<Value, ReadError> {
    match default
    case None => Err(UnsetKey)
    case Some(v) => Ok(v)
  }

  /**
    After a load a key reads the given value exactly if it is declared, has no flag, and is either
    to be overridden or was not loaded before; every other key reads as before.
   */
  lemma LoadReadsIff(
      flags: map<string, Value>, s: State, d: map<string, Value>, override: bool, allowUndeclared: bool, key: string)
    ensures var after := LoadSpec(s, d, override, allowUndeclared);
            var given := key in d && (override || key !in s.loaded);
            && after.declarations == s.declarations
            && (key in s.declarations ==>
                  Read(flags, after, key) ==
                  if key in flags then Ok(flags[key]) else if given then Ok(d[key]) else Read(flags, s, key))
            && (key !in s.declarations ==>
                  && Read(flags, after, key) == Err(UndeclaredKey)
                  && (key in after.loaded <==> key in s.loaded || (given && allowUndeclared))
                  && (key in after.loaded ==>
                        after.loaded[key] == if given && allowUndeclared then d[key] else s.loaded[key]))
  {
  }

  /** A wrapped function sees the values it is wrapped with, under the flags. */
  lemma WrappedReads(flags: map<string, Value>, s: State, values: map<string, Value>, key: string)
    requires key in s.declarations
    ensures Read(flags, InsideSpec(s, values), key) ==
            if key in flags then Ok(flags[key]) else if key in values then Ok(values[key]) else Read(flags, s, key)
  {
    LoadReadsIff(flags, s, values, true, false, key);
  }

  /**
    Declaring fails exactly for names that do not start with a small letter or are declared. It
    makes the key read what was loaded for it, or the default, and leaves the other keys alone.
   */
  lemma DeclareReadsIff(flags: map<string, Value>, s: State, name: string, default: Option<Value>, key: string)
    ensures var (after, error) := DeclareSpec(s, name, default);
            var small := name != "" && name[0] in "abcdefghijklmnopqrstuvwxyz";
            && (error == None <==> small && name !in s.declarations)
            && (error == Some(InvalidKey) <==> !small)
            && (error == Some(KeyAlreadyDeclared) <==> small && name in s.declarations)
            && after.loaded == s.loaded
            && (error != None || key != name ==> Read(flags, after, key) == Read(flags, s, key))
            && (error == None ==>
                  Read(flags, after, name) ==
                  if name in flags then Ok(flags[name])
                  else if name in s.loaded then Ok(s.loaded[name])
                  else DefaultRead(default))
  {
    SmallLetters(if name == "" then 'a' else name[0]);
  }

  lemma SmallLetters(c: char)
    ensures 'a' <= c <= 'z' <==> c in "abcdefghijklmnopqrstuvwxyz"
  {
    var letters := "abcdefghijklmnopqrstuvwxyz";
    assert forall i :: 0 <= i < |letters| ==> letters[i] as int == 'a' as int + i;
    if 'a' <= c <= 'z' {
      assert letters[c as int - 'a' as int] == c;
    }
  }

  /** After a reset a declared key reads its flag, the configuration file or its default, whatever was loaded. */
  lemma ResetReadsIff(flags: map<string, Value>, s: State, file: ConfigFile, key: string)
    requires key in s.declarations
    ensures var (after, error) := ResetSpec(s, file);
            && (error == None <==> !file.NotADictionary?) && (error != None ==> error == Some(ConfigurationInvalid))
            && after.declarations == s.declarations
            && Read(flags, after, key) ==
               if key in flags then Ok(flags[key])
               else if file.Contents? && key in file.dictionary then Ok(file.dictionary[key])
               else DefaultRead(s.declarations[key].default)
  {
  }

  /** Operations run one after the other, up to the first that raises. */
  lemma {:induction false} ExecInTurn(s: State, first: seq<Op>, then': seq<Op>)
    ensures var r := Exec(s, first);
            Exec(s, first + then') == if r.raised then r else Exec(r.state, then')
    decreases |first|
  {
    if first == [] {
      assert first + then' == then';
    } else {
      assert (first + then')[0] == first[0] && (first + then')[1..] == first[1..] + then';
      ExecInTurn(ExecOp(s, first[0]).state, first[1..], then');
    }
  }

  /** Keys stay declared, with their defaults. */
  ghost predicate KeepsDeclarations(s: State, t: State) {
    forall k <- s.declarations :: k in t.declarations && t.declarations[k] == s.declarations[k]
  }

  lemma {:induction false} OpKeepsDeclarations(s: State, op: Op)
    ensures KeepsDeclarations(s, ExecOp(s, op).state)
    decreases op
  {
    match op
    case Try(body) => ExecKeepsDeclarations(s, body);
    case SaveAndRestore(values, body) => ExecKeepsDeclarations(InsideSpec(s, values), body);
    case _ =>
  }

  lemma {:induction false} ExecKeepsDeclarations(s: State, ops: seq<Op>)
    ensures KeepsDeclarations(s, Exec(s, ops).state)
    decreases ops
  {
    if ops != [] {
      OpKeepsDeclarations(s, ops[0]);
      if !ExecOp(s, ops[0]).raised {
        ExecKeepsDeclarations(ExecOp(s, ops[0]).state, ops[1..]);
      }
    }
  }

  /**
    Whatever a wrapped function does, nested wrapped functions included, and whether it raises or
    not: afterwards a key reads as before if and only if it was declared before or is still not
    declared. What stays is exactly the declarations made on the way.
   */
  lemma SaveAndRestoreReadsIff(
      flags: map<string, Value>, s: State, values: map<string, Value>, body: seq<Op>, key: string)
    ensures var after := ExecOp(s, SaveAndRestore(values, body)).state;
            && after.loaded == s.loaded && KeepsDeclarations(s, after)
            && (Read(flags, after, key) == Read(flags, s, key) <==> key in s.declarations || key !in after.declarations)
  {
    OpKeepsDeclarations(s, SaveAndRestore(values, body));
  }

  /** No operation changes what a declared key with a flag value reads. */
  lemma FlagsWin(flags: map<string, Value>, s: State, ops: seq<Op>, key: string)
    requires key in flags && key in s.declarations
    ensures Read(flags, Exec(s, ops).state, key) == Ok(flags[key])
  {
    ExecKeepsDeclarations(s, ops);
  }

  /**
    The snapshot holds the value of every key that can be read, and besides those only values
    loaded for undeclared keys.
   */
  lemma AsDictIff(flags: map<string, Value>, s: State, key: string)
    ensures var d := AsDictSpec(flags, s);
            && (key in d <==> Read(flags, s, key).Ok? || (key !in s.declarations && key in s.loaded))
            && (Read(flags, s, key).Ok? ==> d[key] == Read(flags, s, key).value)
  {
  }

  /** Undeclared keys are loaded only by loads that allow it, and by the configuration file. */
  predicate Strict(op: Op)
    decreases op
  {
    match op
    case Load(_, _, allowUndeclared) => !allowUndeclared
    case Reset(file) => file.NoFile?
    case Try(body) => forall i :: 0 <= i < |body| ==> Strict(body[i])
    case SaveAndRestore(_, body) => forall i :: 0 <= i < |body| ==> Strict(body[i])
    case _ => true
  }

  ghost predicate OnlyDeclaredLoaded(s: State) {
    s.loaded.Keys <= s.declarations.Keys
  }

  lemma {:induction false} StrictOp(s: State, op: Op)
    requires OnlyDeclaredLoaded(s) && Strict(op)
    ensures OnlyDeclaredLoaded(ExecOp(s, op).state)
    decreases op
  {
    match op
    case Try(body) => StrictExec(s, body);
    case SaveAndRestore(values, body) =>
      ExecKeepsDeclarations(InsideSpec(s, values), body);
    case _ =>
  }

  /** Without such loads the snapshot has exactly the keys that can be read, after any program. */
  lemma {:induction false} StrictExec(s: State, ops: seq<Op>)
    requires OnlyDeclaredLoaded(s) && forall i :: 0 <= i < |ops| ==> Strict(ops[i])
    ensures OnlyDeclaredLoaded(Exec(s, ops).state)
    ensures forall flags, key :: key in AsDictSpec(flags, Exec(s, ops).state) <==>
            Read(flags, Exec(s, ops).state, key).Ok?
    decreases ops
  {
    if ops != [] {
      StrictOp(s, ops[0]);
      if !ExecOp(s, ops[0]).raised {
        StrictExec(ExecOp(s, ops[0]).state, ops[1..]);
      }
    }
    forall flags, key
      ensures key in AsDictSpec(flags, Exec(s, ops).state) <==> Read(flags, Exec(s, ops).state, key).Ok?
    {
      AsDictIff(flags, Exec(s, ops).state, key);
    }
  }
}
