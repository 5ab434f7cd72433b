/** ProcessorBase: reads every entry of a configuration definition from a
    source, converts it to its goal type and validates it, recording the typed
    values under the method names of the definition. */
module Processor {
  import opened Wrappers
  import opened Values
  import opened ConfEntry
  import opened Coercion
  import DefaultsProcessor

  /** Where the pre-values come from. Defaults is DefaultsProcessor, which reads
      the default annotations. Document stands for a loaded document (the role
      of MapProcessor): the value under each key, possibly null, and the source
      of each nested section by its key. */
  datatype Source =
    | Defaults
    | Document(values: map<string, Value>, sections: map<string, Source>)

  /** getValueFromSources of the source, for a single entry. */
  function SourceValue(source: Source, e: Entry): (r: Result<Value, Error>)
    requires e.Single?
    ensures source.Defaults? && r.Ok? ==> !r.value.VNull?
    ensures source.Defaults? && r.Err? ==> r.error.IllDefined?
    ensures source.Document? ==> (r.Ok? <==> e.Key() in source.values)
    ensures source.Document? && r.Ok? ==> r.value == source.values[e.Key()]
    ensures source.Document? && r.Err? ==> r.error == MissingKey(e.Key())
  {
    match source
    case Defaults => DefaultsProcessor.DefaultValue(e.accessor)
    case Document(values, _) =>
      if e.Key() in values then Ok(values[e.Key()]) else Err(MissingKey(e.Key()))
  }

  /** continueNested of the source: where the child section's values come from. */
  function ChildSource(source: Source, e: Entry): (r: Result<Source, Error>)
    requires e.Nested?
    ensures source.Defaults? ==> r == Ok(Defaults)
    ensures source.Document? ==> (r.Ok? <==> e.Key() in source.sections)
    ensures source.Document? && r.Err? ==> r.error == MissingKey(e.Key())
  {
    match source
    case Defaults =>
      (match DefaultsProcessor.ContinueNested(e, None)
       case Ok(_) => Ok(Defaults)
       case Err(error) => Err(error))
    case Document(_, sections) =>
      if e.Key() in sections then Ok(sections[e.Key()]) else Err(MissingKey(e.Key()))
  }

  /** The validator applied to a single entry: its own @ConfValidator if it has
      one, otherwise the validator the options register for its key, if any. */
  function ChooseValidator(options: Options, e: Entry, key: string): (v: Option<ValidatorRef>)
    requires e.Single?
    ensures e.validator.Some? ==> v == e.validator
    ensures e.validator.None? ==> (v.Some? <==> key in options.validators)
    ensures e.validator.None? && v.Some? ==> v.value == options.validators[key]
  {
    if e.validator.Some? then e.validator
    else if key in options.validators then Some(options.validators[key])
    else None
  }

  /** processEntry: a nested entry becomes the configuration of its child
      section; a single entry's pre-value must be present and not null, is
      converted to the method's return type, and must pass its validator. */
  function ProcessEntrySpec(options: Options, host: Host, source: Source, e: Entry): (r: Result<Value, Error>)
    decreases EntrySize(e), 0
    ensures e.Nested? && r.Ok? ==> r.value.VSection?
    ensures e.Single? && r.Ok? ==>
              var pre := SourceValue(source, e);
              && pre.Ok? && !pre.value.VNull?
              && Coerce(options, host, e.Key(), e.accessor, e.accessor.returnType.goal, pre.value) == Ok(r.value)
              && var validator := ChooseValidator(options, e, e.Key());
                 (validator.None? || host.validate(validator.value, e.Key(), r.value).None?)
  {
    var key := e.Key();
    match e
    case Nested(_, definition) =>
      var child :- ChildSource(source, e);
      CreateConfigSpec(options, host, child, definition)
    case Single(m, _) =>
      var pre :- SourceValue(source, e);
      if pre.VNull? then Err(MissingValue(key))
      else
        var value :- Coerce(options, host, key, m, m.returnType.goal, pre);
        var validator := ChooseValidator(options, e, key);
        if validator.Some? && host.validate(validator.value, key, value).Some? then
          Err(BadValue(key, RejectedByValidator(host.validate(validator.value, key, value).value)))
        else Ok(value)
  }

  /** process, from an already recorded map acc: entries are taken in order,
      default methods are skipped, each value is recorded under its method name,
      and a method name recorded twice makes the schema ill-defined. The first
      failure ends the loop. */
  function ProcessAll(options: Options, host: Host, source: Source, entries: seq<Entry>, acc: map<string, Value>)
    : (r: Result<map<string, Value>, Error>)
    decreases DefinitionSize(entries), 1
    ensures r.Ok? ==> acc.Keys <= r.value.Keys
  {
    if entries == [] then Ok(acc)
    else
      var e := entries[0];
      if e.accessor.isDefault then ProcessAll(options, host, source, entries[1..], acc)
      else
        var value :- ProcessEntrySpec(options, host, source, e);
        if e.accessor.name in acc then Err(IllDefined(DuplicateMethodName(e.accessor.name)))
        else ProcessAll(options, host, source, entries[1..], acc[e.accessor.name := value])
  }

  /** createConfig: the configuration instance over the processed values. */
  function CreateConfigSpec(options: Options, host: Host, source: Source, entries: seq<Entry>): (r: Result<Value, Error>)
    decreases DefinitionSize(entries), 2
    ensures r.Ok? ==> r.value.VSection?
  {
    var fields :- ProcessAll(options, host, source, entries, map[]);
    Ok(VSection(fields))
  }

  /** The errors that are InvalidConfigExceptions: those caused by the input
      rather than by the schema or the library. */
  predicate InvalidConfig(e: Error)
  {
    e.BadValue? || e.MissingValue? || e.MissingKey?
  }

  /** loadDefaults: a configuration built from the default annotations; an
      InvalidConfigException on the way means the defaults themselves are
      invalid, which is a defect of the schema. */
  function LoadDefaults(options: Options, host: Host, definition: seq<Entry>): (r: Result<Value, Error>)
    ensures var c := CreateConfigSpec(options, host, Defaults, definition);
            && (r.Ok? <==> c.Ok?)
            && (r.Ok? ==> r.value == c.value)
            && (r.Err? ==> !InvalidConfig(r.error))
            && (c.Err? && InvalidConfig(c.error) ==> r.error == IllDefined(InvalidDefaults(c.error)))
            && (c.Err? && !InvalidConfig(c.error) ==> r.error == c.error)
  {
    var c := CreateConfigSpec(options, host, Defaults, definition);
    if c.Err? && InvalidConfig(c.error) then Err(IllDefined(InvalidDefaults(c.error)))
    else c
  }

  /** The entry at index i is one the loop processes. */
  predicate Active(entries: seq<Entry>, i: int)
  {
    0 <= i < |entries| && !entries[i].accessor.isDefault
  }

  function MethodName(e: Entry): string
  {
    e.accessor.name
  }

  /** No two processed entries share a method name, and none is already recorded. */
  ghost predicate DistinctNames(entries: seq<Entry>, acc: map<string, Value>)
  {
    && (forall i | Active(entries, i) :: MethodName(entries[i]) !in acc)
    && (forall i, j | Active(entries, i) && Active(entries, j) && i < j :: MethodName(entries[i]) != MethodName(entries[j]))
  }

  lemma ActiveShift(entries: seq<Entry>)
    requires entries != []
    ensures forall i | 0 <= i < |entries| - 1 :: Active(entries, i + 1) <==> Active(entries[1..], i)
  {
  }

  /** Skipping a default method leaves the distinctness of names unchanged. */
  lemma DistinctNamesSkip(entries: seq<Entry>, acc: map<string, Value>)
    requires entries != [] && entries[0].accessor.isDefault
    ensures DistinctNames(entries, acc) <==> DistinctNames(entries[1..], acc)
  {
    var rest := entries[1..];
    ActiveShift(entries);
    if DistinctNames(rest, acc) {
      forall i, j | Active(entries, i) && Active(entries, j) && i < j
        ensures MethodName(entries[i]) != MethodName(entries[j])
      {
        assert Active(rest, i - 1) && Active(rest, j - 1);
      }
      forall i | Active(entries, i) ensures MethodName(entries[i]) !in acc {
        assert Active(rest, i - 1);
      }
    }
    if DistinctNames(entries, acc) {
      forall i, j | Active(rest, i) && Active(rest, j) && i < j
        ensures MethodName(rest[i]) != MethodName(rest[j])
      {
        assert Active(entries, i + 1) && Active(entries, j + 1);
      }
      forall i | Active(rest, i) ensures MethodName(rest[i]) !in acc {
        assert Active(entries, i + 1);
      }
    }
  }

  /** Recording a processed entry's new name moves it from the entries to
      the recorded names. */
  lemma DistinctNamesRecord(entries: seq<Entry>, acc: map<string, Value>, v: Value)
    requires entries != [] && !entries[0].accessor.isDefault && MethodName(entries[0]) !in acc
    ensures DistinctNames(entries, acc) <==> DistinctNames(entries[1..], acc[MethodName(entries[0]) := v])
  {
    var rest, acc' := entries[1..], acc[MethodName(entries[0]) := v];
    ActiveShift(entries);
    if DistinctNames(rest, acc') {
      forall i, j | Active(entries, i) && Active(entries, j) && i < j
        ensures MethodName(entries[i]) != MethodName(entries[j])
      {
        assert Active(rest, j - 1);
        if i > 0 { assert Active(rest, i - 1); }
      }
      forall i | Active(entries, i) ensures MethodName(entries[i]) !in acc {
        if i > 0 { assert Active(rest, i - 1); }
      }
    }
    if DistinctNames(entries, acc) {
      forall i, j | Active(rest, i) && Active(rest, j) && i < j
        ensures MethodName(rest[i]) != MethodName(rest[j])
      {
        assert Active(entries, i + 1) && Active(entries, j + 1);
      }
      forall i | Active(rest, i) ensures MethodName(rest[i]) !in acc' {
        assert Active(entries, i + 1) && Active(entries, 0);
      }
    }
  }

  /** Every processed entry converts exactly when the first one does (or is
      skipped) and every processed entry of the rest does. */
  lemma AllConvertShift(options: Options, host: Host, source: Source, entries: seq<Entry>)
    requires entries != []
    ensures (forall i | Active(entries, i) :: ProcessEntrySpec(options, host, source, entries[i]).Ok?) <==>
            && (Active(entries, 0) ==> ProcessEntrySpec(options, host, source, entries[0]).Ok?)
            && (forall i | Active(entries[1..], i) :: ProcessEntrySpec(options, host, source, entries[1..][i]).Ok?)
  {
    var rest := entries[1..];
    ActiveShift(entries);
    if forall i | Active(rest, i) :: ProcessEntrySpec(options, host, source, rest[i]).Ok? {
      forall i | Active(entries, i) && i > 0 ensures ProcessEntrySpec(options, host, source, entries[i]).Ok? {
        assert Active(rest, i - 1);
      }
    }
    if forall i | Active(entries, i) :: ProcessEntrySpec(options, host, source, entries[i]).Ok? {
      forall i | Active(rest, i) ensures ProcessEntrySpec(options, host, source, rest[i]).Ok? {
        assert Active(entries, i + 1);
      }
    }
  }

  /** The loop succeeds exactly when every processed entry converts and their
      method names are distinct. */
  lemma {:induction false} ProcessAllSucceeds(options: Options, host: Host, source: Source, entries: seq<Entry>, acc: map<string, Value>)
    ensures ProcessAll(options, host, source, entries, acc).Ok? <==>
              && (forall i | Active(entries, i) :: ProcessEntrySpec(options, host, source, entries[i]).Ok?)
              && DistinctNames(entries, acc)
    decreases |entries|
  {
    if entries != [] {
      var e, rest := entries[0], entries[1..];
      AllConvertShift(options, host, source, entries);
      if e.accessor.isDefault {
        ProcessAllSucceeds(options, host, source, rest, acc);
        DistinctNamesSkip(entries, acc);
      } else if ProcessEntrySpec(options, host, source, e).Err? {
      } else if MethodName(e) in acc {
        assert Active(entries, 0);
      } else {
        var v := ProcessEntrySpec(options, host, source, e).value;
        ProcessAllSucceeds(options, host, source, rest, acc[MethodName(e) := v]);
        DistinctNamesRecord(entries, acc, v);
      }
    }
  }

  /** A method name declared by two processed entries makes processing fail. */
  lemma DuplicateMethodNameFails(options: Options, host: Host, source: Source, entries: seq<Entry>, i: nat, j: nat)
    requires Active(entries, i) && Active(entries, j) && i < j
    requires MethodName(entries[i]) == MethodName(entries[j])
    ensures ProcessAll(options, host, source, entries, map[]).Err?
  {
    ProcessAllSucceeds(options, host, source, entries, map[]);
  }

  /** The first processed entry whose method name is already recorded, or
      declared by an earlier processed entry, ends the loop with an
      IllDefined(DuplicateMethodName) naming it, once every entry up to it has
      been processed. */
  lemma {:induction false} DuplicateMethodNameError(options: Options, host: Host, source: Source, entries: seq<Entry>,
                                                      acc: map<string, Value>, j: nat)
    requires Active(entries, j)
    requires forall i | Active(entries, i) && i <= j :: ProcessEntrySpec(options, host, source, entries[i]).Ok?
    requires DistinctNames(entries[..j], acc)
    requires MethodName(entries[j]) in acc ||
             exists i | Active(entries, i) && i < j :: MethodName(entries[i]) == MethodName(entries[j])
    ensures ProcessAll(options, host, source, entries, acc) == Err(IllDefined(DuplicateMethodName(MethodName(entries[j]))))
    decreases |entries|
  {
    var e, rest := entries[0], entries[1..];
    var name := MethodName(entries[j]);
    if j == 0 {
      assert Active(entries, 0);
    } else {
      assert entries[..j][1..] == rest[..j - 1];
      assert rest[j - 1] == entries[j];
      ActiveShift(entries);
      forall i | Active(rest, i) && i <= j - 1 ensures ProcessEntrySpec(options, host, source, rest[i]).Ok? {
        assert Active(entries, i + 1);
      }
      if e.accessor.isDefault {
        DistinctNamesSkip(entries[..j], acc);
        if name !in acc {
          var i :| Active(entries, i) && i < j && MethodName(entries[i]) == name;
          assert Active(rest, i - 1) && rest[i - 1] == entries[i];
        }
        DuplicateMethodNameError(options, host, source, rest, acc, j - 1);
      } else {
        assert Active(entries, 0) && Active(entries[..j], 0);
        var v := ProcessEntrySpec(options, host, source, e).value;
        var acc' := acc[MethodName(e) := v];
        DistinctNamesRecord(entries[..j], acc, v);
        if name !in acc' {
          var i :| Active(entries, i) && i < j && MethodName(entries[i]) == name;
          assert Active(rest, i - 1) && rest[i - 1] == entries[i];
        }
        DuplicateMethodNameError(options, host, source, rest, acc', j - 1);
      }
    }
  }

  /** The first processed entry that fails, reached with every earlier entry
      processed under a fresh name, decides the loop's error. */
  lemma {:induction false} FirstFailingEntryDecides(options: Options, host: Host, source: Source, entries: seq<Entry>,
                                                      acc: map<string, Value>, j: nat)
    requires Active(entries, j)
    requires forall i | Active(entries, i) && i < j :: ProcessEntrySpec(options, host, source, entries[i]).Ok?
    requires DistinctNames(entries[..j], acc)
    requires ProcessEntrySpec(options, host, source, entries[j]).Err?
    ensures ProcessAll(options, host, source, entries, acc) == Err(ProcessEntrySpec(options, host, source, entries[j]).error)
    decreases |entries|
  {
    var e, rest := entries[0], entries[1..];
    if j > 0 {
      assert entries[..j][1..] == rest[..j - 1];
      assert rest[j - 1] == entries[j];
      ActiveShift(entries);
      forall i | Active(rest, i) && i < j - 1 ensures ProcessEntrySpec(options, host, source, rest[i]).Ok? {
        assert Active(entries, i + 1);
      }
      if e.accessor.isDefault {
        DistinctNamesSkip(entries[..j], acc);
        FirstFailingEntryDecides(options, host, source, rest, acc, j - 1);
      } else {
        assert Active(entries, 0) && Active(entries[..j], 0);
        var v := ProcessEntrySpec(options, host, source, e).value;
        DistinctNamesRecord(entries[..j], acc, v);
        FirstFailingEntryDecides(options, host, source, rest, acc[MethodName(e) := v], j - 1);
      }
    }
  }

  /** The method names of the entries the loop processes. */
  ghost function ProcessedNames(entries: seq<Entry>): set<string>
  {
    set i | 0 <= i < |entries| && Active(entries, i) :: MethodName(entries[i])
  }

  lemma ProcessedNamesShift(entries: seq<Entry>)
    requires entries != []
    ensures entries[0].accessor.isDefault ==> ProcessedNames(entries) == ProcessedNames(entries[1..])
    ensures !entries[0].accessor.isDefault ==>
              ProcessedNames(entries) == ProcessedNames(entries[1..]) + {MethodName(entries[0])}
  {
    var rest := entries[1..];
    forall n | n in ProcessedNames(entries)
      ensures n in ProcessedNames(rest) || (!entries[0].accessor.isDefault && n == MethodName(entries[0]))
    {
      var i :| 0 <= i < |entries| && Active(entries, i) && MethodName(entries[i]) == n;
      if i > 0 { assert Active(rest, i - 1) && rest[i - 1] == entries[i]; }
    }
    forall n | n in ProcessedNames(rest) ensures n in ProcessedNames(entries) {
      var i :| 0 <= i < |rest| && Active(rest, i) && MethodName(rest[i]) == n;
      assert Active(entries, i + 1) && entries[i + 1] == rest[i];
    }
    if !entries[0].accessor.isDefault {
      assert Active(entries, 0);
    }
  }

  /** A successful loop records exactly the earlier keys and the method names of
      the processed entries. */
  lemma {:induction false} ProcessAllKeys(options: Options, host: Host, source: Source, entries: seq<Entry>, acc: map<string, Value>)
    requires ProcessAll(options, host, source, entries, acc).Ok?
    ensures ProcessAll(options, host, source, entries, acc).value.Keys == acc.Keys + ProcessedNames(entries)
    decreases |entries|
  {
    if entries == [] {
      assert ProcessedNames(entries) == {};
    } else {
      ProcessedNamesShift(entries);
      var e := entries[0];
      if e.accessor.isDefault {
        ProcessAllKeys(options, host, source, entries[1..], acc);
      } else {
        var acc' := acc[MethodName(e) := ProcessEntrySpec(options, host, source, e).value];
        ProcessAllKeys(options, host, source, entries[1..], acc');
      }
    }
  }

  /** A successful loop keeps the earlier values and records each processed
      entry's value under its method name. */
  lemma {:induction false} ProcessAllValues(options: Options, host: Host, source: Source, entries: seq<Entry>, acc: map<string, Value>)
    requires ProcessAll(options, host, source, entries, acc).Ok?
    ensures var r := ProcessAll(options, host, source, entries, acc).value;
            && (forall k | k in acc :: k in r && r[k] == acc[k])
            && (forall i | Active(entries, i) ::
                  MethodName(entries[i]) in r && ProcessEntrySpec(options, host, source, entries[i]) == Ok(r[MethodName(entries[i])]))
    decreases |entries|
  {
    if entries != [] {
      var r := ProcessAll(options, host, source, entries, acc).value;
      var e, rest := entries[0], entries[1..];
      ActiveShift(entries);
      if e.accessor.isDefault {
        ProcessAllValues(options, host, source, rest, acc);
        forall i | Active(entries, i)
          ensures MethodName(entries[i]) in r && ProcessEntrySpec(options, host, source, entries[i]) == Ok(r[MethodName(entries[i])])
        {
          assert Active(rest, i - 1) && rest[i - 1] == entries[i];
        }
      } else {
        var acc' := acc[MethodName(e) := ProcessEntrySpec(options, host, source, e).value];
        ProcessAllValues(options, host, source, rest, acc');
        forall i | Active(entries, i)
          ensures MethodName(entries[i]) in r && ProcessEntrySpec(options, host, source, entries[i]) == Ok(r[MethodName(entries[i])])
        {
          if i > 0 { assert Active(rest, i - 1) && rest[i - 1] == entries[i]; }
        }
      }
    }
  }

  /** A null pre-value is a missing value at the entry's key. */
  lemma NullPreValueIsMissing(options: Options, host: Host, source: Source, e: Entry)
    requires e.Single? && SourceValue(source, e) == Ok(VNull)
    ensures ProcessEntrySpec(options, host, source, e) == Err(MissingValue(e.Key()))
  {
  }

  /** A validator that throws turns a converted value into a bad value. */
  lemma ValidatorRejects(options: Options, host: Host, source: Source, e: Entry, pre: Value, value: Value, validator: ValidatorRef, message: string)
    requires e.Single? && SourceValue(source, e) == Ok(pre) && !pre.VNull?
    requires Coerce(options, host, e.Key(), e.accessor, e.accessor.returnType.goal, pre) == Ok(value)
    requires ChooseValidator(options, e, e.Key()) == Some(validator)
    requires host.validate(validator, e.Key(), value) == Some(message)
    ensures ProcessEntrySpec(options, host, source, e) == Err(BadValue(e.Key(), RejectedByValidator(message)))
  {
  }

  /** Conversion does not read the registered validators. */
  lemma {:induction false} CoerceIgnoresValidators(options: Options, validators: map<string, ValidatorRef>, host: Host,
                                                   key: string, m: MethodInfo, goal: Goal, pre: Value)
    ensures Coerce(options, host, key, m, goal, pre) == Coerce(options.(validators := validators), host, key, m, goal, pre)
    decreases pre, 1
  {
    if m.annotations.confSerialiser.None? && (goal == ListGoal || goal == SetGoal || goal == CollectionGoal) && pre.VList? {
      ElementsIgnoreValidators(options, validators, host, key, m, pre, 0);
    }
  }

  lemma {:induction false} ElementsIgnoreValidators(options: Options, validators: map<string, ValidatorRef>, host: Host,
                                                    key: string, m: MethodInfo, list: Value, i: nat)
    requires list.VList? && i <= |list.items|
    ensures CoerceElements(options, host, key, m, list, i) == CoerceElements(options.(validators := validators), host, key, m, list, i)
    decreases list, 0, |list.items| - i
  {
    if i < |list.items| {
      CoerceIgnoresValidators(options, validators, host, key, m, m.collectionElement, list.items[i]);
      ElementsIgnoreValidators(options, validators, host, key, m, list, i + 1);
    }
  }

  /** An entry with its own validator is processed alike whatever validators the
      options register: the entry's validator is preferred. */
  lemma EntryValidatorPreferred(options: Options, validators: map<string, ValidatorRef>, host: Host, source: Source, e: Entry)
    requires e.Single? && e.validator.Some?
    ensures ProcessEntrySpec(options, host, source, e) == ProcessEntrySpec(options.(validators := validators), host, source, e)
  {
    var pre := SourceValue(source, e);
    if pre.Ok? && !pre.value.VNull? {
      CoerceIgnoresValidators(options, validators, host, e.Key(), e.accessor, e.accessor.returnType.goal, pre.value);
    }
  }

  /** The configuration processor: the definition it walks, the key of the
      entry it is at, and the values recorded so far by method name. */
  class ProcessorBase {
    const options: Options
    const host: Host
    const source: Source
    const entries: seq<Entry>
    var key: string
    var result: map<string, Value>

    constructor (options: Options, host: Host, source: Source, entries: seq<Entry>)
      ensures this.options == options && this.host == host && this.source == source && this.entries == entries
      ensures key == "" && result == map[]
    {
      this.options := options;
      this.host := host;
      this.source := source;
      this.entries := entries;
      key := "";
      result := map[];
    }

    /** createConfig: process every entry, then expose the recorded values as the
        configuration instance. */
    static method CreateConfig(processor: ProcessorBase) returns (r: Result<Value, Error>)
      requires processor.result == map[]
      modifies processor
      decreases DefinitionSize(processor.entries), 2
      ensures r == CreateConfigSpec(processor.options, processor.host, processor.source, processor.entries)
    {
      var done := processor.Process();
      if done.Err? {
        return Err(done.error);
      }
      return Ok(VSection(processor.result));
    }

    /** process: the loop over the entries. */
    method Process() returns (r: Result<(), Error>)
      modifies this
      decreases DefinitionSize(entries), 1
      ensures r.Ok? ==> ProcessAll(options, host, source, entries, old(result)) == Ok(result)
      ensures r.Err? ==> ProcessAll(options, host, source, entries, old(result)) == Err(r.error)
    {
      var i := 0;
      while i < |entries|
        invariant 0 <= i <= |entries|
        invariant ProcessAll(options, host, source, entries, old(result)) == ProcessAll(options, host, source, entries[i..], result)
      {
        var entry := entries[i];
        assert entries[i..][0] == entry && entries[i..][1..] == entries[i + 1..];
        if !entry.accessor.isDefault {
          key := entry.Key();
          var methodName := entry.accessor.name;
          EntrySizeWithin(entries, i);
          var value := ProcessEntry(entry);
          if value.Err? {
            return Err(value.error);
          }
          var formerValue := if methodName in result then Some(result[methodName]) else None;
          result := result[methodName := value.value];
          if formerValue.Some? {
            return Err(IllDefined(DuplicateMethodName(methodName)));
          }
        }
        i := i + 1;
      }
      assert entries[i..] == [];
      return Ok(());
    }

    /** processEntry, for the entry at the current key. */
    method ProcessEntry(entry: Entry) returns (r: Result<Value, Error>)
      requires key == entry.Key()
      decreases EntrySize(entry), 0
      ensures r == ProcessEntrySpec(options, host, source, entry)
    {
      if entry.Nested? {
        var child := ContinueNested(entry);
        if child.Err? {
          return Err(child.error);
        }
        r := CreateConfig(child.value);
        return;
      }
      var preValue := GetValueFromSources(entry);
      if preValue.Err? {
        return Err(preValue.error);
      }
      if preValue.value.VNull? {
        return Err(MissingValue(key));
      }
      var value := ProcessObjectAtEntryWithGoal(entry, entry.accessor.returnType.goal, preValue.value);
      if value.Err? {
        return value;
      }
      var validator := entry.validator;
      if validator.None? {
        validator := if key in options.validators then Some(options.validators[key]) else None;
      }
      if validator.Some? {
        var rejection := host.validate(validator.value, key, value.value);
        if rejection.Some? {
          return Err(BadValue(key, RejectedByValidator(rejection.value)));
        }
      }
      return value;
    }

    /** getValueFromSources of the subclass at hand. */
    method GetValueFromSources(entry: Entry) returns (r: Result<Value, Error>)
      requires entry.Single?
      ensures r == SourceValue(source, entry)
    {
      match source {
        case Defaults =>
          r := DefaultsProcessor.GetValueFromSources(entry.accessor);
        case Document(values, _) =>
          if entry.Key() !in values {
            return Err(MissingKey(entry.Key()));
          }
          return Ok(values[entry.Key()]);
      }
    }

    /** continueNested of the subclass at hand: a fresh processor for the child
        section, with the same options. */
    method ContinueNested(entry: Entry) returns (r: Result<ProcessorBase, Error>)
      requires entry.Nested?
      ensures r.Ok? ==> ChildSource(source, entry) == Ok(r.value.source)
      ensures r.Ok? ==> fresh(r.value) && r.value.result == map[]
      ensures r.Ok? ==> r.value.options == options && r.value.host == host && r.value.entries == entry.definition
      ensures r.Err? ==> ChildSource(source, entry) == Err(r.error)
    {
      var child := ChildSource(source, entry);
      if child.Err? {
        return Err(child.error);
      }
      var processor := new ProcessorBase(options, host, child.value, entry.definition);
      return Ok(processor);
    }

    /** processObjectAtEntryWithGoal: the rule is chosen by the goal type. */
    method ProcessObjectAtEntryWithGoal(entry: Entry, goal: Goal, preValue: Value) returns (r: Result<Value, Error>)
      requires entry.Single?
      decreases preValue, 2
      ensures r == Coerce(options, host, key, entry.accessor, goal, preValue)
    {
      var m := entry.accessor;
      if m.annotations.confSerialiser.Some? {
        return FromSerialiser(host, key, m.annotations.confSerialiser.value, preValue);
      }
      if goal == ListGoal || goal == SetGoal || goal == CollectionGoal {
        r := GetAsCollection(entry, goal == ListGoal, preValue);
        return;
      }
      match goal {
        case BooleanGoal =>
          return GetAsBoolean(key, preValue);
        case StringGoal =>
          var s := GetAsString(host, preValue);
          if s.Err? {
            return Err(s.error);
          }
          return Ok(VStr(s.value));
        case IntegralGoal(w) =>
          var n := GetAsNumber(host, key, m, preValue);
          if n.Err? {
            return Err(n.error);
          }
          return Ok(VNum(Integral(NarrowNumber(host, n.value, w))));
        case CharGoal =>
          return GetAsChar(host, key, preValue);
        case EnumGoal(enumType, constants) =>
          var s := GetAsString(host, preValue);
          if s.Err? {
            return Err(s.error);
          }
          var parsable := s.value;
          if !options.strictParseEnums {
            parsable := JavaLang.ToUpperCase(parsable);
          }
          return EnumValueOf(key, enumType, constants, parsable);
        case OtherGoal(typeName) =>
          if typeName !in options.serialisers {
            return Err(IllDefined(NoSerialiser(key)));
          }
          return FromSerialiser(host, key, options.serialisers[typeName], preValue);
      }
    }

    /** getAsCollection: the List check and the size check come first; the
        elements are then converted one by one into an ArrayList (ordered) or a
        HashSet. */
    method GetAsCollection(entry: Entry, ordered: bool, preValue: Value) returns (r: Result<Value, Error>)
      requires entry.Single?
      decreases preValue, 1
      ensures r == CoerceCollection(options, host, key, entry.accessor, ordered, preValue)
    {
      var m := entry.accessor;
      if !preValue.VList? {
        return Err(BadValue(key, NotAList(preValue)));
      }
      var asList := preValue.items;
      if m.annotations.collectionSize.Some? {
        var sizing := m.annotations.collectionSize.value;
        var size := |asList|;
        if size < sizing.min {
          return Err(BadValue(key, SizeBelowMinimum(size, sizing.min)));
        }
        if size > sizing.max {
          return Err(BadValue(key, SizeAboveMaximum(size, sizing.max)));
        }
      }
      r := FillCollection(entry, ordered, preValue);
    }

    /** The loop of getAsCollection: each element converted in turn and added to
        an ArrayList (ordered) or a HashSet. */
    method FillCollection(entry: Entry, ordered: bool, preValue: Value) returns (r: Result<Value, Error>)
      requires entry.Single? && preValue.VList?
      decreases preValue, 0
      ensures r == Collected(ordered, CoerceElements(options, host, key, entry.accessor, preValue, 0))
    {
      var m := entry.accessor;
      var asList := preValue.items;
      var list: seq<Value> := [];
      var hashSet: set<Value> := {};
      ghost var converted: seq<Value> := [];
      PrependedNothing(CoerceElements(options, host, key, m, preValue, 0));
      for i := 0 to |asList|
        invariant ordered ==> list == converted
        invariant !ordered ==> hashSet == set x | x in converted
        invariant CoerceElements(options, host, key, m, preValue, 0) ==
                  Prepended(converted, CoerceElements(options, host, key, m, preValue, i))
      {
        var element := ProcessObjectAtEntryWithGoal(entry, m.collectionElement, asList[i]);
        if element.Err? {
          PrependedFails(options, host, key, m, preValue, i, converted);
          return Err(element.error);
        }
        PrependedStep(options, host, key, m, preValue, i, converted, element.value);
        converted := converted + [element.value];
        if ordered {
          list := list + [element.value];
        } else {
          hashSet := hashSet + {element.value};
        }
      }
      assert converted + [] == converted;
      return Ok(if ordered then VList(list) else VSet(hashSet));
    }
  }

  /** The collection getAsCollection returns, once its elements are converted. */
  function Collected(ordered: bool, converted: Result<seq<Value>, Error>): Result<Value, Error>
  {
    var c :- converted;
    Ok(if ordered then VList(c) else VSet(set x | x in c))
  }

  /** The elements converted so far, ahead of the conversion of the rest. */
  function Prepended(prefix: seq<Value>, rest: Result<seq<Value>, Error>): Result<seq<Value>, Error>
  {
    if rest.Err? then rest else Ok(prefix + rest.value)
  }

  lemma PrependedNothing(r: Result<seq<Value>, Error>)
    ensures Prepended([], r) == r
  {
    if r.Ok? {
      assert [] + r.value == r.value;
    }
  }

  /** One more converted element moves from the rest to the prefix. */
  lemma PrependedStep(options: Options, host: Host, key: string, m: MethodInfo, list: Value, i: nat, converted: seq<Value>, x: Value)
    requires list.VList? && i < |list.items|
    requires Coerce(options, host, key, m, m.collectionElement, list.items[i]) == Ok(x)
    ensures Prepended(converted, CoerceElements(options, host, key, m, list, i)) ==
            Prepended(converted + [x], CoerceElements(options, host, key, m, list, i + 1))
  {
    var rest := CoerceElements(options, host, key, m, list, i + 1);
    if rest.Ok? {
      assert converted + ([x] + rest.value) == converted + [x] + rest.value;
    }
  }

  /** An element that fails to convert decides the result. */
  lemma PrependedFails(options: Options, host: Host, key: string, m: MethodInfo, list: Value, i: nat, converted: seq<Value>)
    requires list.VList? && i < |list.items|
    requires Coerce(options, host, key, m, m.collectionElement, list.items[i]).Err?
    ensures Prepended(converted, CoerceElements(options, host, key, m, list, i)) ==
            Err(Coerce(options, host, key, m, m.collectionElement, list.items[i]).error)
  {
  }
}
