/** The round trip of a whole configuration: a configuration processed from
    some source, written back by the plain deprocessor and read again from the
    written map, is the same configuration. */
module RoundTrip {
  import opened Wrappers
  import opened Values
  import opened ConfEntry
  import opened Coercion
  import opened CoercionProperties
  import opened Processor
  import opened Deprocessor

  /** The values a reader finds in a written map: the plain value under each
      key whose (first) pair holds one. Nested sections are not read here. */
  function LeafValues(pairs: seq<(string, Emitted)>): (values: map<string, Value>)
    decreases |pairs|
    ensures forall k :: k in values <==> Lookup(pairs, k).Some? && Lookup(pairs, k).value.Leaf?
    ensures forall k | k in values :: Lookup(pairs, k) == Some(Leaf(values[k]))
  {
    if pairs == [] then map[]
    else
      var rest := LeafValues(pairs[1..]);
      if pairs[0].1.Leaf? then rest[pairs[0].0 := pairs[0].1.value] else rest - {pairs[0].0}
  }

  /** A single entry with a reloadable goal, read from a document holding the
      value it was processed to, processes to that value again: the document
      holds no null there, the value converts to itself, and the validator
      accepted that same value before. */
  lemma ReprocessEntry(options: Options, host: Host, source: Source, doc: Source, e: Entry)
    requires e.Single? && Reloadable(e.accessor, e.accessor.returnType.goal)
    requires doc.Document? && e.Key() in doc.values
    requires ProcessEntrySpec(options, host, source, e) == Ok(doc.values[e.Key()])
    ensures ProcessEntrySpec(options, host, doc, e) == ProcessEntrySpec(options, host, source, e)
  {
    var pre := SourceValue(source, e).value;
    CoerceIdempotent(options, host, e.Key(), e.accessor, e.accessor.returnType.goal, pre);
  }

  /** The loop over a document holding, under every processed entry's key, the
      value that entry was processed to from the source gives the same result
      as the loop over the source. */
  lemma {:induction false} ReprocessAll(options: Options, host: Host, source: Source, doc: Source,
                                        entries: seq<Entry>, acc: map<string, Value>)
    requires ProcessAll(options, host, source, entries, acc).Ok?
    requires doc.Document?
    requires forall i | Active(entries, i) ::
               && entries[i].Single? && Reloadable(entries[i].accessor, entries[i].accessor.returnType.goal)
               && entries[i].Key() in doc.values
               && ProcessEntrySpec(options, host, source, entries[i]) == Ok(doc.values[entries[i].Key()])
    ensures ProcessAll(options, host, doc, entries, acc) == ProcessAll(options, host, source, entries, acc)
    decreases |entries|
  {
    if entries != [] {
      var e, rest := entries[0], entries[1..];
      ActiveShift(entries);
      forall i | Active(rest, i)
        ensures && rest[i].Single? && Reloadable(rest[i].accessor, rest[i].accessor.returnType.goal)
                && rest[i].Key() in doc.values
                && ProcessEntrySpec(options, host, source, rest[i]) == Ok(doc.values[rest[i].Key()])
      {
        assert Active(entries, i + 1) && entries[i + 1] == rest[i];
      }
      if e.accessor.isDefault {
        ReprocessAll(options, host, source, doc, rest, acc);
      } else {
        assert Active(entries, 0);
        ReprocessEntry(options, host, source, doc, e);
        var v := ProcessEntrySpec(options, host, source, e).value;
        ReprocessAll(options, host, source, doc, rest, acc[MethodName(e) := v]);
      }
    }
  }

  /** A definition of single entries answers every method whose name the data
      records. */
  lemma {:induction false} ConformsFlat(definition: seq<Entry>, data: map<string, Value>)
    requires forall i | 0 <= i < |definition| :: definition[i].Single? && MethodName(definition[i]) in data
    ensures Conforms(definition, data)
    decreases |definition|
  {
    if definition != [] {
      var rest := definition[1..];
      forall i | 0 <= i < |rest| ensures rest[i].Single? && MethodName(rest[i]) in data {
        assert rest[i] == definition[i + 1];
      }
      ConformsFlat(rest, data);
    }
  }

  /** Deprocessing a processed configuration with the plain deprocessor and
      processing the written values again gives the configuration back, for a
      definition of single entries without default methods, with distinct
      keys and reloadable goal types. */
  lemma ReloadGivesBackConfiguration(options: Options, host: Host, source: Source, definition: seq<Entry>)
    requires forall i | 0 <= i < |definition| ::
               && definition[i].Single? && !definition[i].accessor.isDefault
               && Reloadable(definition[i].accessor, definition[i].accessor.returnType.goal)
    requires DistinctKeys(definition)
    requires CreateConfigSpec(options, host, source, definition).Ok?
    ensures var instance := CreateConfigSpec(options, host, source, definition).value;
            && Conforms(definition, instance.fields)
            && var doc := Document(LeafValues(Deprocessed(Plain, definition, instance.fields)), map[]);
               CreateConfigSpec(options, host, doc, definition) == Ok(instance)
  {
    var data := ProcessAll(options, host, source, definition, map[]).value;
    ProcessAllValues(options, host, source, definition, map[]);
    forall i | 0 <= i < |definition| ensures MethodName(definition[i]) in data {
      assert Active(definition, i);
    }
    ConformsFlat(definition, data);
    var pairs := Deprocessed(Plain, definition, data);
    var doc := Document(LeafValues(pairs), map[]);
    forall i | Active(definition, i)
      ensures definition[i].Key() in doc.values
      ensures ProcessEntrySpec(options, host, source, definition[i]) == Ok(doc.values[definition[i].Key()])
    {
      PlainKeepsValues(definition, data, i);
    }
    ReprocessAll(options, host, source, doc, definition, map[]);
  }
}
