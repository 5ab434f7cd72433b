/** MapDeprocessor and CommentedDeprocessor: write a configuration instance back
    as an insertion-ordered map from keys to values, nested sections as nested
    maps, and (in the commented flavour) each value wrapped with its entry's
    comments. */
module Deprocessor {
  import opened Wrappers
  import opened Values
  import opened ConfEntry

  /** What a deprocessor emits: a plain value, a nested section (the
      LinkedHashMap of a child deprocessor, as its pairs in insertion order), or
      a CommentedWrapper around either. */
  datatype Emitted =
    | Leaf(value: Value)
    | Section(pairs: seq<(string, Emitted)>)
    | Commented(comments: seq<string>, inner: Emitted)

  /** Which class does the deprocessing: MapDeprocessor, or CommentedDeprocessor. */
  datatype Flavour = Plain | CommentedFlavour

  /** The keys of a LinkedHashMap, in insertion order. */
  function Keys(pairs: seq<(string, Emitted)>): (ks: seq<string>)
    ensures |ks| == |pairs|
    ensures forall i | 0 <= i < |pairs| :: ks[i] == pairs[i].0
  {
    if pairs == [] then [] else [pairs[0].0] + Keys(pairs[1..])
  }

  /** LinkedHashMap#get. */
  function Lookup(pairs: seq<(string, Emitted)>, k: string): Option<Emitted>
  {
    if pairs == [] then None
    else if pairs[0].0 == k then Some(pairs[0].1)
    else Lookup(pairs[1..], k)
  }

  /** LinkedHashMap#put: a key already present keeps its place and takes the new
      value; a new key goes last. */
  function Put(pairs: seq<(string, Emitted)>, k: string, v: Emitted): (r: seq<(string, Emitted)>)
    ensures Keys(r) == if k in Keys(pairs) then Keys(pairs) else Keys(pairs) + [k]
    ensures Lookup(r, k) == Some(v)
    ensures forall k' | k' != k :: Lookup(r, k') == Lookup(pairs, k')
  {
    if pairs == [] then [(k, v)]
    else if pairs[0].0 == k then [(k, v)] + pairs[1..]
    else [pairs[0]] + Put(pairs[1..], k, v)
  }

  /** Puts of several pairs, in order. */
  function PutAll(acc: seq<(string, Emitted)>, pairs: seq<(string, Emitted)>): seq<(string, Emitted)>
    decreases |pairs|
  {
    if pairs == [] then acc else PutAll(Put(acc, pairs[0].0, pairs[0].1), pairs[1..])
  }

  /** No key occurs twice among the pairs. */
  ghost predicate DistinctPairKeys(pairs: seq<(string, Emitted)>)
  {
    forall i, j | 0 <= i < j < |pairs| :: pairs[i].0 != pairs[j].0
  }

  /** The rest of a list of pairs with distinct keys has distinct keys, none
      of them the first key. */
  lemma DistinctPairKeysTail(pairs: seq<(string, Emitted)>)
    requires DistinctPairKeys(pairs) && pairs != []
    ensures DistinctPairKeys(pairs[1..])
    ensures pairs[0].0 !in Keys(pairs[1..])
  {
    var rest := pairs[1..];
    forall i, j | 0 <= i < j < |rest| ensures rest[i].0 != rest[j].0 {
      assert rest[i] == pairs[i + 1] && rest[j] == pairs[j + 1];
    }
    forall j | 0 <= j < |rest| ensures Keys(rest)[j] != pairs[0].0 {
      assert rest[j] == pairs[j + 1];
    }
  }

  /** Putting a key not yet present appends the pair. */
  lemma {:induction false} PutFresh(acc: seq<(string, Emitted)>, k: string, v: Emitted)
    requires forall i | 0 <= i < |acc| :: acc[i].0 != k
    ensures Put(acc, k, v) == acc + [(k, v)]
    decreases |acc|
  {
    if acc != [] {
      var rest := acc[1..];
      assert forall i | 0 <= i < |rest| :: rest[i] == acc[i + 1];
      PutFresh(rest, k, v);
      assert acc[0].0 != k;
      assert Put(acc, k, v) == [acc[0]] + Put(rest, k, v);
      ConsSnoc(acc, (k, v));
    }
  }

  lemma ConsSnoc(acc: seq<(string, Emitted)>, p: (string, Emitted))
    requires acc != []
    ensures [acc[0]] + (acc[1..] + [p]) == acc + [p]
  {
  }

  lemma AppendFirst(acc: seq<(string, Emitted)>, pairs: seq<(string, Emitted)>)
    requires pairs != []
    ensures (acc + [pairs[0]]) + pairs[1..] == acc + pairs
  {
    assert pairs == [pairs[0]] + pairs[1..];
  }

  /** Putting pairs whose keys are distinct and not yet present appends them,
      in order. */
  lemma {:induction false} PutAllFresh(acc: seq<(string, Emitted)>, pairs: seq<(string, Emitted)>)
    requires DistinctPairKeys(pairs)
    requires forall i, j | 0 <= i < |acc| && 0 <= j < |pairs| :: acc[i].0 != pairs[j].0
    ensures PutAll(acc, pairs) == acc + pairs
    decreases |pairs|
  {
    if pairs == [] {
      assert acc + pairs == acc;
    } else {
      var acc', rest := acc + [pairs[0]], pairs[1..];
      PutFresh(acc, pairs[0].0, pairs[0].1);
      DistinctPairKeysTail(pairs);
      forall i, j | 0 <= i < |acc'| && 0 <= j < |rest| ensures acc'[i].0 != rest[j].0 {
        assert rest[j] == pairs[j + 1];
      }
      PutAllFresh(acc', rest);
      AppendFirst(acc, pairs);
    }
  }

  /** The value paired with the last occurrence of k, if k occurs. */
  function LastValue(pairs: seq<(string, Emitted)>, k: string): Option<Emitted>
    decreases |pairs|
  {
    if pairs == [] then None
    else if LastValue(pairs[1..], k).Some? then LastValue(pairs[1..], k)
    else if pairs[0].0 == k then Some(pairs[0].1)
    else None
  }

  lemma {:induction false} LastValueAbsent(pairs: seq<(string, Emitted)>, k: string)
    requires forall l | 0 <= l < |pairs| :: pairs[l].0 != k
    ensures LastValue(pairs, k) == None
    decreases |pairs|
  {
    if pairs != [] {
      assert forall l | 0 <= l < |pairs| - 1 :: pairs[1..][l] == pairs[l + 1];
      LastValueAbsent(pairs[1..], k);
    }
  }

  /** A pair whose key does not occur again later holds the last value of that key. */
  lemma {:induction false} LastValueAt(pairs: seq<(string, Emitted)>, j: nat)
    requires j < |pairs|
    requires forall l | j < l < |pairs| :: pairs[l].0 != pairs[j].0
    ensures LastValue(pairs, pairs[j].0) == Some(pairs[j].1)
    decreases j
  {
    var rest := pairs[1..];
    if j == 0 {
      assert forall l | 0 <= l < |rest| :: rest[l] == pairs[l + 1];
      LastValueAbsent(rest, pairs[0].0);
    } else {
      assert forall l | j - 1 < l < |rest| :: rest[l] == pairs[l + 1];
      assert rest[j - 1] == pairs[j];
      LastValueAt(rest, j - 1);
    }
  }

  /** LinkedHashMap semantics of a sequence of puts: a key holds the value of its
      last put, and a key never put keeps its earlier value. */
  lemma {:induction false} LookupPutAllLast(acc: seq<(string, Emitted)>, pairs: seq<(string, Emitted)>, k: string)
    ensures Lookup(PutAll(acc, pairs), k) == if LastValue(pairs, k).Some? then LastValue(pairs, k) else Lookup(acc, k)
    decreases |pairs|
  {
    if pairs != [] {
      LookupPutAllLast(Put(acc, pairs[0].0, pairs[0].1), pairs[1..], k);
    }
  }

  lemma KeysCons(p: (string, Emitted), rest: seq<(string, Emitted)>)
    ensures Keys([p] + rest) == [p.0] + Keys(rest)
  {
    assert forall i | 0 <= i < |rest| :: ([p] + rest)[i + 1] == rest[i];
  }

  /** The keys after a sequence of puts are the earlier keys and the keys put. */
  lemma {:induction false} PutAllKeySet(acc: seq<(string, Emitted)>, pairs: seq<(string, Emitted)>)
    ensures forall k :: k in Keys(PutAll(acc, pairs)) <==> k in Keys(acc) || k in Keys(pairs)
    decreases |pairs|
  {
    if pairs != [] {
      var acc' := Put(acc, pairs[0].0, pairs[0].1);
      PutAllKeySet(acc', pairs[1..]);
      KeysCons(pairs[0], pairs[1..]);
      assert [pairs[0]] + pairs[1..] == pairs;
    }
  }

  /** A put keeps every key of the map unique. */
  lemma PutKeepsKeysDistinct(pairs: seq<(string, Emitted)>, k: string, v: Emitted)
    requires DistinctPairKeys(pairs)
    ensures DistinctPairKeys(Put(pairs, k, v))
  {
    var r := Put(pairs, k, v);
    forall i, j | 0 <= i < j < |r| ensures r[i].0 != r[j].0 {
      assert Keys(r)[i] == r[i].0 && Keys(r)[j] == r[j].0;
      if k !in Keys(pairs) && j == |pairs| {
        assert Keys(pairs)[i] == pairs[i].0;
      } else {
        assert Keys(pairs)[i] == pairs[i].0 && Keys(pairs)[j] == pairs[j].0;
      }
    }
  }

  lemma {:induction false} PutAllKeepsKeysDistinct(acc: seq<(string, Emitted)>, pairs: seq<(string, Emitted)>)
    requires DistinctPairKeys(acc)
    ensures DistinctPairKeys(PutAll(acc, pairs))
    decreases |pairs|
  {
    if pairs != [] {
      PutKeepsKeysDistinct(acc, pairs[0].0, pairs[0].1);
      PutAllKeepsKeysDistinct(Put(acc, pairs[0].0, pairs[0].1), pairs[1..]);
    }
  }

  /** wrapValue: the plain deprocessor gives the value back; the commented one
      wraps it with the entry's comments when there are any. The value itself is
      never inspected or altered. */
  function WrapValue(flavour: Flavour, e: Entry, value: Emitted): (r: Emitted)
    ensures flavour == Plain ==> r == value
    ensures flavour == CommentedFlavour ==>
              (r == value <==> e.Comments() == []) &&
              (e.Comments() != [] ==> r == Commented(e.Comments(), value))
  {
    match flavour
    case Plain => value
    case CommentedFlavour => if e.Comments() != [] then Commented(e.Comments(), value) else value
  }

  /** A configuration instance answers every method of its definition, and a
      nested entry's method answers with an instance of the child section. */
  predicate Conforms(definition: seq<Entry>, data: map<string, Value>)
    decreases DefinitionSize(definition), 1
  {
    definition == [] || (ConformsEntry(definition[0], data) && Conforms(definition[1..], data))
  }

  predicate ConformsEntry(e: Entry, data: map<string, Value>)
    decreases EntrySize(e), 0
  {
    && e.accessor.name in data
    && match e
       case Single(_, _) => true
       case Nested(_, child) => data[e.accessor.name].VSection? && Conforms(child, data[e.accessor.name].fields)
  }

  /** What an entry contributes before wrapping: the value of its method, or the
      map a child deprocessor makes of its section. */
  function Unwrapped(flavour: Flavour, e: Entry, data: map<string, Value>): Emitted
    requires ConformsEntry(e, data)
    decreases EntrySize(e), 0
  {
    match e
    case Single(_, _) => Leaf(data[e.accessor.name])
    case Nested(_, definition) => Section(Deprocessed(flavour, definition, data[e.accessor.name].fields))
  }

  /** What an entry puts under its key: its value, wrapped. */
  function Contribution(flavour: Flavour, e: Entry, data: map<string, Value>): Emitted
    requires ConformsEntry(e, data)
    decreases EntrySize(e), 1
  {
    WrapValue(flavour, e, Unwrapped(flavour, e, data))
  }

  /** The pairs the traversal puts, one per entry, in entry order. */
  function Contributions(flavour: Flavour, definition: seq<Entry>, data: map<string, Value>): (r: seq<(string, Emitted)>)
    requires Conforms(definition, data)
    decreases DefinitionSize(definition), 2
    ensures |r| == |definition|
  {
    if definition == [] then []
    else [(definition[0].Key(), Contribution(flavour, definition[0], data))] + Contributions(flavour, definition[1..], data)
  }

  /** The i-th contribution is the i-th entry's key and wrapped value. */
  lemma {:induction false} ContributionAt(flavour: Flavour, definition: seq<Entry>, data: map<string, Value>, i: nat)
    requires Conforms(definition, data) && i < |definition|
    ensures ConformsEntry(definition[i], data)
    ensures Contributions(flavour, definition, data)[i] == (definition[i].Key(), Contribution(flavour, definition[i], data))
    decreases i
  {
    if i > 0 {
      ContributionAt(flavour, definition[1..], data, i - 1);
    }
  }

  /** deprocessAndGetResult: the map a new deprocessor fills, one put per entry. */
  function Deprocessed(flavour: Flavour, definition: seq<Entry>, data: map<string, Value>): (r: seq<(string, Emitted)>)
    requires Conforms(definition, data)
    decreases DefinitionSize(definition), 3
    ensures forall k :: k in Keys(r) <==> k in Keys(Contributions(flavour, definition, data))
    ensures DistinctPairKeys(r)
  {
    var pairs := Contributions(flavour, definition, data);
    PutAllKeySet([], pairs);
    PutAllKeepsKeysDistinct([], pairs);
    PutAll([], pairs)
  }

  /** The keys of the entries of a definition, in order. */
  function EntryKeys(definition: seq<Entry>): seq<string>
  {
    seq(|definition|, i requires 0 <= i < |definition| => definition[i].Key())
  }

  ghost predicate DistinctKeys(definition: seq<Entry>)
  {
    forall i, j | 0 <= i < j < |definition| :: definition[i].Key() != definition[j].Key()
  }

  /** The contributions carry the entries' keys, so distinct entry keys make
      distinct pair keys. */
  lemma ContributionKeys(flavour: Flavour, definition: seq<Entry>, data: map<string, Value>)
    requires Conforms(definition, data)
    ensures Keys(Contributions(flavour, definition, data)) == EntryKeys(definition)
    ensures DistinctKeys(definition) ==> DistinctPairKeys(Contributions(flavour, definition, data))
  {
    var pairs := Contributions(flavour, definition, data);
    forall i | 0 <= i < |definition| ensures pairs[i].0 == definition[i].Key() {
      ContributionAt(flavour, definition, data, i);
    }
    assert Keys(pairs) == EntryKeys(definition);
  }

  /** With distinct keys, the output's keys are the entries' keys in entry order. */
  lemma KeysFollowEntryOrder(flavour: Flavour, definition: seq<Entry>, data: map<string, Value>)
    requires Conforms(definition, data) && DistinctKeys(definition)
    ensures Deprocessed(flavour, definition, data) == Contributions(flavour, definition, data)
    ensures Keys(Deprocessed(flavour, definition, data)) == EntryKeys(definition)
  {
    var pairs := Contributions(flavour, definition, data);
    ContributionKeys(flavour, definition, data);
    PutAllFresh([], pairs);
    assert [] + pairs == pairs;
  }

  /** Whatever the keys, the output's keys are exactly the entries' keys. */
  lemma OutputKeysAreEntryKeys(flavour: Flavour, definition: seq<Entry>, data: map<string, Value>)
    requires Conforms(definition, data)
    ensures forall k :: k in Keys(Deprocessed(flavour, definition, data)) <==> k in EntryKeys(definition)
  {
    ContributionKeys(flavour, definition, data);
  }

  /** No later entry shares the key of entry i: entry i makes the last put under it. */
  predicate LastWithKey(definition: seq<Entry>, i: nat)
    requires i < |definition|
  {
    forall l | i < l < |definition| :: definition[l].Key() != definition[i].Key()
  }

  /** Every entry's key holds the wrapped value of the last entry with that key;
      with distinct keys, that is every entry. */
  lemma ValueAtEntryKey(flavour: Flavour, definition: seq<Entry>, data: map<string, Value>, i: nat)
    requires Conforms(definition, data) && i < |definition| && LastWithKey(definition, i)
    ensures ConformsEntry(definition[i], data)
    ensures Lookup(Deprocessed(flavour, definition, data), definition[i].Key()) ==
              Some(WrapValue(flavour, definition[i], Unwrapped(flavour, definition[i], data)))
  {
    var pairs := Contributions(flavour, definition, data);
    ContributionKeys(flavour, definition, data);
    ContributionAt(flavour, definition, data, i);
    forall l | i < l < |pairs| ensures pairs[l].0 != pairs[i].0 {
      assert Keys(pairs)[l] == pairs[l].0 && EntryKeys(definition)[l] == definition[l].Key();
    }
    LastValueAt(pairs, i);
    LookupPutAllLast([], pairs, definition[i].Key());
  }

  /** In the commented output, the value at an entry's key (the last entry with
      that key) is a CommentedWrapper exactly when that entry has comments, and
      then it carries exactly those comments. */
  lemma CommentedExactlyWhenComments(definition: seq<Entry>, data: map<string, Value>, i: nat)
    requires Conforms(definition, data) && i < |definition| && LastWithKey(definition, i)
    ensures var v := Lookup(Deprocessed(CommentedFlavour, definition, data), definition[i].Key());
            && v.Some?
            && (v.value.Commented? <==> definition[i].Comments() != [])
            && (v.value.Commented? ==> v.value.comments == definition[i].Comments())
  {
    ValueAtEntryKey(CommentedFlavour, definition, data, i);
  }

  /** The plain output holds each single entry's value untouched under its key,
      and each nested entry's section as the map of a plain child (for the last
      entry with that key). */
  lemma PlainKeepsValues(definition: seq<Entry>, data: map<string, Value>, i: nat)
    requires Conforms(definition, data) && i < |definition| && LastWithKey(definition, i)
    ensures definition[i].accessor.name in data
    ensures definition[i].Single? ==>
              Lookup(Deprocessed(Plain, definition, data), definition[i].Key()) == Some(Leaf(data[definition[i].accessor.name]))
    ensures definition[i].Nested? ==>
              && data[definition[i].accessor.name].VSection?
              && Conforms(definition[i].definition, data[definition[i].accessor.name].fields)
              && Lookup(Deprocessed(Plain, definition, data), definition[i].Key()) ==
                   Some(Section(Deprocessed(Plain, definition[i].definition, data[definition[i].accessor.name].fields)))
  {
    ValueAtEntryKey(Plain, definition, data, i);
  }

  /** The output with every CommentedWrapper removed, at every depth. */
  function Erase(v: Emitted): Emitted
  {
    match v
    case Leaf(_) => v
    case Section(pairs) => Section(seq(|pairs|, i requires 0 <= i < |pairs| => (pairs[i].0, Erase(pairs[i].1))))
    case Commented(_, inner) => Erase(inner)
  }

  function EraseAll(pairs: seq<(string, Emitted)>): seq<(string, Emitted)>
  {
    seq(|pairs|, i requires 0 <= i < |pairs| => (pairs[i].0, Erase(pairs[i].1)))
  }

  lemma EraseSection(pairs: seq<(string, Emitted)>)
    ensures Erase(Section(pairs)) == Section(EraseAll(pairs))
  {
    var a, b := Erase(Section(pairs)).pairs, EraseAll(pairs);
    assert |a| == |b| && forall i | 0 <= i < |a| :: a[i] == b[i];
  }

  lemma EraseAllCons(x: (string, Emitted), rest: seq<(string, Emitted)>)
    ensures EraseAll([x] + rest) == [(x.0, Erase(x.1))] + EraseAll(rest)
    ensures EraseAll([]) == []
  {
    var a, b := EraseAll([x] + rest), [(x.0, Erase(x.1))] + EraseAll(rest);
    assert |a| == |b|;
    forall i | 0 <= i < |a| ensures a[i] == b[i] {
      if i > 0 { assert ([x] + rest)[i] == rest[i - 1]; }
    }
  }

  lemma {:induction false} EraseAllPut(pairs: seq<(string, Emitted)>, k: string, v: Emitted)
    ensures EraseAll(Put(pairs, k, v)) == Put(EraseAll(pairs), k, Erase(v))
    decreases |pairs|
  {
    if pairs == [] {
      EraseAllCons((k, v), []);
    } else {
      EraseAllCons(pairs[0], pairs[1..]);
      assert pairs == [pairs[0]] + pairs[1..];
      if pairs[0].0 != k {
        EraseAllPut(pairs[1..], k, v);
        EraseAllCons(pairs[0], Put(pairs[1..], k, v));
      } else {
        EraseAllCons((k, v), pairs[1..]);
      }
    }
  }

  lemma {:induction false} EraseAllPutAll(acc: seq<(string, Emitted)>, pairs: seq<(string, Emitted)>)
    ensures EraseAll(PutAll(acc, pairs)) == PutAll(EraseAll(acc), EraseAll(pairs))
    decreases |pairs|
  {
    if pairs == [] {
      EraseAllCons(("", Leaf(VBool(false))), []);
    } else {
      EraseAllPut(acc, pairs[0].0, pairs[0].1);
      EraseAllPutAll(Put(acc, pairs[0].0, pairs[0].1), pairs[1..]);
      EraseAllCons(pairs[0], pairs[1..]);
      assert pairs == [pairs[0]] + pairs[1..];
      assert ([(pairs[0].0, Erase(pairs[0].1))] + EraseAll(pairs[1..]))[1..] == EraseAll(pairs[1..]);
    }
  }

  /** Erasing the comments of an entry's commented contribution gives its plain
      contribution. */
  lemma {:induction false} EraseContribution(e: Entry, data: map<string, Value>)
    requires ConformsEntry(e, data)
    ensures Erase(Contribution(CommentedFlavour, e, data)) == Contribution(Plain, e, data)
    decreases EntrySize(e), 1
  {
    if e.Nested? {
      var childData := data[e.accessor.name].fields;
      CommentsAreOnlyAdded(e.definition, childData);
      EraseSection(Deprocessed(CommentedFlavour, e.definition, childData));
    }
  }

  /** The commented deprocessor differs from the plain one only by its
      CommentedWrappers: erasing them, at every depth, gives the plain output. */
  lemma {:induction false} CommentsAreOnlyAdded(definition: seq<Entry>, data: map<string, Value>)
    requires Conforms(definition, data)
    ensures EraseAll(Deprocessed(CommentedFlavour, definition, data)) == Deprocessed(Plain, definition, data)
    decreases DefinitionSize(definition), 2
  {
    var commented := Contributions(CommentedFlavour, definition, data);
    var plain := Contributions(Plain, definition, data);
    forall i | 0 <= i < |definition| ensures EraseAll(commented)[i] == plain[i] {
      ContributionAt(CommentedFlavour, definition, data, i);
      ContributionAt(Plain, definition, data, i);
      EntrySizeWithin(definition, i);
      EraseContribution(definition[i], data);
    }
    assert EraseAll(commented) == plain;
    EraseAllPutAll([], commented);
    EraseAllCons(("", Leaf(VBool(false))), []);
  }

  /** The map deprocessor: the definition and instance it writes, its flavour,
      and the LinkedHashMap it fills. */
  class MapDeprocessor {
    const flavour: Flavour
    const definition: seq<Entry>
    const configData: map<string, Value>
    var topLevelMap: seq<(string, Emitted)>

    constructor (flavour: Flavour, definition: seq<Entry>, configData: map<string, Value>)
      ensures this.flavour == flavour && this.definition == definition && this.configData == configData
      ensures topLevelMap == []
    {
      this.flavour := flavour;
      this.definition := definition;
      this.configData := configData;
      topLevelMap := [];
    }

    /** finishSingle: the wrapped value goes under the entry's key. */
    method FinishSingle(entry: Entry, value: Value)
      requires entry.Single?
      modifies this
      ensures topLevelMap == Put(old(topLevelMap), entry.Key(), WrapValue(flavour, entry, Leaf(value)))
    {
      topLevelMap := Put(topLevelMap, entry.Key(), WrapValue(flavour, entry, Leaf(value)));
    }

    /** continueNested: a child deprocessor of the same flavour writes the
        section, and its map goes, wrapped, under the entry's key. */
    method ContinueNested(entry: Entry, childConf: map<string, Value>)
      requires entry.Nested? && Conforms(entry.definition, childConf)
      modifies this
      decreases EntrySize(entry), 0
      ensures topLevelMap ==
                Put(old(topLevelMap), entry.Key(), WrapValue(flavour, entry, Section(Deprocessed(flavour, entry.definition, childConf))))
    {
      var deprocessor := CreateChildDeprocessor(entry, childConf);
      var childMap := deprocessor.DeprocessAndGetResult();
      topLevelMap := Put(topLevelMap, entry.Key(), WrapValue(flavour, entry, Section(childMap)));
    }

    /** createChildDeprocessor: a new deprocessor of this one's own class. */
    method CreateChildDeprocessor(entry: Entry, childConf: map<string, Value>) returns (child: MapDeprocessor)
      requires entry.Nested?
      ensures fresh(child) && child.flavour == flavour && child.topLevelMap == []
      ensures child.definition == entry.definition && child.configData == childConf
    {
      child := new MapDeprocessor(flavour, entry.definition, childConf);
    }

    /** deprocess: each entry in order, its value read from the instance. */
    method Deprocess()
      requires Conforms(definition, configData)
      modifies this
      decreases DefinitionSize(definition), 1
      ensures topLevelMap == PutAll(old(topLevelMap), Contributions(flavour, definition, configData))
    {
      ghost var pairs := Contributions(flavour, definition, configData);
      var i := 0;
      while i < |definition|
        invariant 0 <= i <= |definition|
        invariant PutAll(old(topLevelMap), pairs) == PutAll(topLevelMap, pairs[i..])
      {
        var entry := definition[i];
        ContributionAt(flavour, definition, configData, i);
        ghost var before := topLevelMap;
        assert PutAll(before, pairs[i..]) == PutAll(Put(before, pairs[i].0, pairs[i].1), pairs[i + 1..]) by {
          assert pairs[i..][0] == pairs[i] && pairs[i..][1..] == pairs[i + 1..];
        }
        var value := configData[entry.accessor.name];
        if entry.Single? {
          FinishSingle(entry, value);
        } else {
          EntrySizeWithin(definition, i);
          ContinueNested(entry, value.fields);
        }
        assert topLevelMap == Put(before, pairs[i].0, pairs[i].1);
        i := i + 1;
      }
      assert pairs[i..] == [];
    }

    /** deprocessAndGetResult: deprocess, then hand out the filled map. */
    method DeprocessAndGetResult() returns (result: seq<(string, Emitted)>)
      requires Conforms(definition, configData) && topLevelMap == []
      modifies this
      decreases DefinitionSize(definition), 2
      ensures result == Deprocessed(flavour, definition, configData)
    {
      Deprocess();
      result := topLevelMap;
    }
  }
}
