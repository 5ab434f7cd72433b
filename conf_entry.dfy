/** Schema entries (ConfEntry, SingleConfEntry, NestedConfEntry) and the reflective
    descriptors they are read from. A Method, a Class and their annotations are
    plain records here. */
module ConfEntry {
  import opened Wrappers
  import opened JavaLang
  import opened Values
  import opened IntegerRangeAnnotation

  /** The class a value is converted to: the return type of a method, or the
      element type of a collection. */
  datatype Goal =
    | ListGoal
    | SetGoal
    | CollectionGoal
    | BooleanGoal
    | StringGoal
    | IntegralGoal(width: Width)
    | CharGoal
    | EnumGoal(enumType: string, constants: seq<string>)
    | OtherGoal(typeName: string)

  /** @CollectionSize: inclusive bounds on the size of a collection. */
  datatype SizeBounds = SizeBounds(min: Int32, max: Int32)

  /** The @ConfDefault.* annotations of a method; absent ones are None. */
  datatype DefaultAnnotations = DefaultAnnotations(
    defaultBoolean: Option<bool>,
    defaultBooleans: Option<seq<bool>>,
    defaultInteger: Option<Int32>,
    defaultIntegers: Option<seq<Int32>>,
    defaultLong: Option<Int64>,
    defaultLongs: Option<seq<Int64>>,
    defaultDouble: Option<bv64>,
    defaultDoubles: Option<seq<bv64>>,
    defaultString: Option<string>,
    defaultStrings: Option<seq<string>>,
    defaultMap: Option<seq<string>>)

  /** The annotations of a configuration method that the engine reads. */
  datatype Annotations = Annotations(
    confKey: Option<string>,
    confComment: Option<seq<string>>,
    confComments: Option<seq<string>>,
    subSection: bool,
    /** the class named by @ConfValidator */
    confValidator: Option<string>,
    /** the serialiser named by @ConfSerialiser */
    confSerialiser: Option<SerialiserRef>,
    collectionSize: Option<SizeBounds>,
    integerRange: Option<IntegerRange>,
    defaults: DefaultAnnotations)

  /** A Class: its name, its modifiers, how values of it are converted, and, for an
      interface, the methods it declares. */
  datatype TypeInfo = TypeInfo(
    name: string,
    isPublic: bool,
    isInterface: bool,
    goal: Goal,
    methods: seq<MethodInfo>)

  /** A Method of a configuration interface. */
  datatype MethodInfo = MethodInfo(
    declaringType: string,
    name: string,
    parameterCount: nat,
    returnType: TypeInfo,
    /** the element type of a collection-typed method */
    collectionElement: Goal,
    isDefault: bool,
    annotations: Annotations)

  function QualifiedName(m: MethodInfo): string
  {
    m.declaringType + "." + m.name
  }

  /** The key of an entry: the @ConfKey value if present, otherwise the method name. */
  function FindKey(m: MethodInfo): (key: string)
    ensures m.annotations.confKey.Some? ==> key == m.annotations.confKey.value
    ensures m.annotations.confKey.None? ==> key == m.name
  {
    match m.annotations.confKey
    case Some(k) => k
    case None => m.name
  }

  /** The comments of an entry: those of @ConfComment, otherwise those of
      @ConfComments, otherwise none, in declared order. */
  function FindComments(m: MethodInfo): (comments: seq<string>)
    ensures m.annotations.confComment.Some? ==> comments == m.annotations.confComment.value
    ensures m.annotations.confComment.None? && m.annotations.confComments.Some? ==>
              comments == m.annotations.confComments.value
    ensures m.annotations.confComment.None? && m.annotations.confComments.None? ==> comments == []
  {
    if m.annotations.confComment.Some? then m.annotations.confComment.value
    else if m.annotations.confComments.Some? then m.annotations.confComments.value
    else []
  }

  /** An entry of a configuration definition. Its key and comments are computed
      once from its method and never change. */
  datatype Entry =
    | Single(accessor: MethodInfo, validator: Option<ValidatorRef>)
    | Nested(accessor: MethodInfo, definition: seq<Entry>)
  {
    function Key(): string {
      FindKey(accessor)
    }

    function Comments(): seq<string> {
      FindComments(accessor)
    }

    /** The @ConfSerialiser override of a single entry. */
    function Serialiser(): Option<SerialiserRef> {
      accessor.annotations.confSerialiser
    }
  }

  /** The argument of equals(Object): another entry, or any other object. */
  datatype JavaObject = EntryObject(entry: Entry) | OtherObject

  /** ConfEntry#equals: entries are equal exactly when their keys are. */
  predicate Equals(e: Entry, obj: JavaObject)
  {
    if obj == EntryObject(e) then true
    else if !obj.EntryObject? then false
    else e.Key() == obj.entry.Key()
  }

  /** ConfEntry#hashCode: 31 * 1 + key.hashCode(), in 32-bit arithmetic. */
  function HashCode(e: Entry): (h: int)
    ensures INT_MIN <= h <= INT_MAX
  {
    Wrap(31 * 1 + StringHashCode(e.Key()), Int)
  }

  /** Equality of entries is equality of keys, and nothing but an entry equals one. */
  lemma EqualsIsKeyEquality(e: Entry, obj: JavaObject)
    ensures Equals(e, obj) <==> obj.EntryObject? && obj.entry.Key() == e.Key()
  {
  }

  /** Equals is an equivalence relation on entries. */
  lemma EqualsIsEquivalence(a: Entry, b: Entry, c: Entry)
    ensures Equals(a, EntryObject(a))
    ensures Equals(a, EntryObject(b)) <==> Equals(b, EntryObject(a))
    ensures Equals(a, EntryObject(b)) && Equals(b, EntryObject(c)) ==> Equals(a, EntryObject(c))
  {
  }

  /** Equal entries have equal hash codes. */
  lemma HashCodeConsistentWithEquals(a: Entry, b: Entry)
    requires Equals(a, EntryObject(b))
    ensures HashCode(a) == HashCode(b)
  {
    assert a.Key() == b.Key();
  }

  /** Two different methods that declare the same key give equal entries. */
  lemma SameKeyDifferentMethods(m1: MethodInfo, m2: MethodInfo, k: string)
    requires m1.annotations.confKey == Some(k)
    requires m2.annotations.confKey.None? && m2.name == k
    ensures Equals(Single(m1, None), EntryObject(Single(m2, None)))
  {
  }

  /** The size of an entry, counting every entry of every nested definition;
      recursion over definitions decreases it. */
  function EntrySize(e: Entry): (n: nat)
    ensures n >= 1
  {
    match e
    case Single(_, _) => 1
    case Nested(_, definition) => 1 + DefinitionSize(definition)
  }

  function DefinitionSize(definition: seq<Entry>): nat
  {
    if definition == [] then 0 else EntrySize(definition[0]) + DefinitionSize(definition[1..])
  }

  lemma {:induction false} EntrySizeWithin(definition: seq<Entry>, i: nat)
    requires i < |definition|
    ensures EntrySize(definition[i]) + DefinitionSize(definition[i + 1..]) <= DefinitionSize(definition[i..])
    ensures DefinitionSize(definition[i..]) <= DefinitionSize(definition)
  {
    if i > 0 {
      EntrySizeWithin(definition[1..], i - 1);
      assert definition[1..][i - 1..] == definition[i..];
      assert definition[1..][i..] == definition[i + 1..];
    } else {
      assert definition[0..] == definition;
      assert definition[1..] == definition[i + 1..];
    }
  }
}
