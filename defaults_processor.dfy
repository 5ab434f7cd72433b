/** DefaultsProcessor: the source of pre-values that reads each entry's default
    annotation instead of a document. */
module DefaultsProcessor {
  import opened Wrappers
  import opened JavaLang
  import opened Values
  import opened ConfEntry

  /** The boxing of one annotation array element into a Java object. */
  function BoxBoolean(b: bool): Value { VBool(b) }
  function BoxInteger(i: int): Value { VNum(Integral(i)) }
  function BoxDouble(bits: bv64): Value { VNum(Floating(bits)) }
  function BoxString(s: string): Value { VStr(s) }

  /** The list the toList overloads build: each element of the array, boxed. */
  function Boxed<T>(elements: seq<T>, box: T -> Value): (list: seq<Value>)
  {
    seq(|elements|, i requires 0 <= i < |elements| => box(elements[i]))
  }

  /** toList(boolean[]), toList(int[]), toList(long[]) and toList(double[]):
      a list of the same length holding the boxed elements in the same order. */
  method ToList<T>(elements: seq<T>, box: T -> Value) returns (list: seq<Value>)
    ensures |list| == |elements|
    ensures forall i | 0 <= i < |elements| :: list[i] == box(elements[i])
    ensures list == Boxed(elements, box)
  {
    list := [];
    for i := 0 to |elements|
      invariant |list| == i
      invariant forall j | 0 <= j < i :: list[j] == box(elements[j])
    {
      list := list + [box(elements[i])];
    }
  }

  /** The map toMap builds from an even number of strings: the element at 2i
      is a key, the one at 2i+1 its value, and a later pair overwrites an
      earlier one with the same key. */
  function Pairs(values: seq<string>): (m: map<string, string>)
    requires |values| % 2 == 0
    decreases |values|
    ensures values != [] ==> values[|values| - 2] in m && m[values[|values| - 2]] == values[|values| - 1]
  {
    if values == [] then map[]
    else Pairs(values[..|values| - 2])[values[|values| - 2] := values[|values| - 1]]
  }

  /** Exactly the strings at even positions are keys. */
  lemma {:induction false} PairsKeys(values: seq<string>, k: string)
    requires |values| % 2 == 0
    ensures k in Pairs(values) <==> exists j | 0 <= j < |values| / 2 :: values[2 * j] == k
    decreases |values|
  {
    if values != [] {
      var n := |values|;
      var prefix := values[..n - 2];
      var last := n / 2 - 1;
      assert |prefix| / 2 == last && 2 * last == n - 2;
      PairsKeys(prefix, k);
      if k in Pairs(values) {
        if k == values[n - 2] {
          assert values[2 * last] == k;
        } else {
          var j :| 0 <= j < |prefix| / 2 && prefix[2 * j] == k;
          assert values[2 * j] == k;
        }
      }
      if exists j | 0 <= j < n / 2 :: values[2 * j] == k {
        var j :| 0 <= j < n / 2 && values[2 * j] == k;
        if j < last {
          assert prefix[2 * j] == k;
        } else {
          assert 2 * j == n - 2;
        }
      }
    }
  }

  /** A key takes the value paired with its last occurrence. */
  lemma {:induction false} PairsLastWins(values: seq<string>, j: nat)
    requires |values| % 2 == 0 && j < |values| / 2
    requires forall l | j < l < |values| / 2 :: values[2 * l] != values[2 * j]
    ensures values[2 * j] in Pairs(values) && Pairs(values)[values[2 * j]] == values[2 * j + 1]
    decreases |values|
  {
    var n := |values|;
    if j < n / 2 - 1 {
      var prefix := values[..n - 2];
      forall l | j < l < |prefix| / 2
        ensures prefix[2 * l] != prefix[2 * j]
      {
        assert values[2 * l] != values[2 * j];
      }
      PairsLastWins(prefix, j);
      assert values[n - 2] != values[2 * j] by {
        assert values[2 * (n / 2 - 1)] != values[2 * j];
      }
    }
  }

  /** Repeated keys only shrink the map: it never has more than half as many
      entries as there are strings. */
  lemma {:induction false} PairsSize(values: seq<string>)
    requires |values| % 2 == 0
    ensures |Pairs(values)| <= |values| / 2
    decreases |values|
  {
    if values != [] {
      PairsSize(values[..|values| - 2]);
    }
  }

  /** toMap: an odd number of strings is an incomplete @DefaultMap; otherwise
      the strings are paired up. */
  method ToMap(qualifiedMethod: string, values: seq<string>) returns (r: Result<map<string, string>, Error>)
    ensures r.Err? <==> |values| % 2 == 1
    ensures r.Err? ==> r.error == IllDefined(IncompleteDefaultMap(qualifiedMethod))
    ensures r.Ok? ==> r.value == Pairs(values)
  {
    var result: map<string, string> := map[];
    var key: Option<string> := None;
    for i := 0 to |values|
      invariant key.None? <==> i % 2 == 0
      invariant key.Some? ==> key.value == values[i - 1]
      invariant result == Pairs(values[..i - i % 2])
    {
      if key.None? {
        key := Some(values[i]);
      } else {
        assert values[..i + 1][..i - 1] == values[..i - 1];
        result := result[key.value := values[i]];
        key := None;
      }
    }
    if key.Some? {
      return Err(IllDefined(IncompleteDefaultMap(qualifiedMethod)));
    }
    assert values[..|values|] == values;
    return Ok(result);
  }

  /** The Map<String, String> toMap returns, as a Java object. */
  function MapValue(m: map<string, string>): Value
  {
    VMap(map k | k in m :: VStr(m[k]))
  }

  /** The default of a method: the first default annotation present, in the
      order Boolean, Booleans, Integer, Integers, Long, Longs, Double, Doubles,
      String, Strings, Map; without any of them the schema is ill-defined. */
  function DefaultValue(m: MethodInfo): (r: Result<Value, Error>)
    ensures r.Ok? ==> !r.value.VNull?
    ensures r.Err? ==> r.error == IllDefined(IncompleteDefaultMap(QualifiedName(m))) ||
                       r.error == IllDefined(NoDefaultAnnotation(QualifiedName(m)))
  {
    var d := m.annotations.defaults;
    if d.defaultBoolean.Some? then Ok(VBool(d.defaultBoolean.value))
    else if d.defaultBooleans.Some? then Ok(VList(Boxed(d.defaultBooleans.value, BoxBoolean)))
    else if d.defaultInteger.Some? then Ok(VNum(Integral(d.defaultInteger.value)))
    else if d.defaultIntegers.Some? then Ok(VList(Boxed(d.defaultIntegers.value, BoxInteger)))
    else if d.defaultLong.Some? then Ok(VNum(Integral(d.defaultLong.value)))
    else if d.defaultLongs.Some? then Ok(VList(Boxed(d.defaultLongs.value, BoxInteger)))
    else if d.defaultDouble.Some? then Ok(VNum(Floating(d.defaultDouble.value)))
    else if d.defaultDoubles.Some? then Ok(VList(Boxed(d.defaultDoubles.value, BoxDouble)))
    else if d.defaultString.Some? then Ok(VStr(d.defaultString.value))
    else if d.defaultStrings.Some? then Ok(VList(Boxed(d.defaultStrings.value, BoxString)))
    else if d.defaultMap.Some? then
      if |d.defaultMap.value| % 2 == 1 then Err(IllDefined(IncompleteDefaultMap(QualifiedName(m))))
      else Ok(MapValue(Pairs(d.defaultMap.value)))
    else Err(IllDefined(NoDefaultAnnotation(QualifiedName(m))))
  }

  /** getValueFromSources: the precedence chain over the default annotations. */
  method GetValueFromSources(m: MethodInfo) returns (r: Result<Value, Error>)
    ensures r == DefaultValue(m)
  {
    var d := m.annotations.defaults;
    if d.defaultBoolean.Some? {
      return Ok(VBool(d.defaultBoolean.value));
    }
    if d.defaultBooleans.Some? {
      var list := ToList(d.defaultBooleans.value, BoxBoolean);
      return Ok(VList(list));
    }
    if d.defaultInteger.Some? {
      return Ok(VNum(Integral(d.defaultInteger.value)));
    }
    if d.defaultIntegers.Some? {
      var list := ToList(d.defaultIntegers.value, BoxInteger);
      return Ok(VList(list));
    }
    if d.defaultLong.Some? {
      return Ok(VNum(Integral(d.defaultLong.value)));
    }
    if d.defaultLongs.Some? {
      var list := ToList(d.defaultLongs.value, BoxInteger);
      return Ok(VList(list));
    }
    if d.defaultDouble.Some? {
      return Ok(VNum(Floating(d.defaultDouble.value)));
    }
    if d.defaultDoubles.Some? {
      var list := ToList(d.defaultDoubles.value, BoxDouble);
      return Ok(VList(list));
    }
    if d.defaultString.Some? {
      return Ok(VStr(d.defaultString.value));
    }
    if d.defaultStrings.Some? {
      return Ok(VList(Boxed(d.defaultStrings.value, BoxString)));
    }
    if d.defaultMap.Some? {
      var pairs := ToMap(QualifiedName(m), d.defaultMap.value);
      if pairs.Err? {
        return Err(pairs.error);
      }
      return Ok(MapValue(pairs.value));
    }
    return Err(IllDefined(NoDefaultAnnotation(QualifiedName(m))));
  }

  /** Whether the k-th default annotation, in precedence order, is present. */
  predicate Present(m: MethodInfo, k: nat)
  {
    var d := m.annotations.defaults;
    match k
    case 0 => d.defaultBoolean.Some?
    case 1 => d.defaultBooleans.Some?
    case 2 => d.defaultInteger.Some?
    case 3 => d.defaultIntegers.Some?
    case 4 => d.defaultLong.Some?
    case 5 => d.defaultLongs.Some?
    case 6 => d.defaultDouble.Some?
    case 7 => d.defaultDoubles.Some?
    case 8 => d.defaultString.Some?
    case 9 => d.defaultStrings.Some?
    case 10 => d.defaultMap.Some?
    case _ => false
  }

  /** What the k-th default annotation gives when it is the one consulted. */
  function Outcome(m: MethodInfo, k: nat): Result<Value, Error>
    requires Present(m, k)
  {
    var d := m.annotations.defaults;
    match k
    case 0 => Ok(VBool(d.defaultBoolean.value))
    case 1 => Ok(VList(Boxed(d.defaultBooleans.value, BoxBoolean)))
    case 2 => Ok(VNum(Integral(d.defaultInteger.value)))
    case 3 => Ok(VList(Boxed(d.defaultIntegers.value, BoxInteger)))
    case 4 => Ok(VNum(Integral(d.defaultLong.value)))
    case 5 => Ok(VList(Boxed(d.defaultLongs.value, BoxInteger)))
    case 6 => Ok(VNum(Floating(d.defaultDouble.value)))
    case 7 => Ok(VList(Boxed(d.defaultDoubles.value, BoxDouble)))
    case 8 => Ok(VStr(d.defaultString.value))
    case 9 => Ok(VList(Boxed(d.defaultStrings.value, BoxString)))
    case _ =>
      if |d.defaultMap.value| % 2 == 1 then Err(IllDefined(IncompleteDefaultMap(QualifiedName(m))))
      else Ok(MapValue(Pairs(d.defaultMap.value)))
  }

  /** The chain is a first match: the earliest default annotation present
      decides the default, whatever annotations follow it. */
  lemma DefaultIsFirstPresent(m: MethodInfo, k: nat)
    requires Present(m, k)
    requires forall j | 0 <= j < k :: !Present(m, j)
    ensures DefaultValue(m) == Outcome(m, k)
  {
    if k > 0 { assert !Present(m, 0); }
    if k > 1 { assert !Present(m, 1); }
    if k > 2 { assert !Present(m, 2); }
    if k > 3 { assert !Present(m, 3); }
    if k > 4 { assert !Present(m, 4); }
    if k > 5 { assert !Present(m, 5); }
    if k > 6 { assert !Present(m, 6); }
    if k > 7 { assert !Present(m, 7); }
    if k > 8 { assert !Present(m, 8); }
    if k > 9 { assert !Present(m, 9); }
  }

  /** Without any default annotation the schema is ill-defined. */
  lemma NoAnnotationIsIllDefined(m: MethodInfo)
    requires forall j | 0 <= j < 11 :: !Present(m, j)
    ensures DefaultValue(m) == Err(IllDefined(NoDefaultAnnotation(QualifiedName(m))))
  {
    assert !Present(m, 0) && !Present(m, 1) && !Present(m, 2) && !Present(m, 3);
    assert !Present(m, 4) && !Present(m, 5) && !Present(m, 6) && !Present(m, 7);
    assert !Present(m, 8) && !Present(m, 9) && !Present(m, 10);
  }

  /** continueNested: the processor of a nested section is another defaults
      processor over the child definition; auxiliary values are an internal error. */
  function ContinueNested(childEntry: Entry, nestedAuxiliaryValues: Option<Value>): (r: Result<seq<Entry>, Error>)
    requires childEntry.Nested?
    ensures r.Ok? <==> nestedAuxiliaryValues.None?
    ensures r.Ok? ==> r.value == childEntry.definition
    ensures r.Err? ==> r.error.InternalError?
  {
    if nestedAuxiliaryValues.Some? then
      Err(InternalError("Internal error: DefaultsProcessor does not handle auxiliary entries"))
    else Ok(childEntry.definition)
  }
}
