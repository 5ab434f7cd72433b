/** The conversion rules of ProcessorBase: how one pre-value is turned into a
    value of the goal type of an entry, or rejected. Every rule reports errors
    under the key of the entry being processed. */
module Coercion {
  import opened Wrappers
  import opened JavaLang
  import opened Values
  import opened ConfEntry
  import opened IntegerRangeAnnotation

  /** getAsString: the toString() of the pre-value; on null it throws a
      NullPointerException. */
  function GetAsString(host: Host, v: Value): (r: Result<string, Error>)
    ensures r.Err? <==> v.VNull?
    ensures r.Err? ==> r.error == NullPointer
    ensures v.VStr? ==> r == Ok(v.s)
    ensures v.VChar? ==> r == Ok([v.c])
    ensures v.VBool? ==> r == Ok(if v.b then "true" else "false")
    ensures v.VEnum? ==> r == Ok(v.name)
  {
    if v.VNull? then Err(NullPointer) else Ok(ToString(host, v))
  }

  /** getAsBoolean as written: a Boolean is kept; a String spelled "true" or
      "yes" in any case is true, one spelled "false" in any case is false;
      everything else is a bad value. The second test of the "false" branch
      repeats "false", so "no" is a bad value too. */
  function GetAsBooleanAsWritten(key: string, v: Value): (r: Result<Value, Error>)
    ensures v.VBool? ==> r == Ok(v)
    ensures v.VStr? ==>
              (r == Ok(VBool(true)) <==> EqualsIgnoreCase(v.s, "true") || EqualsIgnoreCase(v.s, "yes"))
    ensures v.VStr? ==> (r == Ok(VBool(false)) <==> EqualsIgnoreCase(v.s, "false"))
    ensures r.Err? <==>
              !v.VBool? &&
              !(v.VStr? && (EqualsIgnoreCase(v.s, "true") || EqualsIgnoreCase(v.s, "yes") ||
                            EqualsIgnoreCase(v.s, "false")))
    ensures r.Err? ==> r.error == BadValue(key, NotABoolean(v))
  {
    if v.VBool? then Ok(v)
    else if v.VStr? && (EqualsIgnoreCase(v.s, "true") || EqualsIgnoreCase(v.s, "yes")) then Ok(VBool(true))
    else if v.VStr? && (EqualsIgnoreCase(v.s, "false") || EqualsIgnoreCase(v.s, "false")) then Ok(VBool(false))
    else Err(BadValue(key, NotABoolean(v)))
  }

  /** getAsBoolean as intended: "true" and "yes" are true, "false" and "no"
      are false, in any case; everything else is a bad value. */
  function GetAsBoolean(key: string, v: Value): (r: Result<Value, Error>)
    ensures v.VBool? ==> r == Ok(v)
    ensures v.VStr? ==>
              (r == Ok(VBool(true)) <==> EqualsIgnoreCase(v.s, "true") || EqualsIgnoreCase(v.s, "yes"))
    ensures v.VStr? ==> (r == Ok(VBool(false)) <==> EqualsIgnoreCase(v.s, "false") || EqualsIgnoreCase(v.s, "no"))
    ensures r.Err? <==>
              !v.VBool? &&
              !(v.VStr? && (EqualsIgnoreCase(v.s, "true") || EqualsIgnoreCase(v.s, "yes") ||
                            EqualsIgnoreCase(v.s, "false") || EqualsIgnoreCase(v.s, "no")))
    ensures r.Err? ==> r.error == BadValue(key, NotABoolean(v))
  {
    if v.VBool? then Ok(v)
    else if v.VStr? && (EqualsIgnoreCase(v.s, "true") || EqualsIgnoreCase(v.s, "yes")) then Ok(VBool(true))
    else if v.VStr? && (EqualsIgnoreCase(v.s, "false") || EqualsIgnoreCase(v.s, "no")) then Ok(VBool(false))
    else Err(BadValue(key, NotABoolean(v)))
  }

  /** getAsNumber0: a Number is kept, a String is parsed, anything else is a
      bad value. */
  function GetAsNumber0(host: Host, key: string, v: Value): (r: Result<Number, Error>)
    ensures v.VNum? ==> r == Ok(v.n)
    ensures v.VStr? ==> (r.Ok? <==> host.parseNumber(v.s).Some?)
    ensures v.VStr? && r.Ok? ==> r.value == host.parseNumber(v.s).value
    ensures v.VStr? && r.Err? ==> r.error == BadValue(key, NotParsableAsNumber(v.s))
    ensures !v.VNum? && !v.VStr? ==> r == Err(BadValue(key, NotANumber(v)))
  {
    match v
    case VNum(n) => Ok(n)
    case VStr(s) =>
      (match host.parseNumber(s)
       case Some(n) => Ok(n)
       case None => Err(BadValue(key, NotParsableAsNumber(s))))
    case _ => Err(BadValue(key, NotANumber(v)))
  }

  /** getAsNumber, integer part: with @IntegerRange the long value of the number
      must lie within the inclusive bounds, the minimum being checked first; the
      number itself is returned unchanged. */
  function GetAsNumber(host: Host, key: string, m: MethodInfo, v: Value): (r: Result<Number, Error>)
    ensures r.Ok? ==> GetAsNumber0(host, key, v) == r
    ensures r.Ok? && m.annotations.integerRange.Some? ==>
              Admits(m.annotations.integerRange.value, NarrowNumber(host, r.value, Long))
    ensures GetAsNumber0(host, key, v).Ok? && m.annotations.integerRange.Some? ==>
              var n := GetAsNumber0(host, key, v).value;
              var range := m.annotations.integerRange.value;
              var asLong := NarrowNumber(host, n, Long);
              (asLong < range.min ==> r == Err(BadValue(key, BelowMinimum(asLong, range.min)))) &&
              (range.min <= asLong && asLong > range.max ==> r == Err(BadValue(key, AboveMaximum(asLong, range.max))))
    ensures GetAsNumber0(host, key, v).Err? ==> r == GetAsNumber0(host, key, v)
    ensures GetAsNumber0(host, key, v).Ok? &&
            (m.annotations.integerRange.None? ||
             Admits(m.annotations.integerRange.value, NarrowNumber(host, GetAsNumber0(host, key, v).value, Long))) ==>
              r == GetAsNumber0(host, key, v)
  {
    var n :- GetAsNumber0(host, key, v);
    match m.annotations.integerRange
    case None => Ok(n)
    case Some(range) =>
      var asLong := NarrowNumber(host, n, Long);
      if asLong < range.min then Err(BadValue(key, BelowMinimum(asLong, range.min)))
      else if asLong > range.max then Err(BadValue(key, AboveMaximum(asLong, range.max)))
      else Ok(n)
  }

  /** The char rule: the string rendering must be exactly one UTF-16 code unit
      long, that is, one character of the Basic Multilingual Plane. */
  function GetAsChar(host: Host, key: string, v: Value): (r: Result<Value, Error>)
    ensures v.VNull? ==> r == Err(NullPointer)
    ensures r.Ok? <==> GetAsString(host, v).Ok? && Length(GetAsString(host, v).value) == 1
    ensures r.Ok? ==> r.value.VChar? && GetAsString(host, v) == Ok([r.value.c])
    ensures r.Ok? ==> r.value.c as int < 0x1_0000
    ensures !v.VNull? && r.Err? ==> r.error == BadValue(key, NotSingleCharacter(v))
  {
    var s :- GetAsString(host, v);
    LengthOne(s);
    if Length(s) != 1 then Err(BadValue(key, NotSingleCharacter(v))) else assert s == [s[0]]; Ok(VChar(s[0]))
  }

  /** enumValueOf: the constant whose name is exactly `parsable`. */
  function EnumValueOf(key: string, enumType: string, constants: seq<string>, parsable: string): (r: Result<Value, Error>)
    ensures r.Ok? <==> parsable in constants
    ensures r.Ok? ==> r.value == VEnum(enumType, parsable)
    ensures r.Err? ==> r.error == BadValue(key, NotAnEnumConstant(parsable, enumType))
  {
    if parsable in constants then Ok(VEnum(enumType, parsable))
    else Err(BadValue(key, NotAnEnumConstant(parsable, enumType)))
  }

  /** The string an enum name is looked up by, from the string rendering s of
      the pre-value: upper-cased unless enums are parsed strictly. */
  function EnumParsable(options: Options, s: string): (parsable: string)
    ensures EqualsIgnoreCase(parsable, s)
    ensures options.strictParseEnums ==> parsable == s
    ensures !options.strictParseEnums ==> ToUpperCase(parsable) == parsable
  {
    ToUpperCaseIdempotent(s);
    if options.strictParseEnums then s else ToUpperCase(s)
  }

  /** fromSerialiser: the serialiser deserialises the string rendering of the
      pre-value; a null result is a defect of the serialiser, not of the input.
      A null pre-value cannot be rendered. */
  function FromSerialiser(host: Host, key: string, serialiser: SerialiserRef, v: Value): (r: Result<Value, Error>)
    ensures v.VNull? ==> r == Err(NullPointer)
    ensures !v.VNull? ==> (r.Ok? <==> host.deserialise(serialiser, key, GetAsString(host, v).value).Some?)
    ensures r.Ok? ==> GetAsString(host, v).Ok? &&
                      r.value == host.deserialise(serialiser, key, GetAsString(host, v).value).value
    ensures !v.VNull? && r.Err? ==> r.error == IllDefined(SerialiserReturnedNull(key, serialiser))
  {
    var text :- GetAsString(host, v);
    match host.deserialise(serialiser, key, text)
    case Some(x) => Ok(x)
    case None => Err(IllDefined(SerialiserReturnedNull(key, serialiser)))
  }

  /** processObjectAtEntryWithGoal: the rule is chosen by the goal type, in this
      order: the entry's serialiser override, collections, boolean, String,
      integral types, char, enums, and finally a serialiser registered for the
      goal type, without which the schema is ill-defined. Without a serialiser
      override, a converted value always has the shape of its goal type. */
  function Coerce(options: Options, host: Host, key: string, m: MethodInfo, goal: Goal, pre: Value): (r: Result<Value, Error>)
    decreases pre, 2, 0
    ensures m.annotations.confSerialiser.None? && r.Ok? ==> OfGoalType(goal, r.value)
  {
    if m.annotations.confSerialiser.Some? then FromSerialiser(host, key, m.annotations.confSerialiser.value, pre)
    else
      match goal
      case ListGoal => CoerceCollection(options, host, key, m, true, pre)
      case SetGoal => CoerceCollection(options, host, key, m, false, pre)
      case CollectionGoal => CoerceCollection(options, host, key, m, false, pre)
      case BooleanGoal => GetAsBoolean(key, pre)
      case StringGoal =>
        var s :- GetAsString(host, pre);
        Ok(VStr(s))
      case IntegralGoal(w) =>
        var n :- GetAsNumber(host, key, m, pre);
        Ok(VNum(Integral(NarrowNumber(host, n, w))))
      case CharGoal => GetAsChar(host, key, pre)
      case EnumGoal(enumType, constants) =>
        var s :- GetAsString(host, pre);
        EnumValueOf(key, enumType, constants, EnumParsable(options, s))
      case OtherGoal(typeName) =>
        if typeName in options.serialisers then FromSerialiser(host, key, options.serialisers[typeName], pre)
        else Err(IllDefined(NoSerialiser(key)))
  }

  /** getAsCollection: the pre-value must be a List; with @CollectionSize its
      size is checked before any element is converted; each element is then
      converted to the element type, into a list (List goal) or a set (Set and
      Collection goals). */
  function CoerceCollection(options: Options, host: Host, key: string, m: MethodInfo, ordered: bool, pre: Value): (r: Result<Value, Error>)
    decreases pre, 1, 0
    ensures r.Ok? ==> pre.VList? && SizeAdmitted(m, |pre.items|)
    ensures r.Ok? && ordered ==> r.value.VList? && |r.value.items| == |pre.items|
    ensures r.Ok? && !ordered ==> r.value.VSet? && |r.value.elems| <= |pre.items|
    ensures pre.VList? && SizeAdmitted(m, |pre.items|) ==>
              (r.Ok? <==> forall j | 0 <= j < |pre.items| :: Coerce(options, host, key, m, m.collectionElement, pre.items[j]).Ok?)
  {
    if !pre.VList? then Err(BadValue(key, NotAList(pre)))
    else if m.annotations.collectionSize.Some? && |pre.items| < m.annotations.collectionSize.value.min then
      Err(BadValue(key, SizeBelowMinimum(|pre.items|, m.annotations.collectionSize.value.min)))
    else if m.annotations.collectionSize.Some? && |pre.items| > m.annotations.collectionSize.value.max then
      Err(BadValue(key, SizeAboveMaximum(|pre.items|, m.annotations.collectionSize.value.max)))
    else
      var converted :- CoerceElements(options, host, key, m, pre, 0);
      CardinalityOfElements(converted);
      Ok(if ordered then VList(converted) else VSet(set x | x in converted))
  }

  /** @CollectionSize, when present, admits the size. */
  predicate SizeAdmitted(m: MethodInfo, size: nat)
  {
    m.annotations.collectionSize.None? ||
    (m.annotations.collectionSize.value.min <= size && size <= m.annotations.collectionSize.value.max)
  }

  lemma {:induction false} CardinalityOfElements(xs: seq<Value>)
    ensures |set x | x in xs| <= |xs|
  {
    if xs != [] {
      CardinalityOfElements(xs[1..]);
      assert (set x | x in xs) == (set x | x in xs[1..]) + {xs[0]};
    }
  }

  /** The shape goal.cast accepts for each goal type: a list, a set, a boolean,
      a string, an integer within the width, one UTF-16 code unit, a constant of
      the enum, or any object for a type produced by a serialiser. */
  predicate OfGoalType(goal: Goal, v: Value)
  {
    match goal
    case ListGoal => v.VList?
    case SetGoal => v.VSet?
    case CollectionGoal => v.VSet?
    case BooleanGoal => v.VBool?
    case StringGoal => v.VStr?
    case IntegralGoal(w) => v.VNum? && v.n.Integral? && -w.Half() <= v.n.i < w.Half()
    case CharGoal => v.VChar? && v.c as int < 0x1_0000
    case EnumGoal(enumType, constants) => v.VEnum? && v.enumType == enumType && v.name in constants
    case OtherGoal(_) => true
  }

  /** The elements from position i on, converted in order; the first element that
      fails decides the error. */
  function CoerceElements(options: Options, host: Host, key: string, m: MethodInfo, list: Value, i: nat): (r: Result<seq<Value>, Error>)
    requires list.VList? && i <= |list.items|
    decreases list, 0, |list.items| - i
    ensures r.Ok? <==> forall j | i <= j < |list.items| :: Coerce(options, host, key, m, m.collectionElement, list.items[j]).Ok?
    ensures r.Ok? ==> |r.value| == |list.items| - i
    ensures r.Ok? ==> forall j | i <= j < |list.items| ::
              Coerce(options, host, key, m, m.collectionElement, list.items[j]) == Ok(r.value[j - i])
  {
    if i == |list.items| then Ok([])
    else
      var head :- Coerce(options, host, key, m, m.collectionElement, list.items[i]);
      var tail :- CoerceElements(options, host, key, m, list, i + 1);
      Ok([head] + tail)
  }
}

/** What the conversion rules promise, stated over all inputs. */
module CoercionProperties {
  import opened Wrappers
  import opened JavaLang
  import opened Values
  import opened ConfEntry
  import opened IntegerRangeAnnotation
  import opened Coercion

  /** Illustration of the char rule: a character outside the Basic Multilingual
      Plane is two UTF-16 units long, so it is not a char. */
  lemma SupplementaryCharIsNotAChar(host: Host, key: string)
    ensures GetAsChar(host, key, VStr("\U{1F600}")) == Err(BadValue(key, NotSingleCharacter(VStr("\U{1F600}"))))
  {
    LengthOne("\U{1F600}");
  }

  /** An entry-level serialiser override wins over every built-in rule,
      collections included: the serialiser sees the string rendering. */
  lemma SerialiserOverrideWins(options: Options, host: Host, key: string, m: MethodInfo, goal: Goal, pre: Value)
    requires m.annotations.confSerialiser.Some?
    ensures pre.VNull? ==> Coerce(options, host, key, m, goal, pre) == Err(NullPointer)
    ensures !pre.VNull? ==>
              var text := GetAsString(host, pre).value;
              var s := m.annotations.confSerialiser.value;
              Coerce(options, host, key, m, goal, pre) ==
                if host.deserialise(s, key, text).Some? then Ok(host.deserialise(s, key, text).value)
                else Err(IllDefined(SerialiserReturnedNull(key, s)))
  {
  }

  /** Illustration of the boolean rule: "Yes" is read as true: "yes" is matched ignoring case. */
  lemma YesIsTrue(key: string)
    ensures GetAsBoolean(key, VStr("Yes")) == Ok(VBool(true))
  {
    assert ToUpperCase("Yes") == "YES" == ToUpperCase("yes");
  }

  /** Illustration of the boolean rule: "TRUE" is read as true: "true" is matched ignoring case. */
  lemma UpperTrueIsTrue(key: string)
    ensures GetAsBoolean(key, VStr("TRUE")) == Ok(VBool(true))
  {
    assert ToUpperCase("TRUE") == "TRUE" == ToUpperCase("true");
  }

  /** Illustration of the boolean rule: "False" is read as false: "false" is matched ignoring case. */
  lemma FalseIgnoresCase(key: string)
    ensures GetAsBoolean(key, VStr("False")) == Ok(VBool(false))
  {
    assert ToUpperCase("False") == "FALSE" == ToUpperCase("false");
  }

  /** As written, "no" is not a boolean: the second test of the "false" branch
      repeats "false". */
  lemma NoIsRejected(key: string)
    ensures GetAsBooleanAsWritten(key, VStr("no")) == Err(BadValue(key, NotABoolean(VStr("no"))))
  {
    assert |ToUpperCase("no")| == 2;
    assert |ToUpperCase("true")| == 4;
    assert |ToUpperCase("yes")| == 3;
    assert |ToUpperCase("false")| == 5;
  }

  /** Illustration of the intended boolean rule: "No" is read as false. */
  lemma NoIsFalse(key: string)
    ensures GetAsBoolean(key, VStr("No")) == Ok(VBool(false))
  {
    assert ToUpperCase("No") == "NO" == ToUpperCase("no");
  }

  /** The correction changes nothing but the spellings of "no": on every other
      input the intended rule and the rule as written agree. */
  lemma CorrectionOnlyAddsNo(key: string, v: Value)
    ensures !(v.VStr? && EqualsIgnoreCase(v.s, "no")) ==> GetAsBoolean(key, v) == GetAsBooleanAsWritten(key, v)
    ensures v.VStr? && EqualsIgnoreCase(v.s, "no") ==>
              GetAsBoolean(key, v) == Ok(VBool(false)) && GetAsBooleanAsWritten(key, v).Err?
  {
    if v.VStr? && EqualsIgnoreCase(v.s, "no") {
      var u := ToUpperCase(v.s);
      assert |u| == 2;
      assert |ToUpperCase("true")| == 4 && |ToUpperCase("yes")| == 3 && |ToUpperCase("false")| == 5;
    }
  }

  /** The integral rule: the long value of the number is checked against the
      inclusive @IntegerRange bounds, and only then narrowed to the goal width. */
  /** An integral goal accepts every number when there is no @IntegerRange, and
      otherwise exactly the numbers whose long value the range admits; the value
      stored is the number narrowed to the goal's width, after the check. */
  lemma IntegerRangeCheckedBeforeNarrowing(options: Options, host: Host, key: string, m: MethodInfo, w: Width, pre: Value)
    requires m.annotations.confSerialiser.None?
    requires GetAsNumber0(host, key, pre).Ok?
    ensures var n := GetAsNumber0(host, key, pre).value;
            var r := Coerce(options, host, key, m, IntegralGoal(w), pre);
            (r.Ok? <==> m.annotations.integerRange.None? ||
                        Admits(m.annotations.integerRange.value, NarrowNumber(host, n, Long))) &&
            (r.Ok? ==> r.value == VNum(Integral(NarrowNumber(host, n, w))))
  {
  }

  /** With @IntegerRange(min = 1, max = 10), 0 and 11 are rejected while 1 and 10,
      the bounds themselves, are accepted. */
  lemma RangeBoundsInclusive(options: Options, host: Host, key: string, m: MethodInfo)
    requires m.annotations.confSerialiser.None?
    requires m.annotations.integerRange == Some(IntegerRange(1, 10))
    ensures Coerce(options, host, key, m, IntegralGoal(Int), VNum(Integral(0))) == Err(BadValue(key, BelowMinimum(0, 1)))
    ensures Coerce(options, host, key, m, IntegralGoal(Int), VNum(Integral(11))) == Err(BadValue(key, AboveMaximum(11, 10)))
    ensures Coerce(options, host, key, m, IntegralGoal(Int), VNum(Integral(1))) == Ok(VNum(Integral(1)))
    ensures Coerce(options, host, key, m, IntegralGoal(Int), VNum(Integral(10))) == Ok(VNum(Integral(10)))
  {
  }

  /** Because the range is checked before narrowing, a byte entry declared with
      @IntegerRange(min = 100, max = 1000) accepts 300 and stores 44, a value
      outside its own range. */
  lemma NarrowedValueMayLeaveRange(options: Options, host: Host, key: string, m: MethodInfo)
    requires m.annotations.confSerialiser.None?
    requires m.annotations.integerRange == Some(IntegerRange(100, 1000))
    ensures Coerce(options, host, key, m, IntegralGoal(Byte), VNum(Integral(300))) == Ok(VNum(Integral(44)))
    ensures !Admits(m.annotations.integerRange.value, 44)
  {
  }

  /** Unless enums are parsed strictly, an enum name is matched ignoring case:
      two spellings that differ only in case convert alike, errors included. */
  lemma EnumIgnoresCaseUnlessStrict(options: Options, host: Host, key: string, m: MethodInfo,
                                    enumType: string, constants: seq<string>, a: string, b: string)
    requires m.annotations.confSerialiser.None? && !options.strictParseEnums
    requires EqualsIgnoreCase(a, b)
    ensures Coerce(options, host, key, m, EnumGoal(enumType, constants), VStr(a)) ==
            Coerce(options, host, key, m, EnumGoal(enumType, constants), VStr(b))
  {
  }

  /** With strict enum parsing the name must match a constant exactly. */
  lemma StrictEnumIsExact(options: Options, host: Host, key: string, m: MethodInfo,
                          enumType: string, constants: seq<string>, s: string)
    requires m.annotations.confSerialiser.None? && options.strictParseEnums
    ensures Coerce(options, host, key, m, EnumGoal(enumType, constants), VStr(s)).Ok? <==> s in constants
  {
  }

  /** A collection goal rejects anything that is not a List. */
  lemma CollectionNeedsList(options: Options, host: Host, key: string, m: MethodInfo, goal: Goal, pre: Value)
    requires m.annotations.confSerialiser.None?
    requires goal == ListGoal || goal == SetGoal || goal == CollectionGoal
    requires !pre.VList?
    ensures Coerce(options, host, key, m, goal, pre) == Err(BadValue(key, NotAList(pre)))
  {
  }

  /** A size outside @CollectionSize is reported before any element is
      converted, whatever the elements are. */
  lemma SizeCheckedBeforeElements(options: Options, host: Host, key: string, m: MethodInfo, goal: Goal, items: seq<Value>)
    requires m.annotations.confSerialiser.None?
    requires goal == ListGoal || goal == SetGoal || goal == CollectionGoal
    requires m.annotations.collectionSize.Some?
    ensures var bounds := m.annotations.collectionSize.value;
            var r := Coerce(options, host, key, m, goal, VList(items));
            (|items| < bounds.min ==> r == Err(BadValue(key, SizeBelowMinimum(|items|, bounds.min)))) &&
            (bounds.min <= |items| && |items| > bounds.max ==> r == Err(BadValue(key, SizeAboveMaximum(|items|, bounds.max))))
  {
  }

  /** Elements are converted in order and the first one that fails decides
      the error: every element before it converts. */
  lemma {:induction false} FirstFailingElementDecides(options: Options, host: Host, key: string, m: MethodInfo, list: Value, i: nat)
    requires list.VList? && i <= |list.items|
    requires CoerceElements(options, host, key, m, list, i).Err?
    ensures exists j | i <= j < |list.items| ::
              && Coerce(options, host, key, m, m.collectionElement, list.items[j]) == Err(CoerceElements(options, host, key, m, list, i).error)
              && forall l | i <= l < j :: Coerce(options, host, key, m, m.collectionElement, list.items[l]).Ok?
    decreases |list.items| - i
  {
    var r := CoerceElements(options, host, key, m, list, i);
    if Coerce(options, host, key, m, m.collectionElement, list.items[i]).Err? {
      assert Coerce(options, host, key, m, m.collectionElement, list.items[i]) == Err(r.error);
    } else {
      FirstFailingElementDecides(options, host, key, m, list, i + 1);
      var j :| i + 1 <= j < |list.items| &&
               Coerce(options, host, key, m, m.collectionElement, list.items[j]) == Err(CoerceElements(options, host, key, m, list, i + 1).error) &&
               forall l | i + 1 <= l < j :: Coerce(options, host, key, m, m.collectionElement, list.items[l]).Ok?;
      assert forall l | i <= l < j :: Coerce(options, host, key, m, m.collectionElement, list.items[l]).Ok?;
    }
  }

  /** A List goal keeps the order and the number of the elements, each converted
      to the element type; it fails exactly when some element fails. */
  lemma ListKeepsOrder(options: Options, host: Host, key: string, m: MethodInfo, items: seq<Value>)
    requires m.annotations.confSerialiser.None? && SizeAdmitted(m, |items|)
    ensures var r := Coerce(options, host, key, m, ListGoal, VList(items));
            (r.Ok? <==> forall j | 0 <= j < |items| :: Coerce(options, host, key, m, m.collectionElement, items[j]).Ok?) &&
            (r.Ok? ==> r.value.VList? && |r.value.items| == |items| &&
                       forall j | 0 <= j < |items| ::
                         Coerce(options, host, key, m, m.collectionElement, items[j]) == Ok(r.value.items[j]))
  {
    var _ := CoerceElements(options, host, key, m, VList(items), 0);
  }

  /** A Set goal, and a plain Collection goal likewise, holds exactly the
      converted elements. */
  lemma SetHoldsConvertedElements(options: Options, host: Host, key: string, m: MethodInfo, goal: Goal, items: seq<Value>, x: Value)
    requires m.annotations.confSerialiser.None? && SizeAdmitted(m, |items|)
    requires goal == SetGoal || goal == CollectionGoal
    requires Coerce(options, host, key, m, goal, VList(items)).Ok?
    ensures var r := Coerce(options, host, key, m, goal, VList(items)).value;
            r.VSet? &&
            (x in r.elems <==> exists j | 0 <= j < |items| :: Coerce(options, host, key, m, m.collectionElement, items[j]) == Ok(x))
  {
    var converted := CoerceElements(options, host, key, m, VList(items), 0).value;
    if exists j | 0 <= j < |items| :: Coerce(options, host, key, m, m.collectionElement, items[j]) == Ok(x) {
      var j :| 0 <= j < |items| && Coerce(options, host, key, m, m.collectionElement, items[j]) == Ok(x);
      assert converted[j] == x;
    }
    if x in converted {
      var j :| 0 <= j < |converted| && converted[j] == x;
      assert Coerce(options, host, key, m, m.collectionElement, items[j]) == Ok(x);
    }
  }

  /** Any other goal type is converted by the serialiser registered for it; a
      type with none makes the schema ill-defined, whatever the pre-value. */
  lemma OtherTypesNeedSerialiser(options: Options, host: Host, key: string, m: MethodInfo, typeName: string, pre: Value)
    requires m.annotations.confSerialiser.None?
    ensures var r := Coerce(options, host, key, m, OtherGoal(typeName), pre);
            && (typeName !in options.serialisers ==> r == Err(IllDefined(NoSerialiser(key))))
            && (typeName in options.serialisers && pre.VNull? ==> r == Err(NullPointer))
            && (typeName in options.serialisers && !pre.VNull? ==>
                  var text := GetAsString(host, pre).value;
                  var s := options.serialisers[typeName];
                  r == if host.deserialise(s, key, text).Some? then Ok(host.deserialise(s, key, text).value)
                       else Err(IllDefined(SerialiserReturnedNull(key, s))))
  {
  }

  /** A null pre-value, which reaches the rules as an element of a list, is a
      bad value for the collection, boolean and integral rules; every rule that
      renders it as a string (String, char, enum and serialisers) throws a
      NullPointerException, after the check for a registered serialiser. */
  lemma NullElementOutcomes(options: Options, host: Host, key: string, m: MethodInfo, goal: Goal)
    ensures var r := Coerce(options, host, key, m, goal, VNull);
            && (m.annotations.confSerialiser.Some? ==> r == Err(NullPointer))
            && (m.annotations.confSerialiser.None? ==>
                  match goal
                  case ListGoal => r == Err(BadValue(key, NotAList(VNull)))
                  case SetGoal => r == Err(BadValue(key, NotAList(VNull)))
                  case CollectionGoal => r == Err(BadValue(key, NotAList(VNull)))
                  case BooleanGoal => r == Err(BadValue(key, NotABoolean(VNull)))
                  case IntegralGoal(_) => r == Err(BadValue(key, NotANumber(VNull)))
                  case OtherGoal(typeName) =>
                    r == if typeName in options.serialisers then Err(NullPointer) else Err(IllDefined(NoSerialiser(key)))
                  case _ => r == Err(NullPointer))
  {
  }

  /** The goals whose converted values convert again to themselves. */
  predicate ScalarReloadable(m: MethodInfo, goal: Goal)
  {
    match goal
    case BooleanGoal => true
    case StringGoal => true
    case CharGoal => true
    case EnumGoal(_, _) => true
    case IntegralGoal(w) => m.annotations.integerRange.None? || w == Long
    case _ => false
  }

  predicate Reloadable(m: MethodInfo, goal: Goal)
  {
    && m.annotations.confSerialiser.None?
    && (|| ScalarReloadable(m, goal)
        || (goal == ListGoal && (ScalarReloadable(m, m.collectionElement) || m.collectionElement == ListGoal)))
  }

  /** Converting a converted value again gives it back: booleans, strings,
      characters, enum constants, longs (and narrower integers without a range)
      and lists of these are stable under reloading. Sets are not, since a set
      is not a List; nor are ranged narrow integers (see NarrowedValueMayLeaveRange). */
  lemma {:induction false} CoerceIdempotent(options: Options, host: Host, key: string, m: MethodInfo, goal: Goal, pre: Value)
    requires Reloadable(m, goal)
    requires Coerce(options, host, key, m, goal, pre).Ok?
    ensures var v := Coerce(options, host, key, m, goal, pre).value;
            Coerce(options, host, key, m, goal, v) == Ok(v)
    decreases pre
  {
    var v := Coerce(options, host, key, m, goal, pre).value;
    match goal {
      case BooleanGoal =>
      case StringGoal =>
      case CharGoal =>
      case EnumGoal(enumType, constants) =>
        if !options.strictParseEnums {
          ToUpperCaseIdempotent(GetAsString(host, pre).value);
        }
      case IntegralGoal(w) =>
        var n := GetAsNumber(host, key, m, pre).value;
        var x := NarrowNumber(host, n, w);
        assert v == VNum(Integral(x));
        NarrowedIsLong(x, w);
        WrapIdempotent(x, w);
        if m.annotations.integerRange.Some? {
          assert w == Long;
        }
      case ListGoal =>
        var items := pre.items;
        var converted := v.items;
        assert |converted| == |items|;
        forall j | 0 <= j < |converted|
          ensures Coerce(options, host, key, m, m.collectionElement, converted[j]) == Ok(converted[j])
        {
          assert Coerce(options, host, key, m, m.collectionElement, items[j]) == Ok(converted[j]);
          CoerceIdempotent(options, host, key, m, m.collectionElement, items[j]);
        }
        var again := CoerceElements(options, host, key, m, v, 0);
        assert again.Ok?;
        assert again.value == converted;
    }
  }
}
