/** The values that flow through the marshalling engine, the exceptions it raises,
    the configuration options it reads, and the user and library code it calls
    (as parameters, since that code is not part of this model). */
module Values {
  import opened Wrappers
  import opened JavaLang

  /** A java.lang.Number: an integral one (Byte, Short, Integer, Long, BigInteger)
      carries its mathematical value; a floating one (Double, Float) is an opaque
      IEEE-754 bit pattern, since floating point is not modelled. */
  datatype Number = Integral(i: int) | Floating(bits: bv64)

  /** A Java object as the engine sees it. Documents and default annotations
      produce booleans, numbers, strings, lists and maps; conversion produces the
      other shapes as well. */
  datatype Value =
    | VBool(b: bool)
    | VNum(n: Number)
    | VStr(s: string)
    | VChar(c: char)
    | VEnum(enumType: string, name: string)
    | VList(items: seq<Value>)
    | VSet(elems: set<Value>)
    | VMap(entries: map<string, Value>)
    /** an object of a user type, built by a ValueSerialiser */
    | VCustom(typeName: string, data: string)
    /** a configuration instance: the values recorded under each method name */
    | VSection(fields: map<string, Value>)
    /** null, as a document can hold it, for instance as an element of a list */
    | VNull

  /** A user-supplied ValueValidator, named by its class. */
  datatype ValidatorRef = ValidatorRef(className: string)

  /** A user-supplied ValueSerialiser, named by its class. */
  datatype SerialiserRef = SerialiserRef(className: string)

  /** Why a value was rejected (the message of a BadValueException). */
  datatype BadReason =
    | NotABoolean(value: Value)
    | NotANumber(value: Value)
    | NotParsableAsNumber(text: string)
    | BelowMinimum(actual: int, min: int)
    | AboveMaximum(actual: int, max: int)
    | SizeBelowMinimum(size: nat, min: int)
    | SizeAboveMaximum(size: nat, max: int)
    | NotSingleCharacter(value: Value)
    | NotAnEnumConstant(parsable: string, enumType: string)
    | NotAList(value: Value)
    | RejectedByValidator(message: string)

  /** Why a schema is ill-defined (the message of an IllDefinedConfigException). */
  datatype Defect =
    | DuplicateMethodName(methodName: string)
    | NoSerialiser(key: string)
    | SerialiserReturnedNull(key: string, serialiser: SerialiserRef)
    | NoDefaultAnnotation(qualifiedMethod: string)
    | IncompleteDefaultMap(qualifiedMethod: string)
    | HasParameters(qualifiedMethod: string)
    | NonPublicReturnType(qualifiedMethod: string, returnType: string)
    | NotAnInterface(typeName: string)
    | InvalidDefaults(cause: Error)

  /** The exceptions of the engine. */
  datatype Error =
    | BadValue(key: string, reason: BadReason)
    | MissingValue(key: string)
    | MissingKey(key: string)
    | IllDefined(defect: Defect)
    /** an AssertionError: an internal invariant of the library was broken */
    | InternalError(message: string)
    /** a NullPointerException: toString() was called on a null value */
    | NullPointer

  /** The parts of ConfigurationOptions the engine reads. */
  datatype Options = Options(
    strictParseEnums: bool,
    /** global validators, by entry key */
    validators: map<string, ValidatorRef>,
    /** registered serialisers, by the name of the type they produce */
    serialisers: map<string, SerialiserRef>)

  /** Code outside the engine, supplied as functions: the user's serialisers and
      validators, and the JDK behaviour this model does not reproduce. */
  datatype Host = Host(
    /** ValueSerialiser#deserialise(key, text); None stands for a null result */
    deserialise: (SerialiserRef, string, string) -> Option<Value>,
    /** ValueValidator#validate(key, value); Some(message) when it throws */
    validate: (ValidatorRef, string, Value) -> Option<string>,
    /** NumberFormat.getInstance().parse(text); None when it throws ParseException */
    parseNumber: string -> Option<Number>,
    /** byteValue(), shortValue(), intValue(), longValue() of a floating Number */
    narrowFloating: (bv64, Width) -> int,
    /** toString() of the objects whose rendering is not modelled: floating
        numbers, sets, maps, custom objects, configuration instances */
    otherToString: Value -> string)

  /** Number#longValue, intValue, shortValue, byteValue: always a value of the
      width asked for. */
  function NarrowNumber(host: Host, n: Number, w: Width): (r: int)
    ensures -w.Half() <= r < w.Half()
    ensures n.Integral? ==> r == Wrap(n.i, w)
  {
    match n
    case Integral(i) => Wrap(i, w)
    case Floating(bits) => Wrap(host.narrowFloating(bits, w), w)
  }

  function JoinRendered(host: Host, items: seq<Value>): string
    decreases items, 0
  {
    if items == [] then ""
    else if |items| == 1 then ToString(host, items[0])
    else ToString(host, items[0]) + ", " + JoinRendered(host, items[1..])
  }

  /** Object#toString, as getAsString uses it; a null element of a list is
      rendered "null", as AbstractCollection#toString renders it. */
  function ToString(host: Host, v: Value): string
    decreases v, 1
  {
    match v
    case VBool(b) => if b then "true" else "false"
    case VNum(Integral(i)) => IntToString(i)
    case VStr(s) => s
    case VChar(c) => [c]
    case VEnum(_, name) => name
    case VList(items) => "[" + JoinRendered(host, items) + "]"
    case VNull => "null"
    case _ => host.otherToString(v)
  }
}
