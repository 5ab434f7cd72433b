# DazzleConf marshalling engine, in Dafny

This project models the marshalling core of DazzleConf, a Java library that
binds configuration interfaces to documents. It covers:

- **Processing** (`ProcessorBase`): each entry of a configuration definition
  is read from a source, converted to the return type of its method, and
  validated. The values are recorded under the method names.
- **Conversion rules**: serialiser override, collections with size bounds,
  boolean spellings, strings, integral types with `@IntegerRange`, `char`,
  enums, and registered serialisers.
- **The defaults source** (`DefaultsProcessor`): the precedence chain over the
  `@ConfDefault` annotations, `toList` and `toMap`.
- **Schema entries** (`ConfEntry`, `ConfEntryCreation`, `@IntegerRange`): keys,
  comments, equality by key, and the guard checks that classify a method.
- **Deprocessing** (`MapDeprocessor`, `CommentedDeprocessor`): a configuration
  instance is written back as an insertion-ordered map, with comments wrapped
  around the values in the commented variant.

Files, one module each:

- `wrappers.dfy`: `Option` and `Result`.
- `java_lang.dfy`: the java.lang behaviour the engine relies on: integer widths
  and two's-complement narrowing, upper-casing, `equalsIgnoreCase`,
  `Long.toString` with `Long.parseLong`, and strings as UTF-16 code units for
  `String.length` and `String.hashCode`.
- `values.dfy`: Java objects as values (null being `VNull`), the exceptions, the options, and the
  user and JDK code passed in as functions (`Host`).
- `integer_range.dfy`, `conf_entry.dfy`, `conf_entry_creation.dfy`: the schema.
- `defaults_processor.dfy`: `DefaultsProcessor`, with `toList` and `toMap` as
  loops proved against specification functions.
- `coercion.dfy`: the conversion rules as functions (`Coercion`), and what
  they promise over all inputs (`CoercionProperties`).
- `processor.dfy`: the class `ProcessorBase`. Its `Process` loop, its
  collection loop and its other methods are proved against the
  specification functions `ProcessAll`, `ProcessEntrySpec`, `Coerce` and
  `CoerceCollection`. Lemmas about those functions state what the loop
  guarantees.
- `deprocessor.dfy`: the class `MapDeprocessor`, whose flavour (plain or
  commented) selects `wrapValue`. It is proved against the specification
  `Deprocessed`, which puts each entry's contribution in entry order.
- `round_trip.dfy`: writing a processed configuration back and processing
  the written values again gives the same configuration.

The source mixes two API versions: `DefaultsProcessor.continueNested` takes
auxiliary values that `ProcessorBase` does not pass, and `CommentedDeprocessor`
extends `DeprocessorBase` rather than `MapDeprocessor`. The model follows the
shared algorithm: the commented deprocessor is `MapDeprocessor` with the
commented `wrapValue` and a child of its own kind.

The boolean rule reads "true" or "yes" as true, and its false branch makes two
tests, like the true branch. The second test repeats "false", where the
counterpart of "yes" is evidently "no". So "no" is rejected as a bad value
(ProcessorBase.java line 306). See "## Findings".

## Model

| member | source | states |
|---|---|---|
| JavaLang.Wrap | core/src/main/java/space/arim/dazzleconf/internal/processor/ProcessorBase.java:161-169 | two's-complement narrowing: the result lies in the range of the width, differs from the input by a multiple of 2^bits, and is the input itself when that is already in range |
| JavaLang.WrapIdempotent | core/src/main/java/space/arim/dazzleconf/internal/processor/ProcessorBase.java:161-169 | narrowing twice to the same width is narrowing once |
| JavaLang.NarrowedIsLong | core/src/main/java/space/arim/dazzleconf/internal/processor/ProcessorBase.java:161-169 | a value narrowed to byte, short or int keeps its value under longValue() |
| JavaLang.ToUpperCase | core/src/main/java/space/arim/dazzleconf/internal/processor/ProcessorBase.java:189-192 | upper-casing keeps the length and maps every character independently (ASCII letters only) |
| JavaLang.ToUpperCaseIdempotent | core/src/main/java/space/arim/dazzleconf/internal/processor/ProcessorBase.java:189-192 | upper-casing an upper-cased string changes nothing |
| JavaLang.IntToString | core/src/main/java/space/arim/dazzleconf/internal/processor/ProcessorBase.java:246-248 | the decimal rendering of an integral number is non-empty and starts with '-' exactly when the number is negative |
| JavaLang.NaturalToStringDenotes | core/src/main/java/space/arim/dazzleconf/internal/processor/ProcessorBase.java:246-248 | the digits of a natural number's rendering denote that number and have no leading zero |
| JavaLang.IntToStringParses | core/src/main/java/space/arim/dazzleconf/internal/processor/ProcessorBase.java:246-248 | Long.parseLong of the rendering of every integer gives that integer back |
| JavaLang.Utf16UnitsDecode | core/src/main/java/space/arim/dazzleconf/internal/processor/ProcessorBase.java:180-181 | a character is stored as one UTF-16 unit in the Basic Multilingual Plane and as a high-then-low surrogate pair otherwise, and decoding the units gives the character back |
| JavaLang.LengthOne | core/src/main/java/space/arim/dazzleconf/internal/processor/ProcessorBase.java:181 | String.length() counts UTF-16 units: it is 1 exactly when the string is a single character of the Basic Multilingual Plane |
| JavaLang.StringHashCode | core/src/main/java/space/arim/dazzleconf/internal/ConfEntry.java:71-77 | String.hashCode, folded over the UTF-16 code units in int arithmetic, always lies within the 32-bit int range |
| JavaLang.StringHashCodeAppend | core/src/main/java/space/arim/dazzleconf/internal/ConfEntry.java:71-77 | appending a character extends the hash by one 31*h+unit step per UTF-16 unit: one for a Basic Multilingual Plane character, two (high then low surrogate) otherwise |
| Values.NarrowNumber | core/src/main/java/space/arim/dazzleconf/internal/processor/ProcessorBase.java:161-169 | intValue/longValue/shortValue/byteValue give a value in range of the width, and the two's-complement wrap of an integral number |
| IntegerRangeAnnotation.Declare | core/src/main/java/space/arim/dazzleconf/annote/IntegerRange.java:38-52 | an omitted min is 0 and an omitted max is Long.MAX_VALUE; given bounds are kept |
| IntegerRangeAnnotation.BoundsInclusive | core/src/main/java/space/arim/dazzleconf/annote/IntegerRange.java:38-52 | both bounds are admitted and the values just outside them are not |
| IntegerRangeAnnotation.OnlyMaxRejectsNegatives | core/src/main/java/space/arim/dazzleconf/annote/IntegerRange.java:44 | with only max given, the default min of 0 rejects every negative value |
| IntegerRangeAnnotation.BareAnnotationAdmitsNonNegativeLongs | core/src/main/java/space/arim/dazzleconf/annote/IntegerRange.java:44-52 | a bare annotation admits exactly the non-negative longs |
| ConfEntry.FindKey | core/src/main/java/space/arim/dazzleconf/internal/ConfEntry.java:56-59 | the key is the @ConfKey value when present, otherwise the method name |
| ConfEntry.FindComments | core/src/main/java/space/arim/dazzleconf/internal/ConfEntry.java:61-69 | @ConfComment wins over @ConfComments, values in declared order; with neither the list is empty |
| ConfEntry.HashCode | core/src/main/java/space/arim/dazzleconf/internal/ConfEntry.java:71-77 | the hash code, 31 plus the key's String hash in int arithmetic, always lies within the 32-bit int range |
| ConfEntry.EqualsIsKeyEquality | core/src/main/java/space/arim/dazzleconf/internal/ConfEntry.java:79-89 | an entry equals an object exactly when that object is an entry with the same key; a non-entry is never equal |
| ConfEntry.EqualsIsEquivalence | core/src/main/java/space/arim/dazzleconf/internal/ConfEntry.java:79-89 | equals is reflexive, symmetric and transitive on entries |
| ConfEntry.HashCodeConsistentWithEquals | core/src/main/java/space/arim/dazzleconf/internal/ConfEntry.java:71-89 | equal entries have equal hash codes |
| ConfEntry.SameKeyDifferentMethods | core/src/main/java/space/arim/dazzleconf/internal/ConfEntry.java:79-89 | two different methods declaring the same key give equal entries: equality ignores the method |
| ConfEntryCreation.GetValidator | core/src/main/java/space/arim/dazzleconf/internal/ConfEntryCreation.java:69-72 | a validator exists exactly when @ConfValidator is present, and it is of the named class |
| ConfEntryCreation.Create | core/src/main/java/space/arim/dazzleconf/internal/ConfEntryCreation.java:44-54 | a method with parameters is rejected first, then a non-public return type, each as IllDefined; a created entry has this method and is nested exactly when @SubSection is present |
| ConfEntryCreation.Create0 | core/src/main/java/space/arim/dazzleconf/internal/ConfEntryCreation.java:56-67 | @SubSection on a non-interface is IllDefined; on an interface it gives a nested entry over the interface's read definition (or its error); otherwise a single entry with getValidator's validator |
| ConfEntryCreation.Read | core/src/main/java/space/arim/dazzleconf/internal/ConfEntryCreation.java:62-63 | reading an interface succeeds exactly when every method creates an entry, and gives one entry per method in declaration order |
| ConfEntryCreation.ReadWellFormed | core/src/main/java/space/arim/dazzleconf/internal/ConfEntryCreation.java:44-67 | every definition that reads successfully is well-formed at every depth: no parameters, public return types, nested exactly at @SubSection over interfaces |
| ConfEntryCreation.CreateWellFormed | core/src/main/java/space/arim/dazzleconf/internal/ConfEntryCreation.java:44-67 | every entry created is well-formed, nested definitions included |
| DefaultsProcessor.ToList | core/src/main/java/space/arim/dazzleconf/internal/processor/DefaultsProcessor.java:103-133 | the list has the array's length and holds its boxed elements in the same order |
| DefaultsProcessor.ToMap | core/src/main/java/space/arim/dazzleconf/internal/processor/DefaultsProcessor.java:135-150 | an odd number of strings is IllDefined "incomplete"; otherwise the result is the pairing of the strings |
| DefaultsProcessor.Pairs | core/src/main/java/space/arim/dazzleconf/internal/processor/DefaultsProcessor.java:135-150 | the last pair of the strings is always in the map: its key maps to its value |
| DefaultsProcessor.PairsKeys | core/src/main/java/space/arim/dazzleconf/internal/processor/DefaultsProcessor.java:135-145 | the keys of the map are exactly the strings at even positions |
| DefaultsProcessor.PairsLastWins | core/src/main/java/space/arim/dazzleconf/internal/processor/DefaultsProcessor.java:138-145 | a key maps to the value paired with its last occurrence |
| DefaultsProcessor.PairsSize | core/src/main/java/space/arim/dazzleconf/internal/processor/DefaultsProcessor.java:136-143 | the map has at most half as many entries as there are strings |
| DefaultsProcessor.GetValueFromSources | core/src/main/java/space/arim/dazzleconf/internal/processor/DefaultsProcessor.java:53-101 | the precedence chain returns exactly the default of the specification function DefaultValue |
| DefaultsProcessor.DefaultValue | core/src/main/java/space/arim/dazzleconf/internal/processor/DefaultsProcessor.java:53-101 | the defaults source never gives null, and fails only on a defect of the method's schema: an incomplete @DefaultMap or no default annotation |
| DefaultsProcessor.DefaultIsFirstPresent | core/src/main/java/space/arim/dazzleconf/internal/processor/DefaultsProcessor.java:56-99 | the first default annotation present, in the order Boolean, Booleans, Integer, Integers, Long, Longs, Double, Doubles, String, Strings, Map, decides the default |
| DefaultsProcessor.NoAnnotationIsIllDefined | core/src/main/java/space/arim/dazzleconf/internal/processor/DefaultsProcessor.java:100 | with no default annotation the schema is IllDefined for that method |
| DefaultsProcessor.ContinueNested | core/src/main/java/space/arim/dazzleconf/internal/processor/DefaultsProcessor.java:44-50 | auxiliary values are an internal error; otherwise the child processor walks the child definition |
| Coercion.GetAsString | core/src/main/java/space/arim/dazzleconf/internal/processor/ProcessorBase.java:246-248 | fails exactly on null, with a NullPointerException; otherwise the rendering of a string is itself, of a char that char, of a boolean "true"/"false", of an enum constant its name |
| Coercion.GetAsBooleanAsWritten | core/src/main/java/space/arim/dazzleconf/internal/processor/ProcessorBase.java:297-311 | the rule as written: a Boolean is kept; "true"/"yes" in any case are true; only "false" in any case is false; every other input is BadValue |
| Coercion.GetAsBoolean | core/src/main/java/space/arim/dazzleconf/internal/processor/ProcessorBase.java:297-311 | the rule as intended: as above, with "no" in any case also false |
| Coercion.GetAsNumber0 | core/src/main/java/space/arim/dazzleconf/internal/processor/ProcessorBase.java:280-295 | a Number is kept, a String is parsed (a parse failure is BadValue), anything else is BadValue |
| Coercion.GetAsNumber | core/src/main/java/space/arim/dazzleconf/internal/processor/ProcessorBase.java:250-278 | without @IntegerRange every number is accepted unchanged; with it, a number is accepted unchanged exactly when its long value lies within the inclusive bounds, the minimum being checked first; parse errors pass through |
| Coercion.GetAsChar | core/src/main/java/space/arim/dazzleconf/internal/processor/ProcessorBase.java:179-185 | succeeds exactly when the string rendering exists and has length 1 in UTF-16 units, giving that character (always below U+10000); null is a NullPointerException, any other value BadValue |
| Coercion.EnumValueOf | core/src/main/java/space/arim/dazzleconf/internal/processor/ProcessorBase.java:313-321 | succeeds exactly when the name is a constant of the enum; otherwise BadValue |
| Coercion.EnumParsable | core/src/main/java/space/arim/dazzleconf/internal/processor/ProcessorBase.java:189-192 | the string an enum is looked up by equals the rendering ignoring case; it is the rendering itself under strict parsing and upper-case otherwise |
| Coercion.FromSerialiser | core/src/main/java/space/arim/dazzleconf/internal/processor/ProcessorBase.java:204-212 | the serialiser deserialises the string rendering; a null result is IllDefined; a null pre-value is a NullPointerException |
| Coercion.Coerce | core/src/main/java/space/arim/dazzleconf/internal/processor/ProcessorBase.java:136-202 | without a serialiser override, a converted value always has the shape of its goal: list, set, boolean, string, integer within the width, one UTF-16 unit, or a constant of the enum |
| Coercion.CoerceCollection | core/src/main/java/space/arim/dazzleconf/internal/processor/ProcessorBase.java:220-244 | succeeds only on a List whose size @CollectionSize admits, and then exactly when every element converts; a List goal keeps the count, a Set or Collection goal has no more elements than the list |
| Coercion.CoerceElements | core/src/main/java/space/arim/dazzleconf/internal/processor/ProcessorBase.java:240-242 | element conversion succeeds exactly when every element converts, keeping count and order |
| CoercionProperties.SupplementaryCharIsNotAChar | core/src/main/java/space/arim/dazzleconf/internal/processor/ProcessorBase.java:179-183 | illustration of the char rule: the one-character string U+1F600, two UTF-16 units long, is BadValue |
| CoercionProperties.SerialiserOverrideWins | core/src/main/java/space/arim/dazzleconf/internal/processor/ProcessorBase.java:139-144 | an entry-level serialiser decides the result for every goal, collections included; a null pre-value is a NullPointerException |
| CoercionProperties.YesIsTrue | core/src/main/java/space/arim/dazzleconf/internal/processor/ProcessorBase.java:301-304 | illustration of the boolean rule: "Yes" is true |
| CoercionProperties.UpperTrueIsTrue | core/src/main/java/space/arim/dazzleconf/internal/processor/ProcessorBase.java:301-304 | illustration of the boolean rule: "TRUE" is true |
| CoercionProperties.FalseIgnoresCase | core/src/main/java/space/arim/dazzleconf/internal/processor/ProcessorBase.java:306-307 | illustration of the boolean rule: "False" is false |
| CoercionProperties.NoIsRejected | core/src/main/java/space/arim/dazzleconf/internal/processor/ProcessorBase.java:306-310 | as written, "no" is BadValue |
| CoercionProperties.NoIsFalse | core/src/main/java/space/arim/dazzleconf/internal/processor/ProcessorBase.java:306-307 | illustration of the intended rule: "No" is false |
| CoercionProperties.CorrectionOnlyAddsNo | core/src/main/java/space/arim/dazzleconf/internal/processor/ProcessorBase.java:297-311 | the intended rule agrees with the rule as written on every input except the spellings of "no" |
| CoercionProperties.IntegerRangeCheckedBeforeNarrowing | core/src/main/java/space/arim/dazzleconf/internal/processor/ProcessorBase.java:161-169 | an integral goal accepts every number without @IntegerRange, and with it exactly those whose long value the range admits; the stored value is narrowed to the goal width after the check |
| CoercionProperties.RangeBoundsInclusive | core/src/main/java/space/arim/dazzleconf/internal/processor/ProcessorBase.java:265-276 | with range 1..10, 0 and 11 are BadValue with their bound, 1 and 10 are accepted |
| CoercionProperties.NarrowedValueMayLeaveRange | core/src/main/java/space/arim/dazzleconf/internal/processor/ProcessorBase.java:167-168 | a byte entry with range 100..1000 accepts 300 and stores 44, outside its own range |
| CoercionProperties.EnumIgnoresCaseUnlessStrict | core/src/main/java/space/arim/dazzleconf/internal/processor/ProcessorBase.java:187-194 | without strict parsing, two spellings differing only in case convert alike |
| CoercionProperties.StrictEnumIsExact | core/src/main/java/space/arim/dazzleconf/internal/processor/ProcessorBase.java:187-194 | with strict parsing, an enum converts exactly when the name matches a constant |
| CoercionProperties.CollectionNeedsList | core/src/main/java/space/arim/dazzleconf/internal/processor/ProcessorBase.java:224-226 | a collection goal rejects any non-List with BadValue |
| CoercionProperties.SizeCheckedBeforeElements | core/src/main/java/space/arim/dazzleconf/internal/processor/ProcessorBase.java:228-239 | a size outside @CollectionSize is BadValue whatever the elements are |
| CoercionProperties.FirstFailingElementDecides | core/src/main/java/space/arim/dazzleconf/internal/processor/ProcessorBase.java:240-242 | the error of a failed conversion is that of the first failing element |
| CoercionProperties.ListKeepsOrder | core/src/main/java/space/arim/dazzleconf/internal/processor/ProcessorBase.java:228-243 | a List goal whose size is admitted (or unbounded) succeeds exactly when every element converts, and keeps order and count |
| CoercionProperties.SetHoldsConvertedElements | core/src/main/java/space/arim/dazzleconf/internal/processor/ProcessorBase.java:223-243 | a Set or Collection goal whose size is admitted (or unbounded) holds exactly the converted elements |
| CoercionProperties.OtherTypesNeedSerialiser | core/src/main/java/space/arim/dazzleconf/internal/processor/ProcessorBase.java:196-201 | any other type goes through its registered serialiser (a null pre-value then being a NullPointerException); a type with none is IllDefined, whatever the pre-value |
| CoercionProperties.NullElementOutcomes | core/src/main/java/space/arim/dazzleconf/internal/processor/ProcessorBase.java:136-202 | a null element is BadValue for the collection, boolean and integral rules, IllDefined for a type without serialiser, and a NullPointerException for every rule that renders it (String, char, enum, serialisers) |
| CoercionProperties.CoerceIdempotent | core/src/main/java/space/arim/dazzleconf/internal/processor/ProcessorBase.java:136-202 | converting a converted boolean, string, char, enum, long (or unranged narrower integer) or list of these gives it back |
| Processor.ChooseValidator | core/src/main/java/space/arim/dazzleconf/internal/processor/ProcessorBase.java:126-129 | the entry's own validator is preferred; otherwise the one the options register for the key, if any |
| Processor.SourceValue | core/src/main/java/space/arim/dazzleconf/internal/processor/ProcessorBase.java:120-123 | the defaults never give null and fail only as IllDefined; a document gives the value under the key (possibly null) exactly when it has the key, and otherwise MissingKey |
| Processor.ChildSource | core/src/main/java/space/arim/dazzleconf/internal/processor/ProcessorBase.java:115-117 | a nested entry read from the defaults is read from the defaults; one read from a document needs its section, and otherwise MissingKey |
| Processor.ProcessEntrySpec | core/src/main/java/space/arim/dazzleconf/internal/processor/ProcessorBase.java:114-134 | a processed single entry had a non-null pre-value, its value is that pre-value converted to the return type, and its validator (if any) accepted it; a nested entry gives a configuration instance |
| Processor.ProcessAll | core/src/main/java/space/arim/dazzleconf/internal/processor/ProcessorBase.java:98-112 | a successful loop keeps every key already recorded; ProcessAllValues states that their values are kept too |
| Processor.CreateConfigSpec | core/src/main/java/space/arim/dazzleconf/internal/processor/ProcessorBase.java:84-96 | an Ok result is a configuration instance (VSection); its fields are ProcessAll's map, characterised by ProcessAllKeys and ProcessAllValues |
| Processor.LoadDefaults | core/src/main/java/space/arim/dazzleconf/internal/AbstractConfigurationFactoryImpl.java:53-60 | succeeds exactly when building from the defaults does; an InvalidConfigException becomes IllDefined, other errors pass unchanged |
| Processor.ProcessAllSucceeds | core/src/main/java/space/arim/dazzleconf/internal/processor/ProcessorBase.java:98-112 | the loop succeeds exactly when every non-default entry processes and their method names are distinct |
| Processor.DuplicateMethodNameFails | core/src/main/java/space/arim/dazzleconf/internal/processor/ProcessorBase.java:107-110 | two processed entries with the same method name make processing fail |
| Processor.DuplicateMethodNameError | core/src/main/java/space/arim/dazzleconf/internal/processor/ProcessorBase.java:104-110 | the first processed entry whose method name is already recorded or declared earlier, reached with every entry up to it processed, ends the loop with exactly IllDefined(DuplicateMethodName) of that name |
| Processor.FirstFailingEntryDecides | core/src/main/java/space/arim/dazzleconf/internal/processor/ProcessorBase.java:100-108 | the first processed entry that fails, reached with every earlier entry processed under a fresh name, ends the loop with exactly its own error |
| Processor.ProcessAllKeys | core/src/main/java/space/arim/dazzleconf/internal/processor/ProcessorBase.java:104-107 | a successful loop records exactly the method names of the non-default entries |
| Processor.ProcessAllValues | core/src/main/java/space/arim/dazzleconf/internal/processor/ProcessorBase.java:106-107 | a successful loop records each processed entry's value under its method name |
| Processor.NullPreValueIsMissing | core/src/main/java/space/arim/dazzleconf/internal/processor/ProcessorBase.java:120-123 | a null pre-value is MissingValue at the entry's key |
| Processor.ValidatorRejects | core/src/main/java/space/arim/dazzleconf/internal/processor/ProcessorBase.java:126-132 | a validator that throws turns a converted value into BadValue |
| Processor.CoerceIgnoresValidators | core/src/main/java/space/arim/dazzleconf/internal/processor/ProcessorBase.java:136-202 | conversion does not depend on the registered validators |
| Processor.EntryValidatorPreferred | core/src/main/java/space/arim/dazzleconf/internal/processor/ProcessorBase.java:126-129 | an entry with its own validator is processed alike whatever validators the options register |
| Processor.ProcessorBase.constructor | core/src/main/java/space/arim/dazzleconf/internal/processor/ProcessorBase.java:68-71 | a new processor has its options and entries and has recorded nothing |
| Processor.ProcessorBase.CreateConfig | core/src/main/java/space/arim/dazzleconf/internal/processor/ProcessorBase.java:84-96 | createConfig yields exactly the specification CreateConfigSpec |
| Processor.ProcessorBase.Process | core/src/main/java/space/arim/dazzleconf/internal/processor/ProcessorBase.java:98-112 | the loop over the entries yields the same outcome and recorded map as ProcessAll |
| Processor.ProcessorBase.ProcessEntry | core/src/main/java/space/arim/dazzleconf/internal/processor/ProcessorBase.java:114-134 | processEntry yields ProcessEntrySpec |
| Processor.ProcessorBase.GetValueFromSources | core/src/main/java/space/arim/dazzleconf/internal/processor/ProcessorBase.java:330 | the pre-value is that of the source |
| Processor.ProcessorBase.ContinueNested | core/src/main/java/space/arim/dazzleconf/internal/processor/ProcessorBase.java:73 | a fresh processor over the child definition and the child source, or the source's error |
| Processor.ProcessorBase.ProcessObjectAtEntryWithGoal | core/src/main/java/space/arim/dazzleconf/internal/processor/ProcessorBase.java:136-202 | the method yields the conversion function Coerce |
| Processor.ProcessorBase.GetAsCollection | core/src/main/java/space/arim/dazzleconf/internal/processor/ProcessorBase.java:220-244 | the method yields CoerceCollection: List check, size check, then elements |
| Processor.ProcessorBase.FillCollection | core/src/main/java/space/arim/dazzleconf/internal/processor/ProcessorBase.java:240-243 | the loop fills the list or set with exactly the converted elements, stopping at the first failure |
| Deprocessor.Keys | core/src/main/java/space/arim/dazzleconf/internal/deprocessor/MapDeprocessor.java:32 | the keys of the ordered map, one per pair, in insertion order |
| Deprocessor.Put | core/src/main/java/space/arim/dazzleconf/internal/deprocessor/MapDeprocessor.java:39-41 | LinkedHashMap put: an existing key keeps its place, a new key goes last; the key then maps to the new value and other keys are unchanged |
| Deprocessor.LookupPutAllLast | core/src/main/java/space/arim/dazzleconf/internal/deprocessor/MapDeprocessor.java:39-46 | LinkedHashMap semantics of the puts: a key holds the value of its last put, and a key never put keeps its earlier value |
| Deprocessor.WrapValue | core/src/main/java/space/arim/dazzleconf/internal/deprocessor/CommentedDeprocessor.java:33-40 | plain: the identity; commented: the value is unchanged exactly when the comments are empty, and otherwise wrapped with exactly those comments |
| Deprocessor.Contributions | core/src/main/java/space/arim/dazzleconf/internal/deprocessor/MapDeprocessor.java:39-47 | the traversal makes one put per entry |
| Deprocessor.Deprocessed | core/src/main/java/space/arim/dazzleconf/internal/deprocessor/MapDeprocessor.java:57-60 | the result holds each key once, and its keys are exactly the keys put |
| Deprocessor.KeysFollowEntryOrder | core/src/main/java/space/arim/dazzleconf/internal/deprocessor/MapDeprocessor.java:57-60 | with distinct keys the output is one pair per entry, and its keys are the entry keys in entry order |
| Deprocessor.OutputKeysAreEntryKeys | core/src/main/java/space/arim/dazzleconf/internal/deprocessor/MapDeprocessor.java:57-60 | whatever the keys, the output's keys are exactly the entries' keys |
| Deprocessor.ValueAtEntryKey | core/src/main/java/space/arim/dazzleconf/internal/deprocessor/MapDeprocessor.java:39-47 | the key of each entry that no later entry shares holds that entry's wrapped value (so with distinct keys, every entry's) |
| Deprocessor.PlainKeepsValues | core/src/main/java/space/arim/dazzleconf/internal/deprocessor/MapDeprocessor.java:49-51 | the plain output holds the value of each entry that no later entry's key overrides: a single value untouched, a section as a plain child's map |
| Deprocessor.CommentedExactlyWhenComments | core/src/main/java/space/arim/dazzleconf/internal/deprocessor/CommentedDeprocessor.java:34-40 | in the commented output, the value under the key of an entry no later entry overrides is a CommentedWrapper exactly when that entry has comments, carrying exactly those |
| Deprocessor.CommentsAreOnlyAdded | core/src/main/java/space/arim/dazzleconf/internal/deprocessor/CommentedDeprocessor.java:42-45 | erasing every CommentedWrapper at every depth from the commented output gives the plain output |
| Deprocessor.MapDeprocessor.constructor | core/src/main/java/space/arim/dazzleconf/internal/deprocessor/MapDeprocessor.java:32-36 | a new deprocessor has its definition, instance and flavour and an empty map |
| Deprocessor.MapDeprocessor.FinishSingle | core/src/main/java/space/arim/dazzleconf/internal/deprocessor/MapDeprocessor.java:39-41 | the wrapped value is put under the entry's key |
| Deprocessor.MapDeprocessor.ContinueNested | core/src/main/java/space/arim/dazzleconf/internal/deprocessor/MapDeprocessor.java:44-47 | the child's map, wrapped, is put under the entry's key |
| Deprocessor.MapDeprocessor.CreateChildDeprocessor | core/src/main/java/space/arim/dazzleconf/internal/deprocessor/MapDeprocessor.java:53-55 | the child is fresh, of the same flavour, over the child definition and instance |
| Deprocessor.MapDeprocessor.Deprocess | core/src/main/java/space/arim/dazzleconf/internal/deprocessor/MapDeprocessor.java:57-58 | the traversal puts each entry's contribution in entry order |
| Deprocessor.MapDeprocessor.DeprocessAndGetResult | core/src/main/java/space/arim/dazzleconf/internal/deprocessor/MapDeprocessor.java:57-60 | the result is the specification Deprocessed |
| RoundTrip.LeafValues | core/src/main/java/space/arim/dazzleconf/internal/deprocessor/MapDeprocessor.java:57-60 | a key holds a value exactly when its pair in the written map is a plain value, and it holds that value |
| RoundTrip.ReprocessEntry | core/src/main/java/space/arim/dazzleconf/internal/processor/ProcessorBase.java:114-134 | a reloadable single entry read from a document holding its processed value processes to that value again |
| RoundTrip.ReprocessAll | core/src/main/java/space/arim/dazzleconf/internal/processor/ProcessorBase.java:98-112 | the loop over a document holding each processed entry's value under its key gives the same result as over the original source |
| RoundTrip.ReloadGivesBackConfiguration | core/src/main/java/space/arim/dazzleconf/internal/processor/ProcessorBase.java:98-134 | a processed flat configuration with distinct keys and reloadable goals, written by the plain deprocessor and read back, is processed to the same configuration |

## Left out

- Floating point: `double`/`float` goals and `@NumericRange` (ProcessorBase.java:171-176, 253-264) are not modelled. A floating `Number` is an opaque 64-bit pattern. Its narrowing to an integral width and its rendering are `Host` functions.
- `NumberFormat.getInstance().parse` is the `Host` function `parseNumber`. Locale-dependent parsing is not reproduced.
- A `char` value (`VChar`) holds a Unicode scalar value. Conversion only produces characters below U+10000, so each is one UTF-16 code unit, as a Java `char` is. Lone surrogates cannot be represented.
- Case mapping covers only the ASCII letters (`toUpperCase(Locale.ROOT)` and `equalsIgnoreCase` on other scripts are not modelled).
- `toString()` of floating numbers, sets, maps, custom objects and configuration instances is the `Host` function `otherToString`.
- User code (`ValueSerialiser.deserialise`, `ValueValidator.validate`) is a set of `Host` functions. `reader.instantiate` is left out: a validator is named by its class.
- Reflection (`Method`, `Class`, annotations, `isDefault`, modifiers) is plain records (`MethodInfo`, `TypeInfo`, `Annotations`). Class casts (`goal.cast`, `elementClass.cast`) are not modelled.
- The dynamic proxy of `createConfig` (ProcessorBase.java:87-95) is the map of recorded values, as `VSection`. The choice between the two invocation handlers is left out.
- MapProcessor is not part of this model. A loaded document is the `Source.Document` stand-in: a value (possibly `VNull`) per key and a source per nested section. A key absent from the document is `MissingKey`.
- RoundTrip.ReloadGivesBackConfiguration: the round trip is stated for flat definitions (no nested sections, no default methods) with distinct keys and reloadable goal types. Reading nested maps back is MapProcessor's work, and sets, ranged narrow integers and serialised types do not convert back to themselves (see CoercionProperties.CoerceIdempotent).
- DefinitionReader is not part of this model. `ConfEntryCreation.Read` reads an interface's methods in declaration order, stopping at the first rejected method.
- DeprocessorBase is not part of this model. Its traversal is `MapDeprocessor.Deprocess`: every entry in order, with the value read from the instance under the method name.
- NestedMapHelper is not part of this model. Its `put` and `combine` are both the LinkedHashMap `Put`.
- ImmutableCollections is not part of this model: immutable copies are the values themselves.
- Processor.ProcessorBase.constructor: the `key` field starts as the empty string rather than null. It is always set before it is read.
- Deprocessor.KeysFollowEntryOrder: the order of the keys is stated only for definitions whose keys are distinct. With a repeated key, the later entry replaces the earlier value in place. Deprocessor.OutputKeysAreEntryKeys and Deprocessor.ValueAtEntryKey cover repeated keys.
- Exception messages are structured reasons (`BadReason`, `Defect`) rather than text. The exception causes are not kept.
- I/O, readers and writers (BaseConfigurationFactoryImpl, AbstractConfigurationFactoryImpl apart from `loadDefaults`) are not modelled.

## Findings

| source | as written | input that shows it | evidently intended | confidence | as-written member | corrected member |
|---|---|---|---|---|---|---|
| core/src/main/java/space/arim/dazzleconf/internal/processor/ProcessorBase.java:306 | the second alternative of the false test compares with "false" again instead of "no" | the string "no" is rejected with BadValue | "no", in any case, converts to false, as "yes" converts to true | high; not executed | CoercionProperties.NoIsRejected | CoercionProperties.NoIsFalse |

`Coercion.GetAsBooleanAsWritten` is the rule as written. `Coercion.GetAsBoolean`
is the corrected rule, and it is the one the rest of the model (`Coercion.Coerce`)
uses. `CoercionProperties.CorrectionOnlyAddsNo` proves that the two differ
only on the spellings of "no".
