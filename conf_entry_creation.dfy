/** ConfEntryCreation: the guard checks that turn a method of a configuration
    interface into a single entry or a nested entry, or reject it. */
module ConfEntryCreation {
  import opened Wrappers
  import opened Values
  import opened ConfEntry

  /** getValidator: the validator class named by @ConfValidator, if any
      (instantiating that class is left to the definition reader). */
  function GetValidator(m: MethodInfo): (v: Option<ValidatorRef>)
    ensures v.Some? <==> m.annotations.confValidator.Some?
    ensures v.Some? ==> v.value.className == m.annotations.confValidator.value
  {
    match m.annotations.confValidator
    case Some(className) => Some(ValidatorRef(className))
    case None => None
  }

  /** create: a method with parameters is rejected first, then a non-public
      return type; everything else is classified by create0. */
  function Create(m: MethodInfo): (r: Result<Entry, Error>)
    decreases m, 1, 0
    ensures m.parameterCount > 0 ==> r == Err(IllDefined(HasParameters(QualifiedName(m))))
    ensures m.parameterCount == 0 && !m.returnType.isPublic ==>
              r == Err(IllDefined(NonPublicReturnType(QualifiedName(m), m.returnType.name)))
    ensures r.Ok? ==> r.value.accessor == m && m.parameterCount == 0 && m.returnType.isPublic
    ensures r.Ok? ==> (r.value.Nested? <==> m.annotations.subSection)
  {
    if m.parameterCount > 0 then Err(IllDefined(HasParameters(QualifiedName(m))))
    else if !m.returnType.isPublic then
      Err(IllDefined(NonPublicReturnType(QualifiedName(m), m.returnType.name)))
    else Create0(m)
  }

  /** create0: @SubSection on an interface gives a nested entry over the
      interface's own definition; @SubSection on anything else is rejected; any
      other method gives a single entry with its @ConfValidator, if any. */
  function Create0(m: MethodInfo): (r: Result<Entry, Error>)
    decreases m, 0, 0
    ensures m.annotations.subSection && !m.returnType.isInterface ==>
              r == Err(IllDefined(NotAnInterface(m.returnType.name)))
    ensures m.annotations.subSection && m.returnType.isInterface ==>
              match Read(m.returnType)
              case Ok(definition) => r == Ok(Nested(m, definition))
              case Err(e) => r == Err(e)
    ensures !m.annotations.subSection ==> r == Ok(Single(m, GetValidator(m)))
  {
    if m.annotations.subSection then
      if !m.returnType.isInterface then Err(IllDefined(NotAnInterface(m.returnType.name)))
      else
        var definition :- Read(m.returnType);
        Ok(Nested(m, definition))
    else Ok(Single(m, GetValidator(m)))
  }

  /** The definition of an interface: one entry per declared method, in
      declaration order, stopping at the first rejected method. */
  function Read(t: TypeInfo): (r: Result<seq<Entry>, Error>)
    decreases t, 3, 0
    ensures r.Ok? ==> |r.value| == |t.methods|
    ensures r.Ok? ==> forall i | 0 <= i < |t.methods| :: Create(t.methods[i]) == Ok(r.value[i])
    ensures r.Ok? <==> forall i | 0 <= i < |t.methods| :: Create(t.methods[i]).Ok?
  {
    ReadFrom(t, 0)
  }

  function ReadFrom(t: TypeInfo, i: nat): (r: Result<seq<Entry>, Error>)
    requires i <= |t.methods|
    decreases t, 2, |t.methods| - i
    ensures r.Ok? ==> |r.value| == |t.methods| - i
    ensures r.Ok? ==> forall j | i <= j < |t.methods| :: Create(t.methods[j]) == Ok(r.value[j - i])
    ensures r.Ok? <==> forall j | i <= j < |t.methods| :: Create(t.methods[j]).Ok?
  {
    if i == |t.methods| then Ok([])
    else
      var e :- Create(t.methods[i]);
      var rest :- ReadFrom(t, i + 1);
      Ok([e] + rest)
  }

  /** What every definition read from an interface satisfies: no entry's method
      has parameters or a non-public return type, and exactly the @SubSection
      methods are nested, over interfaces, with their own well-formed definition. */
  predicate WellFormed(definition: seq<Entry>)
    decreases definition
  {
    forall i | 0 <= i < |definition| :: WellFormedEntry(definition[i])
  }

  predicate WellFormedEntry(e: Entry)
    decreases e
  {
    && e.accessor.parameterCount == 0
    && e.accessor.returnType.isPublic
    && (e.Nested? <==> e.accessor.annotations.subSection)
    && (e.Nested? ==>
          && e.accessor.returnType.isInterface
          && |e.definition| == |e.accessor.returnType.methods|
          && (forall i | 0 <= i < |e.definition| ::
                e.definition[i].accessor == e.accessor.returnType.methods[i])
          && WellFormed(e.definition))
  }

  lemma {:induction false} CreateWellFormed(m: MethodInfo)
    requires Create(m).Ok?
    ensures WellFormedEntry(Create(m).value)
    decreases m, 1
  {
    if m.annotations.subSection {
      ReadWellFormed(m.returnType);
      var definition := Read(m.returnType).value;
      forall i | 0 <= i < |definition|
        ensures definition[i].accessor == m.returnType.methods[i]
      {
        assert Create(m.returnType.methods[i]) == Ok(definition[i]);
      }
    }
  }

  /** Every definition that reading succeeds on is well-formed, at every depth. */
  lemma {:induction false} ReadWellFormed(t: TypeInfo)
    requires Read(t).Ok?
    ensures WellFormed(Read(t).value)
    decreases t, 0
  {
    var definition := Read(t).value;
    forall i | 0 <= i < |definition|
      ensures WellFormedEntry(definition[i])
    {
      assert Create(t.methods[i]) == Ok(definition[i]);
      CreateWellFormed(t.methods[i]);
    }
  }
}
