/**
 * The Protocol: the registry that owns one document's types, traits and functions,
 * and the constructor operations that validate a record, resolve the names it refers
 * to and register the new entity with the traits its kind implements.
 *
 * The two lexical patterns for type names and for function and field names are
 * parameters of the registry (`typeNameOk`, `funcNameOk`): every property below holds
 * whatever the patterns are.
 */
module ProtocolRegistry {
  import opened Wrappers
  import opened IR
  import opened Expressions

  /** The outcome of a construction call: it returns normally or raises `error`. */
  datatype Outcome = Ok | Fail(error: Error)

  // ---------------------------------------------------------------------------------------------
  // Checks and resolvers shared by the constructors

  /**
   * The common admission check of a type constructor: the record's tag must be `kind`,
   * then its name must be unused, then it must match the type-name pattern. The first
   * check that fails decides the error.
   */
  function ValidateIrType(types: map<string, Type>, typeNameOk: string -> bool,
                          construct: string, name: string, kind: string): (r: Option<Error>)
    ensures r.None? <==> construct == kind && name !in types && typeNameOk(name)
    ensures construct != kind ==> r == Some(WrongConstruct(kind, construct))
    ensures construct == kind && name in types ==> r == Some(AlreadyDefined(name))
    ensures construct == kind && name !in types && !typeNameOk(name) ==> r == Some(MalformedName(name))
  {
    if construct != kind then Some(WrongConstruct(kind, construct))
    else if name in types then Some(AlreadyDefined(name))
    else if !typeNameOk(name) then Some(MalformedName(name))
    else None
  }

  /** Looks a referenced type name up; a missing name is an `UnknownType` error. */
  function TypeResolver(types: map<string, Type>): string -> Result<string, Error>
  {
    (n: string) => if n in types then Success(n) else Failure(UnknownType(n))
  }

  /** Resolves a parameter record to a parameter of that (registered) type. */
  function ParameterResolver(types: map<string, Type>): ParameterRecord -> Result<Parameter, Error>
  {
    (p: ParameterRecord) => if p.typeName in types then Success(Parameter(p.name, Some(p.typeName))) else Failure(UnknownType(p.typeName))
  }

  // ---------------------------------------------------------------------------------------------
  // Resolved references: every name an entity mentions is registered

  ghost predicate FieldRefsIn(f: Field, tk: set<string>, fk: set<string>)
  {
    && f.fieldType in tk
    && ExprRefsIn(f.isPresent, tk, fk)
    && (f.transform.Some? ==> f.transform.value.intoType in tk && f.transform.value.using.name in fk)
  }

  /** The references of a type are those of its shape; its traits are checked separately. */
  ghost predicate TypeRefsIn(t: Type, tk: set<string>, fk: set<string>)
  {
    ShapeRefsIn(t.shape, tk, fk)
  }

  ghost predicate ShapeRefsIn(s: Shape, tk: set<string>, fk: set<string>)
  {
    match s
    case ArrayShape(e, _, _) => e in tk
    case EnumShape(vs) => forall v :: v in vs ==> v in tk
    case StructShape(fs, cs, acts) =>
      && (forall f :: f in fs ==> FieldRefsIn(f, tk, fk))
      && (forall c :: c in cs ==> ExprRefsIn(c, tk, fk))
      && (forall a :: a in acts ==> ExprRefsIn(a, tk, fk))
    case _ => true
  }

  ghost predicate FunctionRefsIn(f: Function, tk: set<string>)
  {
    && (forall p :: p in f.parameters ==> p.paramType.Some? && p.paramType.value in tk)
    && f.returnType.Some? && f.returnType.value in tk
  }

  /** Registration order resolves every reference: nothing registered mentions an unknown name. */
  ghost predicate RegistryClosed(types: map<string, Type>, funcs: map<string, Function>)
  {
    && (forall n :: n in types ==> TypeRefsIn(types[n], types.Keys, funcs.Keys))
    && (forall n :: n in funcs ==> FunctionRefsIn(funcs[n], types.Keys))
  }

  lemma TypeRefsGrow(t: Type, tk: set<string>, fk: set<string>, tk': set<string>, fk': set<string>)
    requires TypeRefsIn(t, tk, fk) && tk <= tk' && fk <= fk'
    ensures TypeRefsIn(t, tk', fk')
  {
    if t.shape.StructShape? {
      forall f | f in t.shape.fields ensures FieldRefsIn(f, tk', fk') {
        ExprRefsGrow(f.isPresent, tk, fk, tk', fk');
      }
      forall c | c in t.shape.constraints ensures ExprRefsIn(c, tk', fk') {
        ExprRefsGrow(c, tk, fk, tk', fk');
      }
      forall a | a in t.shape.actions ensures ExprRefsIn(a, tk', fk') {
        ExprRefsGrow(a, tk, fk, tk', fk');
      }
    }
  }

  /** Registering (or replacing) a type whose references are registered keeps the registry closed. */
  lemma ClosedAddType(types: map<string, Type>, funcs: map<string, Function>, n: string, t: Type)
    requires RegistryClosed(types, funcs)
    requires TypeRefsIn(t, types.Keys + {n}, funcs.Keys)
    ensures RegistryClosed(types[n := t], funcs)
  {
    var types' := types[n := t];
    assert types'.Keys == types.Keys + {n};
    forall m | m in types' ensures TypeRefsIn(types'[m], types'.Keys, funcs.Keys) {
      if m != n {
        TypeRefsGrow(types[m], types.Keys, funcs.Keys, types'.Keys, funcs.Keys);
      }
    }
  }

  lemma ClosedAddFunction(types: map<string, Type>, funcs: map<string, Function>, n: string, f: Function)
    requires RegistryClosed(types, funcs)
    requires FunctionRefsIn(f, types.Keys)
    ensures RegistryClosed(types, funcs[n := f])
  {
    forall m | m in types ensures TypeRefsIn(types[m], types.Keys, funcs[n := f].Keys) {
      TypeRefsGrow(types[m], types.Keys, funcs.Keys, types.Keys, funcs[n := f].Keys);
    }
  }

  /** Fields accepted by the field parser only mention registered names. */
  lemma ParsedFieldsAreResolved(types: map<string, Type>, funcs: map<string, Function>, funcNameOk: string -> bool,
                                thisType: Type, frs: seq<FieldRecord>)
    requires thisType.name in types
    requires forall n :: n in funcs ==> funcs[n].name == n
    requires MapOrFail(FieldParser(types, funcs, funcNameOk, thisType), frs).Success?
    ensures forall f :: f in MapOrFail(FieldParser(types, funcs, funcNameOk, thisType), frs).value ==>
      FieldRefsIn(f, types.Keys, funcs.Keys)
  {
    var fs := MapOrFail(FieldParser(types, funcs, funcNameOk, thisType), frs).value;
    forall f | f in fs ensures FieldRefsIn(f, types.Keys, funcs.Keys) {
      var i :| 0 <= i < |fs| && fs[i] == f;
      assert ParseField(types, funcs, funcNameOk, thisType, frs[i]) == Success(f);
      ParsedExpressionIsResolved(types, funcs, thisType, frs[i].isPresent);
    }
  }

  /** Expressions accepted by the constraint or action parser only mention registered names. */
  lemma ParsedExpressionsAreResolved(types: map<string, Type>, funcs: map<string, Function>, thisType: Type,
                                     recs: seq<ExpressionRecord>, actions: bool)
    requires thisType.name in types
    requires forall n :: n in funcs ==> funcs[n].name == n
    requires MapOrFail(if actions then ActionParser(types, funcs, thisType)
                       else ConstraintParser(types, funcs, thisType), recs).Success?
    ensures forall e :: e in MapOrFail(if actions then ActionParser(types, funcs, thisType)
                                       else ConstraintParser(types, funcs, thisType), recs).value ==>
      ExprRefsIn(e, types.Keys, funcs.Keys)
  {
    var parser := if actions then ActionParser(types, funcs, thisType) else ConstraintParser(types, funcs, thisType);
    var es := MapOrFail(parser, recs).value;
    forall e | e in es ensures ExprRefsIn(e, types.Keys, funcs.Keys) {
      var i :| 0 <= i < |es| && es[i] == e;
      assert parser(recs[i]) == Success(e);
      ParsedExpressionIsResolved(types, funcs, thisType, recs[i]);
    }
  }

  // ---------------------------------------------------------------------------------------------
  // Structure definition, as a function of the registry it starts from

  /**
   * What `define_struct` does, step by step: the empty structure is registered first, so
   * that its fields and expressions can refer to it; then its fields, its constraints and
   * its actions are read in turn, each against the registry as it stands at that point.
   * A failure after the first step leaves the partly built structure registered.
   */
  ghost function StructDefinition(types: map<string, Type>, funcs: map<string, Function>,
                                  typeNameOk: string -> bool, funcNameOk: string -> bool,
                                  rec: StructRecord): (Outcome, map<string, Type>)
  {
    var v := ValidateIrType(types, typeNameOk, rec.construct, rec.name, "Struct");
    if v.Some? then (Fail(v.value), types)
    else
      var fs := StructFields(types, funcs, funcNameOk, rec);
      if fs.Failure? then (Fail(fs.error), types[rec.name := Building(rec.name, [], [])])
      else
        var cs := StructConstraints(types, funcs, rec, fs.value);
        if cs.Failure? then (Fail(cs.error), types[rec.name := Building(rec.name, fs.value, [])])
        else
          var acts := StructActions(types, funcs, rec, fs.value, cs.value);
          if acts.Failure? then (Fail(acts.error), types[rec.name := Building(rec.name, fs.value, cs.value)])
          else (Ok, types[rec.name := Type(rec.name, StructShape(fs.value, cs.value, acts.value), {"Sized", "Equality"})])
  }

  /** The structure while it is being built: the fields and constraints read so far, no actions, no traits. */
  function Building(n: string, fs: seq<Field>, cs: seq<Expression>): Type
  {
    Type(n, StructShape(fs, cs, []), {})
  }

  /** The fields, read with the empty structure registered. */
  ghost function StructFields(types: map<string, Type>, funcs: map<string, Function>, funcNameOk: string -> bool,
                              rec: StructRecord): Result<seq<Field>, Error>
  {
    MapOrFail(FieldParser(types[rec.name := Building(rec.name, [], [])], funcs, funcNameOk, Building(rec.name, [], [])),
              rec.fields)
  }

  /** The constraints, read with the structure and its fields `fs` registered. */
  ghost function StructConstraints(types: map<string, Type>, funcs: map<string, Function>, rec: StructRecord,
                                   fs: seq<Field>): Result<seq<Expression>, Error>
  {
    MapOrFail(ConstraintParser(types[rec.name := Building(rec.name, fs, [])], funcs, Building(rec.name, fs, [])),
              rec.constraints)
  }

  /** The actions, read with the structure, its fields `fs` and its constraints `cs` registered. */
  ghost function StructActions(types: map<string, Type>, funcs: map<string, Function>, rec: StructRecord,
                               fs: seq<Field>, cs: seq<Expression>): Result<seq<Expression>, Error>
  {
    MapOrFail(ActionParser(types[rec.name := Building(rec.name, fs, cs)], funcs, Building(rec.name, fs, cs)),
              rec.actions)
  }

  /**
   * A structure definition succeeds exactly when the record is admitted and then every field,
   * every constraint and every action is read at its stage; each constraint must then type to
   * Boolean and each action to Nothing. A failed admission changes nothing; otherwise the error
   * is that of the first stage that fails, which is the error of its first failing entry.
   */
  lemma StructDefinitionOutcome(types: map<string, Type>, funcs: map<string, Function>,
                                typeNameOk: string -> bool, funcNameOk: string -> bool, rec: StructRecord)
    ensures var (r, types') := StructDefinition(types, funcs, typeNameOk, funcNameOk, rec);
      var v := ValidateIrType(types, typeNameOk, rec.construct, rec.name, "Struct");
      var fs := StructFields(types, funcs, funcNameOk, rec);
      && (v.Some? ==> r == Fail(v.value) && types' == types)
      && (v.None? && fs.Failure? ==> r == Fail(fs.error))
      && (v.None? && fs.Success? && StructConstraints(types, funcs, rec, fs.value).Failure? ==>
            r == Fail(StructConstraints(types, funcs, rec, fs.value).error))
      && (v.None? && fs.Success? && StructConstraints(types, funcs, rec, fs.value).Success? &&
          StructActions(types, funcs, rec, fs.value, StructConstraints(types, funcs, rec, fs.value).value).Failure? ==>
            r == Fail(StructActions(types, funcs, rec, fs.value, StructConstraints(types, funcs, rec, fs.value).value).error))
      && (r.Ok? <==>
            && v.None?
            && (forall i :: 0 <= i < |rec.fields| ==>
                  ParseField(types[rec.name := Building(rec.name, [], [])], funcs, funcNameOk,
                             Building(rec.name, [], []), rec.fields[i]).Success?)
            && (forall i :: 0 <= i < |rec.constraints| ==>
                  ParseConstraint(types[rec.name := Building(rec.name, fs.value, [])], funcs,
                                  Building(rec.name, fs.value, []), rec.constraints[i]).Success?)
            && (forall i :: 0 <= i < |rec.actions| ==>
                  ParseAction(types[rec.name := Building(rec.name, fs.value, StructConstraints(types, funcs, rec, fs.value).value)],
                              funcs, Building(rec.name, fs.value, StructConstraints(types, funcs, rec, fs.value).value),
                              rec.actions[i]).Success?))
  {
  }

  /** A defined structure keeps its fields in record order and implements exactly {Sized, Equality}. */
  lemma DefinedStructShape(types: map<string, Type>, funcs: map<string, Function>,
                           typeNameOk: string -> bool, funcNameOk: string -> bool, rec: StructRecord)
    requires StructDefinition(types, funcs, typeNameOk, funcNameOk, rec).0 == Ok
    ensures var types' := StructDefinition(types, funcs, typeNameOk, funcNameOk, rec).1;
      && rec.name !in types
      && types'.Keys == types.Keys + {rec.name}
      && (forall n :: n in types ==> types'[n] == types[n])
      && types'[rec.name].name == rec.name
      && Kind(types'[rec.name]) == "Struct"
      && types'[rec.name].traits == {"Sized", "Equality"}
      && |types'[rec.name].shape.fields| == |rec.fields|
      && (forall i :: 0 <= i < |rec.fields| ==>
            types'[rec.name].shape.fields[i].name == rec.fields[i].name &&
            types'[rec.name].shape.fields[i].fieldType == rec.fields[i].typeName)
      && |types'[rec.name].shape.constraints| == |rec.constraints|
      && |types'[rec.name].shape.actions| == |rec.actions|
  {
    var s0 := Building(rec.name, [], []);
    var fs := StructFields(types, funcs, funcNameOk, rec);
    var cs := StructConstraints(types, funcs, rec, fs.value);
    var acts := StructActions(types, funcs, rec, fs.value, cs.value);
    var types' := StructDefinition(types, funcs, typeNameOk, funcNameOk, rec).1;
    assert types' == types[rec.name := Type(rec.name, StructShape(fs.value, cs.value, acts.value), {"Sized", "Equality"})];
    forall i | 0 <= i < |rec.fields|
      ensures fs.value[i].name == rec.fields[i].name && fs.value[i].fieldType == rec.fields[i].typeName
    {
      assert ParseField(types[rec.name := s0], funcs, funcNameOk, s0, rec.fields[i]) == Success(fs.value[i]);
    }
  }

  /**
   * A defined structure's constraints all type to Boolean and its actions all type to Nothing,
   * each in the registry as it stood when it was read.
   */
  lemma DefinedStructExpressionsTyped(types: map<string, Type>, funcs: map<string, Function>,
                                      typeNameOk: string -> bool, funcNameOk: string -> bool, rec: StructRecord)
    requires StructDefinition(types, funcs, typeNameOk, funcNameOk, rec).0 == Ok
    ensures var t := StructDefinition(types, funcs, typeNameOk, funcNameOk, rec).1[rec.name];
      var s1 := Building(rec.name, t.shape.fields, []);
      var s2 := Building(rec.name, t.shape.fields, t.shape.constraints);
      && (forall i :: 0 <= i < |rec.constraints| ==>
            ParseExpression(types[rec.name := s1], funcs, s1, rec.constraints[i]) == Success(t.shape.constraints[i]) &&
            TypeOf(types[rec.name := s1], t.shape.constraints[i]) == Success(Some("Boolean")))
      && (forall i :: 0 <= i < |rec.actions| ==>
            ParseExpression(types[rec.name := s2], funcs, s2, rec.actions[i]) == Success(t.shape.actions[i]) &&
            TypeOf(types[rec.name := s2], t.shape.actions[i]) == Success(Some("Nothing")))
  {
    var fs := StructFields(types, funcs, funcNameOk, rec);
    var cs := StructConstraints(types, funcs, rec, fs.value);
    var acts := StructActions(types, funcs, rec, fs.value, cs.value);
    var t := Type(rec.name, StructShape(fs.value, cs.value, acts.value), {"Sized", "Equality"});
    assert StructDefinition(types, funcs, typeNameOk, funcNameOk, rec).1[rec.name] == t;
    var s1 := Building(rec.name, fs.value, []);
    var s2 := Building(rec.name, fs.value, cs.value);
    forall i | 0 <= i < |rec.constraints|
      ensures ParseExpression(types[rec.name := s1], funcs, s1, rec.constraints[i]) == Success(cs.value[i])
      ensures TypeOf(types[rec.name := s1], cs.value[i]) == Success(Some("Boolean"))
    {
      assert ParseConstraint(types[rec.name := s1], funcs, s1, rec.constraints[i]) == Success(cs.value[i]);
    }
    forall i | 0 <= i < |rec.actions|
      ensures ParseExpression(types[rec.name := s2], funcs, s2, rec.actions[i]) == Success(acts.value[i])
      ensures TypeOf(types[rec.name := s2], acts.value[i]) == Success(Some("Nothing"))
    {
      assert ParseAction(types[rec.name := s2], funcs, s2, rec.actions[i]) == Success(acts.value[i]);
    }
  }

  /** A field name that fails the field-name pattern makes the definition fail. */
  lemma StructRejectsMalformedFieldName(types: map<string, Type>, funcs: map<string, Function>,
                                        typeNameOk: string -> bool, funcNameOk: string -> bool,
                                        rec: StructRecord, k: nat)
    requires k < |rec.fields| && !funcNameOk(rec.fields[k].name)
    ensures StructDefinition(types, funcs, typeNameOk, funcNameOk, rec).0.Fail?
  {
    var s0 := Building(rec.name, [], []);
    assert FieldParser(types[rec.name := s0], funcs, funcNameOk, s0)(rec.fields[k]).Failure?;
  }

  /**
   * Once the record passes the admission check, the structure's name is registered whatever
   * happens next: a failure while reading fields, constraints or actions leaves the partly
   * built structure (without its traits) in place. Every earlier registration is untouched.
   */
  lemma StructFailureKeepsPartialStructure(types: map<string, Type>, funcs: map<string, Function>,
                                           typeNameOk: string -> bool, funcNameOk: string -> bool,
                                           rec: StructRecord)
    requires ValidateIrType(types, typeNameOk, rec.construct, rec.name, "Struct").None?
    requires StructDefinition(types, funcs, typeNameOk, funcNameOk, rec).0.Fail?
    ensures var types' := StructDefinition(types, funcs, typeNameOk, funcNameOk, rec).1;
      && types'.Keys == types.Keys + {rec.name}
      && (forall n :: n in types ==> types'[n] == types[n])
      && Kind(types'[rec.name]) == "Struct"
      && types'[rec.name].traits == {}
  {
    var fs := StructFields(types, funcs, funcNameOk, rec);
    var result := StructDefinition(types, funcs, typeNameOk, funcNameOk, rec).1;
    if fs.Failure? {
      assert result == types[rec.name := Building(rec.name, [], [])];
    } else {
      var cs := StructConstraints(types, funcs, rec, fs.value);
      if cs.Failure? {
        assert result == types[rec.name := Building(rec.name, fs.value, [])];
      } else {
        assert result == types[rec.name := Building(rec.name, fs.value, cs.value)];
      }
    }
  }

  // ---------------------------------------------------------------------------------------------
  // Bit strings, arrays and enumerations, as functions of the registry they start from

  /** What `define_bitstring` does: after the admission check, one BitString with three traits. */
  ghost function BitStringDefinition(types: map<string, Type>, typeNameOk: string -> bool, rec: BitStringRecord)
    : (Outcome, map<string, Type>)
  {
    var v := ValidateIrType(types, typeNameOk, rec.construct, rec.name, "BitString");
    if v.Some? then (Fail(v.value), types)
    else (Ok, types[rec.name := Type(rec.name, BitStringShape(rec.size), {"Sized", "Value", "Equality"})])
  }

  /**
   * A bit string definition fails exactly when the admission check does, changing nothing;
   * otherwise it adds one new type, of kind BitString, with the given name and size and the
   * traits {Sized, Value, Equality}, and leaves every other entry as it was.
   */
  lemma BitStringDefinitionOutcome(types: map<string, Type>, typeNameOk: string -> bool, rec: BitStringRecord)
    ensures var (r, types') := BitStringDefinition(types, typeNameOk, rec);
      var v := ValidateIrType(types, typeNameOk, rec.construct, rec.name, "BitString");
      && (r.Ok? <==> rec.construct == "BitString" && rec.name !in types && typeNameOk(rec.name))
      && (r.Fail? ==> r == Fail(v.value) && types' == types)
      && (r.Ok? ==>
            && types'.Keys == types.Keys + {rec.name}
            && (forall n :: n in types ==> types'[n] == types[n])
            && types'[rec.name].name == rec.name
            && Kind(types'[rec.name]) == "BitString"
            && SizeOf(types'[rec.name]) == Some(rec.size)
            && types'[rec.name].traits == {"Sized", "Value", "Equality"})
  {
  }

  /** What `define_array` does: after the admission check and the element lookup, one Array with three traits. */
  ghost function ArrayDefinition(types: map<string, Type>, typeNameOk: string -> bool, rec: ArrayRecord)
    : (Outcome, map<string, Type>)
  {
    var v := ValidateIrType(types, typeNameOk, rec.construct, rec.name, "Array");
    if v.Some? then (Fail(v.value), types)
    else if rec.elementType !in types then (Fail(UnknownType(rec.elementType)), types)
    else
      var size := match SizeOf(types[rec.elementType])
                  case Some(s) => Some(s * rec.length)
                  case None => None;
      (Ok, types[rec.name := Type(rec.name, ArrayShape(rec.elementType, rec.length, size),
                                  {"Sized", "Equality", "IndexCollection"})])
  }

  /**
   * An array definition succeeds exactly when the record is admitted and its element type is
   * registered; it then adds one Array of that element and length, whose size is the element's
   * size times the length (none when the element has no size), with the traits
   * {Sized, Equality, IndexCollection}. A failure changes nothing.
   */
  lemma ArrayDefinitionOutcome(types: map<string, Type>, typeNameOk: string -> bool, rec: ArrayRecord)
    ensures var (r, types') := ArrayDefinition(types, typeNameOk, rec);
      var v := ValidateIrType(types, typeNameOk, rec.construct, rec.name, "Array");
      && (r.Ok? <==> v.None? && rec.elementType in types)
      && (v.Some? ==> r == Fail(v.value))
      && (v.None? && rec.elementType !in types ==> r == Fail(UnknownType(rec.elementType)))
      && (r.Fail? ==> types' == types)
      && (r.Ok? ==>
            && types'.Keys == types.Keys + {rec.name}
            && (forall n :: n in types ==> types'[n] == types[n])
            && types'[rec.name].name == rec.name
            && Kind(types'[rec.name]) == "Array"
            && types'[rec.name].shape.elementType == rec.elementType
            && types'[rec.name].shape.length == rec.length
            && (SizeOf(types[rec.elementType]).Some? ==>
                  SizeOf(types'[rec.name]) == Some(SizeOf(types[rec.elementType]).value * rec.length))
            && (SizeOf(types[rec.elementType]).None? ==> SizeOf(types'[rec.name]).None?)
            && types'[rec.name].traits == {"Sized", "Equality", "IndexCollection"})
  {
  }

  /** What `define_enum` does: after the admission check, every variant must resolve; one Enum with Sized. */
  ghost function EnumDefinition(types: map<string, Type>, typeNameOk: string -> bool, rec: EnumRecord)
    : (Outcome, map<string, Type>)
  {
    var v := ValidateIrType(types, typeNameOk, rec.construct, rec.name, "Enum");
    if v.Some? then (Fail(v.value), types)
    else
      var variants := MapOrFail(TypeResolver(types), rec.variants);
      if variants.Failure? then (Fail(variants.error), types)
      else (Ok, types[rec.name := Type(rec.name, EnumShape(variants.value), {"Sized"})])
  }

  /**
   * An enumeration definition succeeds exactly when the record is admitted and every variant
   * is registered; it then adds one Enum over exactly the given variants, in order, with the
   * single trait Sized. Otherwise it fails on the first unregistered variant, changing nothing.
   */
  lemma EnumDefinitionOutcome(types: map<string, Type>, typeNameOk: string -> bool, rec: EnumRecord)
    ensures var (r, types') := EnumDefinition(types, typeNameOk, rec);
      var v := ValidateIrType(types, typeNameOk, rec.construct, rec.name, "Enum");
      && (r.Ok? <==> v.None? && forall i :: 0 <= i < |rec.variants| ==> rec.variants[i] in types)
      && (v.Some? ==> r == Fail(v.value))
      && (r.Fail? ==> types' == types)
      && (v.None? && r.Fail? ==> exists k :: (0 <= k < |rec.variants| && rec.variants[k] !in types &&
            (forall j :: 0 <= j < k ==> rec.variants[j] in types) && r == Fail(UnknownType(rec.variants[k]))))
      && (r.Ok? ==>
            && types'.Keys == types.Keys + {rec.name}
            && (forall n :: n in types ==> types'[n] == types[n])
            && types'[rec.name].name == rec.name
            && types'[rec.name].shape == EnumShape(rec.variants)
            && types'[rec.name].traits == {"Sized"})
  {
    var variants := MapOrFail(TypeResolver(types), rec.variants);
    forall i | 0 <= i < |rec.variants|
      ensures TypeResolver(types)(rec.variants[i]).Success? <==> rec.variants[i] in types
    {
    }
    if variants.Success? {
      assert variants.value == rec.variants by {
        forall i | 0 <= i < |rec.variants| ensures variants.value[i] == rec.variants[i] {
          assert TypeResolver(types)(rec.variants[i]) == Success(variants.value[i]);
        }
      }
    }
  }

  /** Every registry a bit string definition leaves satisfies the invariant. */
  lemma BitStringDefinitionKeepsValid(types: map<string, Type>, traits: map<string, Trait>,
                                      funcs: map<string, Function>, typeNameOk: string -> bool, rec: BitStringRecord)
    requires RegistryValid(types, traits, funcs)
    ensures RegistryValid(BitStringDefinition(types, typeNameOk, rec).1, traits, funcs)
  {
    if ValidateIrType(types, typeNameOk, rec.construct, rec.name, "BitString").None? {
      var t := Type(rec.name, BitStringShape(rec.size), {"Sized", "Value", "Equality"});
      assert BitStringDefinition(types, typeNameOk, rec).1 == types[rec.name := t];
      RegisterTypeKeepsValid(types, traits, funcs, rec.name, t);
    }
  }

  /** Every registry an array definition leaves satisfies the invariant. */
  lemma ArrayDefinitionKeepsValid(types: map<string, Type>, traits: map<string, Trait>,
                                  funcs: map<string, Function>, typeNameOk: string -> bool, rec: ArrayRecord)
    requires RegistryValid(types, traits, funcs)
    ensures RegistryValid(ArrayDefinition(types, typeNameOk, rec).1, traits, funcs)
  {
    if ValidateIrType(types, typeNameOk, rec.construct, rec.name, "Array").None? && rec.elementType in types {
      var t := ArrayDefinition(types, typeNameOk, rec).1[rec.name];
      assert ArrayDefinition(types, typeNameOk, rec).1 == types[rec.name := t];
      RegisterTypeKeepsValid(types, traits, funcs, rec.name, t);
    }
  }

  /** Every registry an enumeration definition leaves satisfies the invariant. */
  lemma EnumDefinitionKeepsValid(types: map<string, Type>, traits: map<string, Trait>,
                                 funcs: map<string, Function>, typeNameOk: string -> bool, rec: EnumRecord)
    requires RegistryValid(types, traits, funcs)
    ensures RegistryValid(EnumDefinition(types, typeNameOk, rec).1, traits, funcs)
  {
    EnumDefinitionOutcome(types, typeNameOk, rec);
    var (r, types') := EnumDefinition(types, typeNameOk, rec);
    if r.Ok? {
      var t := Type(rec.name, EnumShape(rec.variants), {"Sized"});
      assert types' == types[rec.name := t];
      RegisterTypeKeepsValid(types, traits, funcs, rec.name, t);
    }
  }

  // ---------------------------------------------------------------------------------------------
  // Type derivation, as a function of the registry it starts from

  /**
   * Adds the traits `ts` to `implemented` one by one, stopping at the first name that is
   * not a standard trait; returns that error (if any) and the set reached.
   */
  function AddTraits(implemented: set<string>, ts: seq<string>): (Option<Error>, set<string>)
  {
    if ts == [] then (None, implemented)
    else
      var (e, reached) := AddTraits(implemented, ts[..|ts| - 1]);
      var last := ts[|ts| - 1];
      if e.Some? then (e, reached)
      else if last !in TraitNames then (Some(UnknownTrait(last)), reached)
      else (None, reached + {last})
  }

  /**
   * Adding traits succeeds exactly when every name is standard, and then reaches the union;
   * otherwise it fails on the first non-standard name, having added the names before it.
   */
  lemma {:induction false} AddTraitsMeaning(implemented: set<string>, ts: seq<string>)
    ensures var r := AddTraits(implemented, ts);
      && (r.0.None? <==> forall i :: 0 <= i < |ts| ==> ts[i] in TraitNames)
      && (r.0.None? ==> r.1 == implemented + set t | t in ts)
      && (r.0.Some? ==> exists k :: (0 <= k < |ts| && ts[k] !in TraitNames &&
            (forall j :: 0 <= j < k ==> ts[j] in TraitNames) &&
            r.0 == Some(UnknownTrait(ts[k])) && r.1 == implemented + set t | t in ts[..k]))
  {
    if ts != [] {
      var front := ts[..|ts| - 1];
      var last := ts[|ts| - 1];
      assert ts == front + [last];
      assert forall i :: 0 <= i < |front| ==> front[i] == ts[i];
      AddTraitsMeaning(implemented, front);
      var (e, reached) := AddTraits(implemented, front);
      if e.Some? {
        var k :| 0 <= k < |front| && front[k] !in TraitNames && (forall j :: 0 <= j < k ==> front[j] in TraitNames) &&
          e == Some(UnknownTrait(front[k])) && reached == implemented + set t | t in front[..k];
        assert front[..k] == ts[..k];
      } else if last !in TraitNames {
        assert front == ts[..|ts| - 1];
      }
    }
  }

  lemma {:induction false} AddTraitsPrefixFails(implemented: set<string>, ts: seq<string>, i: nat)
    requires i <= |ts|
    requires AddTraits(implemented, ts[..i]).0.Some?
    ensures AddTraits(implemented, ts) == AddTraits(implemented, ts[..i])
  {
    if i < |ts| {
      assert ts[..|ts| - 1][..i] == ts[..i];
      AddTraitsPrefixFails(implemented, ts[..|ts| - 1], i);
    } else {
      assert ts[..i] == ts;
    }
  }

  /**
   * What `derive_type` does: after the admission check and the lookup of the base type, a copy
   * of the base (same shape, same traits) is registered under the new name, then the requested
   * traits are added one by one; an unknown one stops the loop with the copy left registered.
   */
  ghost function Derivation(types: map<string, Type>, typeNameOk: string -> bool, rec: NewTypeRecord)
    : (Outcome, map<string, Type>)
  {
    var v := ValidateIrType(types, typeNameOk, rec.construct, rec.name, "NewType");
    if v.Some? then (Fail(v.value), types)
    else if rec.derivedFrom !in types then (Fail(UnknownType(rec.derivedFrom)), types)
    else
      var base := types[rec.derivedFrom];
      var (e, implemented) := AddTraits(base.traits, rec.implements);
      var types' := types[rec.name := Type(rec.name, base.shape, implemented)];
      if e.Some? then (Fail(e.value), types') else (Ok, types')
  }

  /**
   * A derivation succeeds exactly when the record is admitted, the base is registered and every
   * requested trait is standard; the new type then has the base's shape and the base's traits
   * plus the requested ones, and every earlier entry, the base included, is unchanged. A record
   * that is not admitted, or whose base is not registered, fails with that error and changes nothing.
   */
  lemma DerivationOutcome(types: map<string, Type>, typeNameOk: string -> bool, rec: NewTypeRecord)
    ensures var (r, types') := Derivation(types, typeNameOk, rec);
      && (r.Ok? <==> ValidateIrType(types, typeNameOk, rec.construct, rec.name, "NewType").None? &&
                     rec.derivedFrom in types &&
                     forall i :: 0 <= i < |rec.implements| ==> rec.implements[i] in TraitNames)
      && (ValidateIrType(types, typeNameOk, rec.construct, rec.name, "NewType").Some? ==>
            r == Fail(ValidateIrType(types, typeNameOk, rec.construct, rec.name, "NewType").value) && types' == types)
      && (ValidateIrType(types, typeNameOk, rec.construct, rec.name, "NewType").None? && rec.derivedFrom !in types ==>
            r == Fail(UnknownType(rec.derivedFrom)) && types' == types)
      && (forall n :: n in types ==> n in types' && types'[n] == types[n])
      && (r.Ok? ==> types' == types[rec.name := Type(rec.name, types[rec.derivedFrom].shape,
                                                    types[rec.derivedFrom].traits + set t | t in rec.implements)])
  {
    if rec.derivedFrom in types {
      AddTraitsMeaning(types[rec.derivedFrom].traits, rec.implements);
    }
  }

  /**
   * A derivation that asks for a non-standard trait fails on the first such name, and leaves
   * the copy registered with the base's traits plus the ones requested before it.
   */
  lemma DerivationStopsAtUnknownTrait(types: map<string, Type>, typeNameOk: string -> bool, rec: NewTypeRecord, k: nat)
    requires ValidateIrType(types, typeNameOk, rec.construct, rec.name, "NewType").None? && rec.derivedFrom in types
    requires k < |rec.implements| && rec.implements[k] !in TraitNames
    requires forall j :: 0 <= j < k ==> rec.implements[j] in TraitNames
    ensures var base := types[rec.derivedFrom];
      Derivation(types, typeNameOk, rec) ==
        (Fail(UnknownTrait(rec.implements[k])),
         types[rec.name := Type(rec.name, base.shape, base.traits + set t | t in rec.implements[..k])])
  {
    var base := types[rec.derivedFrom];
    AddTraitsMeaning(base.traits, rec.implements);
    var (e, implemented) := AddTraits(base.traits, rec.implements);
    var k' :| 0 <= k' < |rec.implements| && rec.implements[k'] !in TraitNames &&
      (forall j :: 0 <= j < k' ==> rec.implements[j] in TraitNames) &&
      e == Some(UnknownTrait(rec.implements[k'])) && implemented == base.traits + set t | t in rec.implements[..k'];
    assert k' == k;
  }

  /** Every registry a derivation leaves, the partial one included, satisfies the invariant. */
  lemma DerivationKeepsValid(types: map<string, Type>, traits: map<string, Trait>, funcs: map<string, Function>,
                             typeNameOk: string -> bool, rec: NewTypeRecord)
    requires RegistryValid(types, traits, funcs)
    ensures RegistryValid(Derivation(types, typeNameOk, rec).1, traits, funcs)
  {
    var v := ValidateIrType(types, typeNameOk, rec.construct, rec.name, "NewType");
    if v.None? && rec.derivedFrom in types {
      var base := types[rec.derivedFrom];
      var (e, implemented) := AddTraits(base.traits, rec.implements);
      AddTraitsMeaning(base.traits, rec.implements);
      assert implemented <= TraitNames;
      var t := Type(rec.name, base.shape, implemented);
      assert Derivation(types, typeNameOk, rec).1 == types[rec.name := t];
      TypeRefsGrow(base, types.Keys, funcs.Keys, types.Keys + {rec.name}, funcs.Keys);
      assert TypeRefsIn(t, types.Keys + {rec.name}, funcs.Keys);
      RegisterTypeKeepsValid(types, traits, funcs, rec.name, t);
    }
  }

  // ---------------------------------------------------------------------------------------------
  // Small facts about maps and sets that the constructors use

  lemma UpdateTwice<K, V>(m: map<K, V>, k: K, v: V, w: V)
    ensures m[k := v][k := w] == m[k := w]
  {
  }

  lemma TwoNames(a: string, b: string)
    ensures {} + {a} + {b} == {a, b}
  {
  }

  lemma ThreeNames(a: string, b: string, c: string)
    ensures {} + {a} + {b} + {c} == {a, b, c}
  {
  }

  // ---------------------------------------------------------------------------------------------
  // The registry's invariant

  /** The names of the seven standard traits. */
  const TraitNames: set<string> :=
    {"Value", "Sized", "IndexCollection", "Equality", "Ordinal", "BooleanOps", "ArithmeticOps"}

  /**
   * The standard traits and the three primitives are in place, every entry is keyed by its
   * own name, traits come from the standard set, and every reference is to a registered name.
   */
  ghost predicate RegistryValid(types: map<string, Type>, traits: map<string, Trait>, funcs: map<string, Function>)
  {
    && traits.Keys == TraitNames
    && "Nothing" in types && types["Nothing"] == NothingType
    && "Boolean" in types && types["Boolean"] == BooleanType
    && "Size" in types && types["Size"] == SizeType
    && (forall n :: n in types ==> types[n].name == n && types[n].traits <= TraitNames)
    && (forall n :: n in funcs ==> funcs[n].name == n)
    && RegistryClosed(types, funcs)
  }

  /** The types every registry starts with. */
  const PrimitiveTypes: map<string, Type> :=
    map["Nothing" := NothingType, "Boolean" := BooleanType, "Size" := SizeType]

  lemma PrimitiveRegistryValid()
    ensures RegistryValid(PrimitiveTypes, StandardTraits, map[])
  {
    assert BooleanType.traits <= TraitNames;
    assert SizeType.traits <= TraitNames;
  }

  /** Registering (or re-registering) a non-primitive type whose references resolve keeps the invariant. */
  lemma RegisterTypeKeepsValid(types: map<string, Type>, traits: map<string, Trait>, funcs: map<string, Function>,
                               n: string, t: Type)
    requires RegistryValid(types, traits, funcs)
    requires n != "Nothing" && n != "Boolean" && n != "Size"
    requires t.name == n && t.traits <= TraitNames
    requires TypeRefsIn(t, types.Keys + {n}, funcs.Keys)
    ensures RegistryValid(types[n := t], traits, funcs)
  {
    ClosedAddType(types, funcs, n, t);
  }

  /** Every registry a structure definition leaves, partial ones included, satisfies the invariant. */
  lemma StructDefinitionKeepsValid(types: map<string, Type>, traits: map<string, Trait>, funcs: map<string, Function>,
                                   typeNameOk: string -> bool, funcNameOk: string -> bool, rec: StructRecord)
    requires RegistryValid(types, traits, funcs)
    ensures RegistryValid(StructDefinition(types, funcs, typeNameOk, funcNameOk, rec).1, traits, funcs)
  {
    var v := ValidateIrType(types, typeNameOk, rec.construct, rec.name, "Struct");
    if v.None? {
      var n := rec.name;
      var fs := StructFields(types, funcs, funcNameOk, rec);
      if fs.Failure? {
        RegisterTypeKeepsValid(types, traits, funcs, n, Building(n, [], []));
        return;
      }
      StructFieldsResolved(types, traits, funcs, funcNameOk, rec);
      var cs := StructConstraints(types, funcs, rec, fs.value);
      if cs.Failure? {
        RegisterTypeKeepsValid(types, traits, funcs, n, Building(n, fs.value, []));
        return;
      }
      StructConstraintsResolved(types, traits, funcs, rec, fs.value);
      var acts := StructActions(types, funcs, rec, fs.value, cs.value);
      if acts.Failure? {
        RegisterTypeKeepsValid(types, traits, funcs, n, Building(n, fs.value, cs.value));
        return;
      }
      StructActionsResolved(types, traits, funcs, rec, fs.value, cs.value);
      RegisterTypeKeepsValid(types, traits, funcs, n, Type(n, StructShape(fs.value, cs.value, acts.value), {"Sized", "Equality"}));
    }
  }

  /** The fields read for a new structure mention only registered names and the structure itself. */
  lemma StructFieldsResolved(types: map<string, Type>, traits: map<string, Trait>, funcs: map<string, Function>,
                             funcNameOk: string -> bool, rec: StructRecord)
    requires RegistryValid(types, traits, funcs)
    requires StructFields(types, funcs, funcNameOk, rec).Success?
    ensures forall f :: f in StructFields(types, funcs, funcNameOk, rec).value ==>
      FieldRefsIn(f, types.Keys + {rec.name}, funcs.Keys)
  {
    var s0 := Building(rec.name, [], []);
    assert types[rec.name := s0].Keys == types.Keys + {rec.name};
    ParsedFieldsAreResolved(types[rec.name := s0], funcs, funcNameOk, s0, rec.fields);
  }

  /** The constraints read for a new structure mention only registered names and the structure itself. */
  lemma StructConstraintsResolved(types: map<string, Type>, traits: map<string, Trait>, funcs: map<string, Function>,
                                  rec: StructRecord, fs: seq<Field>)
    requires RegistryValid(types, traits, funcs)
    requires StructConstraints(types, funcs, rec, fs).Success?
    ensures forall e :: e in StructConstraints(types, funcs, rec, fs).value ==>
      ExprRefsIn(e, types.Keys + {rec.name}, funcs.Keys)
  {
    var s1 := Building(rec.name, fs, []);
    assert types[rec.name := s1].Keys == types.Keys + {rec.name};
    ParsedExpressionsAreResolved(types[rec.name := s1], funcs, s1, rec.constraints, false);
  }

  /** The actions read for a new structure mention only registered names and the structure itself. */
  lemma StructActionsResolved(types: map<string, Type>, traits: map<string, Trait>, funcs: map<string, Function>,
                              rec: StructRecord, fs: seq<Field>, cs: seq<Expression>)
    requires RegistryValid(types, traits, funcs)
    requires StructActions(types, funcs, rec, fs, cs).Success?
    ensures forall e :: e in StructActions(types, funcs, rec, fs, cs).value ==>
      ExprRefsIn(e, types.Keys + {rec.name}, funcs.Keys)
  {
    var s2 := Building(rec.name, fs, cs);
    assert types[rec.name := s2].Keys == types.Keys + {rec.name};
    ParsedExpressionsAreResolved(types[rec.name := s2], funcs, s2, rec.actions, true);
  }

  // ---------------------------------------------------------------------------------------------
  // Function definition, as a function of the registry it starts from

  /**
   * What `define_function` does: the admission checks (tag, unused name, name pattern), then the
   * parameters in order and the return type must resolve; only a success registers anything.
   */
  ghost function FunctionDefinition(types: map<string, Type>, funcs: map<string, Function>,
                                    funcNameOk: string -> bool, rec: FunctionRecord): (Outcome, map<string, Function>)
  {
    if rec.construct != "Function" then (Fail(WrongConstruct("Function", rec.construct)), funcs)
    else if rec.name in funcs then (Fail(AlreadyDefined(rec.name)), funcs)
    else if !funcNameOk(rec.name) then (Fail(MalformedName(rec.name)), funcs)
    else
      var ps := MapOrFail(ParameterResolver(types), rec.parameters);
      if ps.Failure? then (Fail(ps.error), funcs)
      else if rec.returnType !in types then (Fail(UnknownType(rec.returnType)), funcs)
      else (Ok, funcs[rec.name := Function(rec.name, ps.value, Some(rec.returnType))])
  }

  /**
   * The checks fail in the order tag, duplicate, name pattern; the definition succeeds exactly when
   * they pass and every parameter type and the return type are registered, and then adds one
   * function whose parameters are the records' names with their types, in order. A failure
   * registers nothing.
   */
  lemma FunctionDefinitionOutcome(types: map<string, Type>, funcs: map<string, Function>,
                                  funcNameOk: string -> bool, rec: FunctionRecord)
    ensures var (r, funcs') := FunctionDefinition(types, funcs, funcNameOk, rec);
      && (rec.construct != "Function" ==> r == Fail(WrongConstruct("Function", rec.construct)))
      && (rec.construct == "Function" && rec.name in funcs ==> r == Fail(AlreadyDefined(rec.name)))
      && (rec.construct == "Function" && rec.name !in funcs && !funcNameOk(rec.name) ==>
            r == Fail(MalformedName(rec.name)))
      && (r.Ok? <==>
            && rec.construct == "Function" && rec.name !in funcs && funcNameOk(rec.name)
            && (forall i :: 0 <= i < |rec.parameters| ==> rec.parameters[i].typeName in types)
            && rec.returnType in types)
      && (r.Fail? ==> funcs' == funcs)
      && (r.Ok? ==>
            && funcs'.Keys == funcs.Keys + {rec.name}
            && (forall n :: n in funcs ==> funcs'[n] == funcs[n])
            && funcs'[rec.name].name == rec.name
            && funcs'[rec.name].returnType == Some(rec.returnType)
            && |funcs'[rec.name].parameters| == |rec.parameters|
            && (forall i :: 0 <= i < |rec.parameters| ==>
                  funcs'[rec.name].parameters[i] == Parameter(rec.parameters[i].name, Some(rec.parameters[i].typeName))))
  {
    var ps := MapOrFail(ParameterResolver(types), rec.parameters);
    forall i | 0 <= i < |rec.parameters|
      ensures ParameterResolver(types)(rec.parameters[i]).Success? <==> rec.parameters[i].typeName in types
    {
    }
    if ps.Success? {
      forall i | 0 <= i < |rec.parameters|
        ensures ps.value[i] == Parameter(rec.parameters[i].name, Some(rec.parameters[i].typeName))
      {
        assert ParameterResolver(types)(rec.parameters[i]) == Success(ps.value[i]);
      }
    }
  }

  /** An unregistered parameter type stops the definition at the first such parameter. */
  lemma FunctionStopsAtUnknownParameter(types: map<string, Type>, funcs: map<string, Function>,
                                        funcNameOk: string -> bool, rec: FunctionRecord, k: nat)
    requires rec.construct == "Function" && rec.name !in funcs && funcNameOk(rec.name)
    requires k < |rec.parameters| && rec.parameters[k].typeName !in types
    requires forall j :: 0 <= j < k ==> rec.parameters[j].typeName in types
    ensures FunctionDefinition(types, funcs, funcNameOk, rec) == (Fail(UnknownType(rec.parameters[k].typeName)), funcs)
  {
    var ps := MapOrFail(ParameterResolver(types), rec.parameters);
    assert ParameterResolver(types)(rec.parameters[k]).Failure?;
    var k' :| 0 <= k' < |rec.parameters| && ParameterResolver(types)(rec.parameters[k']) == Failure(ps.error) &&
      forall j :: 0 <= j < k' ==> ParameterResolver(types)(rec.parameters[j]).Success?;
    assert k' == k;
  }

  /** Every registry a function definition leaves satisfies the invariant. */
  lemma FunctionDefinitionKeepsValid(types: map<string, Type>, traits: map<string, Trait>, funcs: map<string, Function>,
                                     funcNameOk: string -> bool, rec: FunctionRecord)
    requires RegistryValid(types, traits, funcs)
    ensures RegistryValid(types, traits, FunctionDefinition(types, funcs, funcNameOk, rec).1)
  {
    var (r, funcs') := FunctionDefinition(types, funcs, funcNameOk, rec);
    if r.Ok? {
      var ps := MapOrFail(ParameterResolver(types), rec.parameters).value;
      var f := Function(rec.name, ps, Some(rec.returnType));
      assert funcs' == funcs[rec.name := f];
      assert FunctionRefsIn(f, types.Keys) by {
        forall p | p in f.parameters ensures p.paramType.Some? && p.paramType.value in types {
          var i :| 0 <= i < |ps| && ps[i] == p;
          assert ParameterResolver(types)(rec.parameters[i]) == Success(p);
        }
      }
      ClosedAddFunction(types, funcs, rec.name, f);
    }
  }

  // -------------------------------------------------------------------------------------------
  // The list-reading helpers of the registry: each reads its records left to right, against the
  // registry's current types and functions, and stops at the first bad one

  /** Reads the fields of a structure, in order, in the scope of `thisType`. */
  method ParseFields(types: map<string, Type>, funcs: map<string, Function>, funcNameOk: string -> bool,
                     thisType: Type, frs: seq<FieldRecord>) returns (r: Result<seq<Field>, Error>)
    ensures r == MapOrFail(FieldParser(types, funcs, funcNameOk, thisType), frs)
  {
    ghost var parse := FieldParser(types, funcs, funcNameOk, thisType);
    var res: seq<Field> := [];
    var i := 0;
    while i < |frs|
      invariant 0 <= i <= |frs|
      invariant MapOrFail(parse, frs[..i]) == Success(res)
    {
      var fr := frs[i];
      assert frs[..i + 1][..i] == frs[..i];
      if !funcNameOk(fr.name) {
        MapOrFailPrefixFails(parse, frs, i + 1);
        return Failure(MalformedName(fr.name));
      }
      if fr.typeName !in types {
        MapOrFailPrefixFails(parse, frs, i + 1);
        return Failure(UnknownType(fr.typeName));
      }
      var isPresent := ParseExpression(types, funcs, thisType, fr.isPresent);
      if isPresent.Failure? {
        MapOrFailPrefixFails(parse, frs, i + 1);
        return Failure(isPresent.error);
      }
      var transform := ParseTransform(types, funcs, fr.transform);
      if transform.Failure? {
        MapOrFailPrefixFails(parse, frs, i + 1);
        return Failure(transform.error);
      }
      res := res + [Field(fr.name, fr.typeName, isPresent.value, transform.value)];
      i := i + 1;
    }
    assert frs[..i] == frs;
    r := Success(res);
  }

  /** Reads the constraints of a structure: each must type to Boolean. */
  method ParseConstraints(types: map<string, Type>, funcs: map<string, Function>, thisType: Type,
                          cs: seq<ExpressionRecord>) returns (r: Result<seq<Expression>, Error>)
    ensures r == MapOrFail(ConstraintParser(types, funcs, thisType), cs)
  {
    ghost var parse := ConstraintParser(types, funcs, thisType);
    var res: seq<Expression> := [];
    var i := 0;
    while i < |cs|
      invariant 0 <= i <= |cs|
      invariant MapOrFail(parse, cs[..i]) == Success(res)
    {
      assert cs[..i + 1][..i] == cs[..i];
      ConstraintSteps(types, funcs, thisType, cs[i]);
      var e := ParseExpression(types, funcs, thisType, cs[i]);
      if e.Failure? {
        MapOrFailPrefixFails(parse, cs, i + 1);
        return Failure(e.error);
      }
      var t := TypeOf(types, e.value);
      if t.Failure? {
        MapOrFailPrefixFails(parse, cs, i + 1);
        return Failure(t.error);
      }
      if t.value != Some("Boolean") {
        MapOrFailPrefixFails(parse, cs, i + 1);
        return Failure(ConstraintNotBoolean(t.value));
      }
      res := res + [e.value];
      i := i + 1;
    }
    assert cs[..i] == cs;
    r := Success(res);
  }

  /** Reads the actions of a structure: each must type to Nothing. */
  method ParseActions(types: map<string, Type>, funcs: map<string, Function>, thisType: Type,
                      acts: seq<ExpressionRecord>) returns (r: Result<seq<Expression>, Error>)
    ensures r == MapOrFail(ActionParser(types, funcs, thisType), acts)
  {
    ghost var parse := ActionParser(types, funcs, thisType);
    var res: seq<Expression> := [];
    var i := 0;
    while i < |acts|
      invariant 0 <= i <= |acts|
      invariant MapOrFail(parse, acts[..i]) == Success(res)
    {
      assert acts[..i + 1][..i] == acts[..i];
      ActionSteps(types, funcs, thisType, acts[i]);
      var e := ParseExpression(types, funcs, thisType, acts[i]);
      if e.Failure? {
        MapOrFailPrefixFails(parse, acts, i + 1);
        return Failure(e.error);
      }
      var t := TypeOf(types, e.value);
      if t.Failure? {
        MapOrFailPrefixFails(parse, acts, i + 1);
        return Failure(t.error);
      }
      if t.value != Some("Nothing") {
        MapOrFailPrefixFails(parse, acts, i + 1);
        return Failure(ActionNotNothing(t.value));
      }
      res := res + [e.value];
      i := i + 1;
    }
    assert acts[..i] == acts;
    r := Success(res);
  }

  /** Resolves the variant types of an enumeration, in order. */
  method ParseVariants(types: map<string, Type>, variants: seq<string>) returns (r: Result<seq<string>, Error>)
    ensures r == MapOrFail(TypeResolver(types), variants)
  {
    ghost var parse := TypeResolver(types);
    var res: seq<string> := [];
    var i := 0;
    while i < |variants|
      invariant 0 <= i <= |variants|
      invariant MapOrFail(parse, variants[..i]) == Success(res)
    {
      assert variants[..i + 1][..i] == variants[..i];
      if variants[i] !in types {
        MapOrFailPrefixFails(parse, variants, i + 1);
        return Failure(UnknownType(variants[i]));
      }
      res := res + [variants[i]];
      i := i + 1;
    }
    assert variants[..i] == variants;
    r := Success(res);
  }

  /** Resolves the parameters of a function, in order. */
  method ParseParameters(types: map<string, Type>, ps: seq<ParameterRecord>) returns (r: Result<seq<Parameter>, Error>)
    ensures r == MapOrFail(ParameterResolver(types), ps)
  {
    ghost var parse := ParameterResolver(types);
    var res: seq<Parameter> := [];
    var i := 0;
    while i < |ps|
      invariant 0 <= i <= |ps|
      invariant MapOrFail(parse, ps[..i]) == Success(res)
    {
      assert ps[..i + 1][..i] == ps[..i];
      if ps[i].typeName !in types {
        MapOrFailPrefixFails(parse, ps, i + 1);
        return Failure(UnknownType(ps[i].typeName));
      }
      res := res + [Parameter(ps[i].name, Some(ps[i].typeName))];
      i := i + 1;
    }
    assert ps[..i] == ps;
    r := Success(res);
  }

  // ---------------------------------------------------------------------------------------------
  // The registry

  class Protocol {
    var types: map<string, Type>
    var traits: map<string, Trait>
    var funcs: map<string, Function>
    const typeNameOk: string -> bool
    const funcNameOk: string -> bool

    /**
     * The registry's invariant: the standard traits and the three primitives are in place,
     * every entry is keyed by its own name, traits come from the standard set, and every
     * reference is to a registered name.
     */
    ghost predicate Valid()
      reads this
    {
      RegistryValid(types, traits, funcs)
    }

    /** A fresh registry: the three primitives, the seven standard traits, no functions. */
    constructor (typeNameOk: string -> bool, funcNameOk: string -> bool)
      ensures Valid()
      ensures types == PrimitiveTypes
      ensures traits == StandardTraits && funcs == map[]
      ensures this.typeNameOk == typeNameOk && this.funcNameOk == funcNameOk
    {
      this.typeNameOk := typeNameOk;
      this.funcNameOk := funcNameOk;
      types := map["Nothing" := NothingType,
                   "Boolean" := Type("Boolean", BooleanShape, {}),
                   "Size" := Type("Size", SizeShape, {})];
      traits := StandardTraits;
      funcs := map[];
      new;
      ImplementBooleanTraits();
      ImplementSizeTraits();
      assert types == PrimitiveTypes;
      PrimitiveRegistryValid();
    }

    /** The constructor's trait calls for `Boolean`: Value, Equality and BooleanOps, in that order. */
    method ImplementBooleanTraits()
      requires "Boolean" in types && types["Boolean"] == Type("Boolean", BooleanShape, {})
      requires "Value" in traits && "Equality" in traits && "BooleanOps" in traits
      modifies this
      ensures types == old(types)["Boolean" := BooleanType]
      ensures traits == old(traits) && funcs == old(funcs)
    {
      ImplementTrait("Boolean", "Value");
      ImplementTrait("Boolean", "Equality");
      ImplementTrait("Boolean", "BooleanOps");
      ThreeNames("Value", "Equality", "BooleanOps");
    }

    /** The constructor's trait calls for `Size`: Value, Equality, Ordinal and ArithmeticOps, in that order. */
    method ImplementSizeTraits()
      requires "Size" in types && types["Size"] == Type("Size", SizeShape, {})
      requires "Value" in traits && "Equality" in traits && "Ordinal" in traits && "ArithmeticOps" in traits
      modifies this
      ensures types == old(types)["Size" := SizeType]
      ensures traits == old(traits) && funcs == old(funcs)
    {
      ImplementTrait("Size", "Value");
      ImplementTrait("Size", "Equality");
      ImplementTrait("Size", "Ordinal");
      ThreeNames("Value", "Equality", "Ordinal");
      ImplementTrait("Size", "ArithmeticOps");
      assert types["Size"].traits == SizeType.traits;
    }

    /** Adds a trait to the implemented set of a registered type; nothing else changes. */
    method ImplementTrait(typeName: string, traitName: string)
      requires typeName in types && traitName in traits
      modifies this
      ensures types == old(types)[typeName := old(types)[typeName].(traits := old(types)[typeName].traits + {traitName})]
      ensures traits == old(traits) && funcs == old(funcs)
    {
      types := types[typeName := types[typeName].(traits := types[typeName].traits + {traitName})];
    }

    // -------------------------------------------------------------------------------------------
    // Lookups

    /** The type registered under `name`; a missing name is an error, not an absent value. */
    function GetType(name: string): (r: Result<Type, Error>)
      reads this
      ensures r.Success? <==> name in types
      ensures r.Success? ==> r.value == types[name]
      ensures r.Failure? ==> r.error == UnknownType(name)
    {
      if name in types then Success(types[name]) else Failure(UnknownType(name))
    }

    /** The function registered under `name`; a missing name is an error. */
    function GetFunc(name: string): (r: Result<Function, Error>)
      reads this
      ensures r.Success? <==> name in funcs
      ensures r.Success? ==> r.value == funcs[name]
      ensures r.Failure? ==> r.error == UnknownFunction(name)
    {
      if name in funcs then Success(funcs[name]) else Failure(UnknownFunction(name))
    }

    /** The trait registered under `name`; a missing name is an error. */
    function GetTrait(name: string): (r: Result<Trait, Error>)
      reads this
      ensures r.Success? <==> name in traits
      ensures r.Success? ==> r.value == traits[name]
      ensures r.Failure? ==> r.error == UnknownTrait(name)
    {
      if name in traits then Success(traits[name]) else Failure(UnknownTrait(name))
    }

    // -------------------------------------------------------------------------------------------
    // Constructors

    /** Registers a bit string: see `BitStringDefinition` for the outcome and the registry it leaves. */
    method DefineBitString(rec: BitStringRecord) returns (r: Outcome)
      requires Valid()
      modifies this
      ensures Valid()
      ensures traits == old(traits) && funcs == old(funcs)
      ensures (r, types) == BitStringDefinition(old(types), typeNameOk, rec)
    {
      BitStringDefinitionKeepsValid(types, traits, funcs, typeNameOk, rec);
      var v := ValidateIrType(types, typeNameOk, rec.construct, rec.name, "BitString");
      if v.Some? {
        return Fail(v.value);
      }
      var name := rec.name;
      var t := Type(name, BitStringShape(rec.size), {});
      types := types[name := t];
      ImplementTrait(name, "Sized");
      ImplementTrait(name, "Value");
      ImplementTrait(name, "Equality");
      ghost var u1 := t.(traits := t.traits + {"Sized"});
      ghost var u2 := u1.(traits := u1.traits + {"Value"});
      ghost var u3 := u2.(traits := u2.traits + {"Equality"});
      UpdateTwice(old(types), name, t, u1);
      UpdateTwice(old(types), name, u1, u2);
      UpdateTwice(old(types), name, u2, u3);
      ThreeNames("Sized", "Value", "Equality");
      assert u3 == t.(traits := {"Sized", "Value", "Equality"});
      r := Ok;
    }

    /** Registers an array: see `ArrayDefinition` for the outcome and the registry it leaves. */
    method DefineArray(rec: ArrayRecord) returns (r: Outcome)
      requires Valid()
      modifies this
      ensures Valid()
      ensures traits == old(traits) && funcs == old(funcs)
      ensures (r, types) == ArrayDefinition(old(types), typeNameOk, rec)
    {
      ArrayDefinitionKeepsValid(types, traits, funcs, typeNameOk, rec);
      var v := ValidateIrType(types, typeNameOk, rec.construct, rec.name, "Array");
      if v.Some? {
        return Fail(v.value);
      }
      if rec.elementType !in types {
        return Fail(UnknownType(rec.elementType));
      }
      var name := rec.name;
      var element := types[rec.elementType];
      var size := match SizeOf(element)
                  case Some(s) => Some(s * rec.length)
                  case None => None;
      var t := Type(name, ArrayShape(rec.elementType, rec.length, size), {});
      types := types[name := t];
      ImplementTrait(name, "Sized");
      ImplementTrait(name, "Equality");
      ImplementTrait(name, "IndexCollection");
      ghost var u1 := t.(traits := t.traits + {"Sized"});
      ghost var u2 := u1.(traits := u1.traits + {"Equality"});
      ghost var u3 := u2.(traits := u2.traits + {"IndexCollection"});
      UpdateTwice(old(types), name, t, u1);
      UpdateTwice(old(types), name, u1, u2);
      UpdateTwice(old(types), name, u2, u3);
      ThreeNames("Sized", "Equality", "IndexCollection");
      assert u3 == t.(traits := {"Sized", "Equality", "IndexCollection"});
      r := Ok;
    }

    /**
     * Registers a structure: see `StructDefinition` for the outcome and the registry it leaves,
     * including the partly built structure a failure leaves behind.
     */
    method DefineStruct(rec: StructRecord) returns (r: Outcome)
      requires Valid()
      modifies this
      ensures Valid()
      ensures traits == old(traits) && funcs == old(funcs)
      ensures (r, types) == StructDefinition(old(types), funcs, typeNameOk, funcNameOk, rec)
    {
      var v := ValidateIrType(types, typeNameOk, rec.construct, rec.name, "Struct");
      if v.Some? {
        return Fail(v.value);
      }
      var name := rec.name;
      var s0 := Type(name, StructShape([], [], []), {});
      StructDefinitionKeepsValid(types, traits, funcs, typeNameOk, funcNameOk, rec);
      types := types[name := s0];

      var fields := ParseFields(types, funcs, funcNameOk, types[name], rec.fields);
      if fields.Failure? {
        return Fail(fields.error);
      }
      var s1 := Type(name, StructShape(fields.value, [], []), {});
      UpdateTwice(old(types), name, s0, s1);
      types := types[name := s1];

      var constraints := ParseConstraints(types, funcs, types[name], rec.constraints);
      if constraints.Failure? {
        return Fail(constraints.error);
      }
      var s2 := Type(name, StructShape(fields.value, constraints.value, []), {});
      UpdateTwice(old(types), name, s1, s2);
      types := types[name := s2];

      var actions := ParseActions(types, funcs, types[name], rec.actions);
      if actions.Failure? {
        return Fail(actions.error);
      }
      var s3 := Type(name, StructShape(fields.value, constraints.value, actions.value), {});
      UpdateTwice(old(types), name, s2, s3);
      types := types[name := s3];
      ImplementTrait(name, "Sized");
      ImplementTrait(name, "Equality");
      ghost var u1 := s3.(traits := s3.traits + {"Sized"});
      ghost var u2 := u1.(traits := u1.traits + {"Equality"});
      UpdateTwice(old(types), name, s3, u1);
      UpdateTwice(old(types), name, u1, u2);
      TwoNames("Sized", "Equality");
      assert u2 == s3.(traits := {"Sized", "Equality"});
      r := Ok;
    }

    /** Registers an enumeration: see `EnumDefinition` for the outcome and the registry it leaves. */
    method DefineEnum(rec: EnumRecord) returns (r: Outcome)
      requires Valid()
      modifies this
      ensures Valid()
      ensures traits == old(traits) && funcs == old(funcs)
      ensures (r, types) == EnumDefinition(old(types), typeNameOk, rec)
    {
      EnumDefinitionKeepsValid(types, traits, funcs, typeNameOk, rec);
      var v := ValidateIrType(types, typeNameOk, rec.construct, rec.name, "Enum");
      if v.Some? {
        return Fail(v.value);
      }
      var name := rec.name;
      var variants := ParseVariants(types, rec.variants);
      if variants.Failure? {
        return Fail(variants.error);
      }
      var t := Type(name, EnumShape(variants.value), {});
      types := types[name := t];
      ImplementTrait(name, "Sized");
      ghost var u1 := t.(traits := t.traits + {"Sized"});
      UpdateTwice(old(types), name, t, u1);
      assert u1 == t.(traits := {"Sized"});
      r := Ok;
    }

    /**
     * Registers `rec.name` as a copy of a registered base type with its own trait set:
     * see `Derivation` for the outcome and the registry it leaves.
     */
    method DeriveType(rec: NewTypeRecord) returns (r: Outcome)
      requires Valid()
      modifies this
      ensures Valid()
      ensures traits == old(traits) && funcs == old(funcs)
      ensures (r, types) == Derivation(old(types), typeNameOk, rec)
    {
      var v := ValidateIrType(types, typeNameOk, rec.construct, rec.name, "NewType");
      if v.Some? {
        return Fail(v.value);
      }
      if rec.derivedFrom !in types {
        return Fail(UnknownType(rec.derivedFrom));
      }
      var name := rec.name;
      var base := types[rec.derivedFrom];
      types := types[name := Type(name, base.shape, base.traits)];
      var e := ImplementTraits(name, rec.implements);
      r := if e.Some? then Fail(e.value) else Ok;
      ghost var implemented := AddTraits(base.traits, rec.implements).1;
      UpdateTwice(old(types), name, Type(name, base.shape, base.traits), Type(name, base.shape, implemented));
      assert types == old(types)[name := Type(name, base.shape, implemented)];
      DerivationKeepsValid(old(types), traits, funcs, typeNameOk, rec);
    }

    /**
     * The loop of `derive_type`: adds the requested traits to the type `name` one by one and
     * stops at the first that is not registered.
     */
    method ImplementTraits(name: string, implements: seq<string>) returns (e: Option<Error>)
      requires name in types && traits.Keys == TraitNames
      modifies this
      ensures traits == old(traits) && funcs == old(funcs)
      ensures e == AddTraits(old(types)[name].traits, implements).0
      ensures types == old(types)[name := old(types)[name].(traits := AddTraits(old(types)[name].traits, implements).1)]
    {
      ghost var start := types[name].traits;
      ghost var reached := start;
      var i := 0;
      while i < |implements|
        invariant 0 <= i <= |implements|
        invariant traits == old(traits) && funcs == old(funcs)
        invariant AddTraits(start, implements[..i]) == (None, reached)
        invariant types == old(types)[name := old(types)[name].(traits := reached)]
      {
        var t := implements[i];
        assert implements[..i + 1][..i] == implements[..i];
        if t !in traits {
          AddTraitsPrefixFails(start, implements, i + 1);
          return Some(UnknownTrait(t));
        }
        ImplementTrait(name, t);
        reached := reached + {t};
        i := i + 1;
      }
      assert implements[..i] == implements;
      e := None;
    }

    /** Registers a function: see `FunctionDefinition` for the outcome and the functions it leaves. */
    method DefineFunction(rec: FunctionRecord) returns (r: Outcome)
      requires Valid()
      modifies this
      ensures Valid()
      ensures types == old(types) && traits == old(traits)
      ensures (r, funcs) == FunctionDefinition(types, old(funcs), funcNameOk, rec)
    {
      FunctionDefinitionKeepsValid(types, traits, funcs, funcNameOk, rec);
      if rec.construct != "Function" {
        return Fail(WrongConstruct("Function", rec.construct));
      }
      if rec.name in funcs {
        return Fail(AlreadyDefined(rec.name));
      }
      if !funcNameOk(rec.name) {
        return Fail(MalformedName(rec.name));
      }
      var params := ParseParameters(types, rec.parameters);
      if params.Failure? {
        return Fail(params.error);
      }
      if rec.returnType !in types {
        return Fail(UnknownType(rec.returnType));
      }
      funcs := funcs[rec.name := Function(rec.name, params.value, Some(rec.returnType))];
      r := Ok;
    }

    /** Contexts are not supported: the call always fails and changes nothing. */
    method DefineContext(rec: ContextRecord) returns (r: Outcome)
      ensures r == Fail(Unimplemented("define_context"))
    {
      r := Fail(Unimplemented("define_context"));
    }

    /** The whole-protocol type check is not supported: the call always fails and changes nothing. */
    method Typecheck() returns (r: Outcome)
      ensures r == Fail(Unimplemented("typecheck"))
    {
      r := Fail(Unimplemented("typecheck"));
    }
  }
}
