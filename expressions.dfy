/**
 * The expression builder of the registry: turning expression records into typed
 * expression trees inside the scope of a structure type, and the static type of
 * each expression form.
 *
 * `types` and `funcs` are the registry's type and function maps at the moment of the
 * call; `thisType` is the structure in whose scope the expression is read.
 */
module Expressions {
  import opened Wrappers
  import opened IR

  // ---------------------------------------------------------------------------------------------
  // Static types

  /**
   * The static type of an expression: `Success(Some(t))` for a registered type name, `Success(None)`
   * where a method signature declares no return type, `Failure` where the type cannot be resolved.
   */
  function TypeOf(types: map<string, Type>, e: Expression): (r: Result<Option<string>, Error>)
  {
    match e
    case This(n) => Success(Some(n))
    case Constant(t, _) => Success(Some(t))
    case FunctionInvocation(f, _) => Success(f.returnType)
    case ContextAccess(_) => Failure(Unimplemented("ContextAccess"))
    case FieldAccess(target, f) =>
      var tt :- TypeOf(types, target);
      if tt.None? then Failure(UntypedTarget)
      else if tt.value !in types then Failure(UnknownType(tt.value))
      else if FieldTypeOf(types[tt.value], f).None? then Failure(NoSuchField(tt.value, f))
      else Success(FieldTypeOf(types[tt.value], f))
    case MethodInvocation(target, m, _) =>
      var tt :- TypeOf(types, target);
      if tt.None? then Failure(UntypedTarget)
      else if tt.value !in types then Failure(UnknownType(tt.value))
      else
        var sig := FindMethod(TraitOrder, types[tt.value].traits, m);
        if sig.None? then Failure(NoSuchMethod(tt.value, m)) else Success(sig.value.returnType)
    case IfElse(c, a, b) =>
      var ct :- TypeOf(types, c);
      if ct != Some("Boolean") then Failure(ConditionNotBoolean(ct))
      else
        var at :- TypeOf(types, a);
        var bt :- TypeOf(types, b);
        if at != bt then Failure(BranchTypesDiffer(at, bt)) else Success(at)
  }

  // ---------------------------------------------------------------------------------------------
  // Building expressions from records

  /**
   * Builds the typed expression for `e` in the scope of `thisType`. Only a structure type
   * opens a scope; every referenced function and constant type must already be registered.
   */
  function ParseExpression(types: map<string, Type>, funcs: map<string, Function>, thisType: Type,
                           e: ExpressionRecord): (r: Result<Expression, Error>)
    ensures !thisType.shape.StructShape? ==> r == Failure(NotInStructScope(thisType.name))
    decreases e
  {
    if !thisType.shape.StructShape? then Failure(NotInStructScope(thisType.name))
    else
      match e
      case MethodInvocationRecord(t, m, args) =>
        var target :- ParseExpression(types, funcs, thisType, t);
        var arguments :- ParseArguments(types, funcs, thisType, args);
        Success(MethodInvocation(target, m, arguments))
      case FunctionInvocationRecord(n, args) =>
        if n !in funcs then Failure(UnknownFunction(n))
        else
          var arguments :- ParseArguments(types, funcs, thisType, args);
          Success(FunctionInvocation(funcs[n], arguments))
      case FieldAccessRecord(t, f) =>
        var target :- ParseExpression(types, funcs, thisType, t);
        Success(FieldAccess(target, f))
      case ContextAccessRecord(f) => Success(ContextAccess(f))
      case IfElseRecord(c, a, b) =>
        var condition :- ParseExpression(types, funcs, thisType, c);
        var ifTrue :- ParseExpression(types, funcs, thisType, a);
        var ifFalse :- ParseExpression(types, funcs, thisType, b);
        Success(IfElse(condition, ifTrue, ifFalse))
      case ThisRecord => Success(This(thisType.name))
      case ConstantRecord(tn, v) =>
        if tn !in types then Failure(UnknownType(tn)) else Success(Constant(tn, v))
      case OtherRecord(tag) => Failure(UnsupportedExpression(tag))
  }

  /**
   * Builds the arguments of an invocation in order: each keeps its name and the static
   * type of its value expression, which must resolve.
   */
  function ParseArguments(types: map<string, Type>, funcs: map<string, Function>, thisType: Type,
                          args: seq<ArgumentRecord>): (r: Result<seq<Argument>, Error>)
    ensures r.Success? ==> |r.value| == |args|
    ensures r.Success? ==> forall i :: 0 <= i < |args| ==>
      && r.value[i].name == args[i].name
      && ParseExpression(types, funcs, thisType, args[i].value).Success?
      && TypeOf(types, ParseExpression(types, funcs, thisType, args[i].value).value) == Success(r.value[i].argType)
    decreases args
  {
    if args == [] then Success([])
    else
      var e :- ParseExpression(types, funcs, thisType, args[0].value);
      var t :- TypeOf(types, e);
      var rest :- ParseArguments(types, funcs, thisType, args[1..]);
      assert forall i :: 1 <= i < |args| ==> args[i] == args[1..][i - 1];
      Success([Argument(args[0].name, t)] + rest)
  }

  /** Resolves an optional transform: its target type and the function it uses must be registered. */
  function ParseTransform(types: map<string, Type>, funcs: map<string, Function>,
                          t: Option<TransformRecord>): (r: Result<Option<Transform>, Error>)
    ensures r.Success? <==> t.None? || (t.value.intoType in types && t.value.using in funcs)
    ensures r.Success? && t.Some? ==>
      r.value == Some(Transform(t.value.intoName, t.value.intoType, funcs[t.value.using]))
    ensures r.Success? && t.None? ==> r.value.None?
  {
    match t
    case None => Success(None)
    case Some(tr) =>
      if tr.intoType !in types then Failure(UnknownType(tr.intoType))
      else if tr.using !in funcs then Failure(UnknownFunction(tr.using))
      else Success(Some(Transform(tr.intoName, tr.intoType, funcs[tr.using])))
  }

  /**
   * One field of a structure: a well-formed field name, a registered type, its presence
   * expression and its optional transform, checked in that order.
   */
  function ParseField(types: map<string, Type>, funcs: map<string, Function>, funcNameOk: string -> bool,
                      thisType: Type, fr: FieldRecord): (r: Result<Field, Error>)
    ensures !funcNameOk(fr.name) ==> r == Failure(MalformedName(fr.name))
    ensures funcNameOk(fr.name) && fr.typeName !in types ==> r == Failure(UnknownType(fr.typeName))
    ensures r.Success? ==> r.value.name == fr.name && r.value.fieldType == fr.typeName
  {
    if !funcNameOk(fr.name) then Failure(MalformedName(fr.name))
    else if fr.typeName !in types then Failure(UnknownType(fr.typeName))
    else
      var isPresent :- ParseExpression(types, funcs, thisType, fr.isPresent);
      var transform :- ParseTransform(types, funcs, fr.transform);
      Success(Field(fr.name, fr.typeName, isPresent, transform))
  }

  /** A field parses exactly when its name is accepted, its type is registered and both its
      presence expression and its transform parse; the parsed field carries those parses, and
      a failure of either is passed on unchanged. */
  lemma ParseFieldOutcome(types: map<string, Type>, funcs: map<string, Function>, funcNameOk: string -> bool,
                          thisType: Type, fr: FieldRecord)
    ensures ParseField(types, funcs, funcNameOk, thisType, fr).Success? <==>
              funcNameOk(fr.name) && fr.typeName in types &&
              ParseExpression(types, funcs, thisType, fr.isPresent).Success? &&
              ParseTransform(types, funcs, fr.transform).Success?
    ensures funcNameOk(fr.name) && fr.typeName in types &&
            ParseExpression(types, funcs, thisType, fr.isPresent).Failure? ==>
              ParseField(types, funcs, funcNameOk, thisType, fr) ==
              Failure(ParseExpression(types, funcs, thisType, fr.isPresent).error)
    ensures funcNameOk(fr.name) && fr.typeName in types &&
            ParseExpression(types, funcs, thisType, fr.isPresent).Success? &&
            ParseTransform(types, funcs, fr.transform).Failure? ==>
              ParseField(types, funcs, funcNameOk, thisType, fr) ==
              Failure(ParseTransform(types, funcs, fr.transform).error)
    ensures ParseField(types, funcs, funcNameOk, thisType, fr).Success? ==>
              ParseField(types, funcs, funcNameOk, thisType, fr).value ==
              Field(fr.name, fr.typeName, ParseExpression(types, funcs, thisType, fr.isPresent).value,
                    ParseTransform(types, funcs, fr.transform).value)
  {
  }

  /** A constraint: an expression whose static type is `Boolean`. */
  function ParseConstraint(types: map<string, Type>, funcs: map<string, Function>, thisType: Type,
                           c: ExpressionRecord): (r: Result<Expression, Error>)
    ensures r.Success? ==> TypeOf(types, r.value) == Success(Some("Boolean"))
    ensures ParseExpression(types, funcs, thisType, c).Success? &&
            TypeOf(types, ParseExpression(types, funcs, thisType, c).value).Success? &&
            TypeOf(types, ParseExpression(types, funcs, thisType, c).value).value != Some("Boolean")
            ==> r.Failure? && r.error.ConstraintNotBoolean?
  {
    var e :- ParseExpression(types, funcs, thisType, c);
    var t :- TypeOf(types, e);
    if t != Some("Boolean") then Failure(ConstraintNotBoolean(t)) else Success(e)
  }

  /** The three checks of a constraint, in order: it resolves, its type resolves, and that type is Boolean. */
  lemma ConstraintSteps(types: map<string, Type>, funcs: map<string, Function>, thisType: Type, c: ExpressionRecord)
    ensures ParseExpression(types, funcs, thisType, c).Failure? ==>
              ParseConstraint(types, funcs, thisType, c) == Failure(ParseExpression(types, funcs, thisType, c).error)
    ensures ParseExpression(types, funcs, thisType, c).Success? &&
            TypeOf(types, ParseExpression(types, funcs, thisType, c).value).Failure? ==>
              ParseConstraint(types, funcs, thisType, c) ==
              Failure(TypeOf(types, ParseExpression(types, funcs, thisType, c).value).error)
    ensures ParseExpression(types, funcs, thisType, c).Success? &&
            TypeOf(types, ParseExpression(types, funcs, thisType, c).value) == Success(Some("Boolean")) ==>
              ParseConstraint(types, funcs, thisType, c) == Success(ParseExpression(types, funcs, thisType, c).value)
  {
  }

  /** An action: an expression whose static type is `Nothing`. */
  function ParseAction(types: map<string, Type>, funcs: map<string, Function>, thisType: Type,
                       a: ExpressionRecord): (r: Result<Expression, Error>)
    ensures r.Success? ==> TypeOf(types, r.value) == Success(Some("Nothing"))
    ensures ParseExpression(types, funcs, thisType, a).Success? &&
            TypeOf(types, ParseExpression(types, funcs, thisType, a).value).Success? &&
            TypeOf(types, ParseExpression(types, funcs, thisType, a).value).value != Some("Nothing")
            ==> r.Failure? && r.error.ActionNotNothing?
  {
    var e :- ParseExpression(types, funcs, thisType, a);
    var t :- TypeOf(types, e);
    if t != Some("Nothing") then Failure(ActionNotNothing(t)) else Success(e)
  }

  /** The three checks of an action, in order: it resolves, its type resolves, and that type is Nothing. */
  lemma ActionSteps(types: map<string, Type>, funcs: map<string, Function>, thisType: Type, a: ExpressionRecord)
    ensures ParseExpression(types, funcs, thisType, a).Failure? ==>
              ParseAction(types, funcs, thisType, a) == Failure(ParseExpression(types, funcs, thisType, a).error)
    ensures ParseExpression(types, funcs, thisType, a).Success? &&
            TypeOf(types, ParseExpression(types, funcs, thisType, a).value).Failure? ==>
              ParseAction(types, funcs, thisType, a) ==
              Failure(TypeOf(types, ParseExpression(types, funcs, thisType, a).value).error)
    ensures ParseExpression(types, funcs, thisType, a).Success? &&
            TypeOf(types, ParseExpression(types, funcs, thisType, a).value) == Success(Some("Nothing")) ==>
              ParseAction(types, funcs, thisType, a) == Success(ParseExpression(types, funcs, thisType, a).value)
  {
  }

  /** `ParseField` with its context fixed, as one step of the field-parsing loop. */
  function FieldParser(types: map<string, Type>, funcs: map<string, Function>, funcNameOk: string -> bool,
                       thisType: Type): FieldRecord -> Result<Field, Error>
  {
    fr => ParseField(types, funcs, funcNameOk, thisType, fr)
  }

  function ConstraintParser(types: map<string, Type>, funcs: map<string, Function>,
                            thisType: Type): ExpressionRecord -> Result<Expression, Error>
  {
    c => ParseConstraint(types, funcs, thisType, c)
  }

  function ActionParser(types: map<string, Type>, funcs: map<string, Function>,
                        thisType: Type): ExpressionRecord -> Result<Expression, Error>
  {
    a => ParseAction(types, funcs, thisType, a)
  }

  // ---------------------------------------------------------------------------------------------
  // References

  /** Every type and function an expression names is among `tk` and `fk`. */
  ghost predicate ExprRefsIn(e: Expression, tk: set<string>, fk: set<string>)
  {
    match e
    case MethodInvocation(t, _, _) => ExprRefsIn(t, tk, fk)
    case FunctionInvocation(f, _) => f.name in fk
    case FieldAccess(t, _) => ExprRefsIn(t, tk, fk)
    case ContextAccess(_) => true
    case IfElse(c, a, b) => ExprRefsIn(c, tk, fk) && ExprRefsIn(a, tk, fk) && ExprRefsIn(b, tk, fk)
    case This(n) => n in tk
    case Constant(t, _) => t in tk
  }

  /** References stay resolved when the registry grows. */
  lemma {:induction false} ExprRefsGrow(e: Expression, tk: set<string>, fk: set<string>,
                                        tk': set<string>, fk': set<string>)
    requires ExprRefsIn(e, tk, fk) && tk <= tk' && fk <= fk'
    ensures ExprRefsIn(e, tk', fk')
  {
    match e
    case MethodInvocation(t, _, _) => ExprRefsGrow(t, tk, fk, tk', fk');
    case FieldAccess(t, _) => ExprRefsGrow(t, tk, fk, tk', fk');
    case IfElse(c, a, b) =>
      ExprRefsGrow(c, tk, fk, tk', fk');
      ExprRefsGrow(a, tk, fk, tk', fk');
      ExprRefsGrow(b, tk, fk, tk', fk');
    case _ =>
  }

  /**
   * A built expression only refers to registered names: constants to registered types,
   * invocations to registered functions, `This` to the enclosing structure.
   */
  lemma {:induction false} ParsedExpressionIsResolved(types: map<string, Type>, funcs: map<string, Function>,
                                                      thisType: Type, rec: ExpressionRecord)
    requires thisType.name in types
    requires forall n :: n in funcs ==> funcs[n].name == n
    requires ParseExpression(types, funcs, thisType, rec).Success?
    ensures ExprRefsIn(ParseExpression(types, funcs, thisType, rec).value, types.Keys, funcs.Keys)
  {
    match rec
    case MethodInvocationRecord(t, _, _) => ParsedExpressionIsResolved(types, funcs, thisType, t);
    case FieldAccessRecord(t, _) => ParsedExpressionIsResolved(types, funcs, thisType, t);
    case IfElseRecord(c, a, b) =>
      ParsedExpressionIsResolved(types, funcs, thisType, c);
      ParsedExpressionIsResolved(types, funcs, thisType, a);
      ParsedExpressionIsResolved(types, funcs, thisType, b);
    case _ =>
  }

  // ---------------------------------------------------------------------------------------------
  // Typing of each expression form

  /** `This` inside a structure stands for exactly that structure's type. */
  lemma ThisHasEnclosingType(types: map<string, Type>, funcs: map<string, Function>, thisType: Type)
    requires thisType.shape.StructShape?
    ensures ParseExpression(types, funcs, thisType, ThisRecord) == Success(This(thisType.name))
    ensures TypeOf(types, This(thisType.name)) == Success(Some(thisType.name))
  {
  }

  /** A constant has the type it declares, which must be registered. */
  lemma ConstantHasDeclaredType(types: map<string, Type>, funcs: map<string, Function>, thisType: Type,
                                tn: string, v: string)
    requires thisType.shape.StructShape?
    ensures ParseExpression(types, funcs, thisType, ConstantRecord(tn, v)).Success? <==> tn in types
    ensures tn in types ==>
      TypeOf(types, ParseExpression(types, funcs, thisType, ConstantRecord(tn, v)).value) == Success(Some(tn))
  {
  }

  /**
   * `this.f`, read while the enclosing structure is registered under its name, has the
   * declared type of the structure's field `f`.
   */
  lemma FieldAccessOnThisHasFieldType(types: map<string, Type>, funcs: map<string, Function>, thisType: Type,
                                      f: string)
    requires thisType.shape.StructShape?
    requires thisType.name in types && FieldTypeOf(types[thisType.name], f).Some?
    ensures ParseExpression(types, funcs, thisType, FieldAccessRecord(ThisRecord, f)).Success?
    ensures TypeOf(types, ParseExpression(types, funcs, thisType, FieldAccessRecord(ThisRecord, f)).value)
            == Success(FieldTypeOf(types[thisType.name], f))
  {
    assert ParseExpression(types, funcs, thisType, ThisRecord) == Success(This(thisType.name));
  }

  /** A conditional over a Boolean condition and two Boolean branches is Boolean. */
  lemma IfElseOfBooleansIsBoolean(types: map<string, Type>, funcs: map<string, Function>, thisType: Type,
                                  c: ExpressionRecord, a: ExpressionRecord, b: ExpressionRecord)
    requires forall x :: x in [c, a, b] ==>
      ParseExpression(types, funcs, thisType, x).Success? &&
      TypeOf(types, ParseExpression(types, funcs, thisType, x).value) == Success(Some("Boolean"))
    ensures ParseExpression(types, funcs, thisType, IfElseRecord(c, a, b)).Success?
    ensures TypeOf(types, ParseExpression(types, funcs, thisType, IfElseRecord(c, a, b)).value)
            == Success(Some("Boolean"))
  {
    assert c in [c, a, b] && a in [c, a, b] && b in [c, a, b];
  }

  /** An expression record with an unrecognised discriminator is rejected. */
  lemma UnknownDiscriminatorFails(types: map<string, Type>, funcs: map<string, Function>, thisType: Type,
                                  tag: string)
    ensures ParseExpression(types, funcs, thisType, OtherRecord(tag)).Failure?
    ensures thisType.shape.StructShape? ==>
      ParseExpression(types, funcs, thisType, OtherRecord(tag)) == Failure(UnsupportedExpression(tag))
  {
  }

  /**
   * A method invocation has the return type of a signature named like the method in one of
   * the traits its target's type implements; with no such signature it does not type.
   */
  lemma MethodInvocationTypeFromTraits(types: map<string, Type>, target: Expression, m: string,
                                       args: seq<Argument>, tn: string)
    requires TypeOf(types, target) == Success(Some(tn)) && tn in types
    ensures TypeOf(types, MethodInvocation(target, m, args)).Success? <==>
      exists tr, sig :: tr in types[tn].traits && tr in TraitOrder && TraitHasMethod(tr, sig) && sig.name == m
    ensures TypeOf(types, MethodInvocation(target, m, args)).Success? ==>
      exists tr, sig :: tr in types[tn].traits && TraitHasMethod(tr, sig) && sig.name == m &&
                        TypeOf(types, MethodInvocation(target, m, args)).value == sig.returnType
  {
    var sig := FindMethod(TraitOrder, types[tn].traits, m);
    if sig.Some? {
      var tr :| tr in types[tn].traits && tr in TraitOrder && TraitHasMethod(tr, sig.value);
      assert tr in types[tn].traits && TraitHasMethod(tr, sig.value) && sig.value.name == m;
    }
  }
}
