/**
 * The Protocol IR's values: the closed set of type variants, the built-in traits,
 * typed expressions, and the input records the front ends hand to the registry.
 *
 * Types refer to each other by their registered name (the key of the registry's
 * type map) rather than by object identity: a registered entry never changes, so
 * the name stands for the object the original code links to.
 */
module IR {
  import opened Wrappers

  /** A parameter of a function or of a trait method; trait signatures leave most types open (`None`). */
  datatype Parameter = Parameter(name: string, paramType: Option<string>)

  /** A function signature. `returnType` is `None` where a trait signature declares no return type. */
  datatype Function = Function(name: string, parameters: seq<Parameter>, returnType: Option<string>)

  /** A capability: a name and an ordered list of method signatures. */
  datatype Trait = Trait(name: string, methods: seq<Function>)

  /** A call argument: its name and the static type of the expression passed (the value itself is not kept). */
  datatype Argument = Argument(name: string, argType: Option<string>)

  /** A typed expression, built only inside the scope of a structure type. */
  datatype Expression =
    | MethodInvocation(target: Expression, methodName: string, arguments: seq<Argument>)
    | FunctionInvocation(func: Function, arguments: seq<Argument>)
    | FieldAccess(target: Expression, field: string)
    | ContextAccess(field: string)
    | IfElse(condition: Expression, ifTrue: Expression, ifFalse: Expression)
    | This(thisType: string)
    | Constant(constType: string, value: string)

  /** How a present field is reinterpreted downstream: a new name and type, computed by a registered function. */
  datatype Transform = Transform(intoName: string, intoType: string, using: Function)

  datatype Field = Field(name: string, fieldType: string, isPresent: Expression, transform: Option<Transform>)

  /** The kind-specific part of a type. */
  datatype Shape =
    | NothingShape
    | BooleanShape
    | SizeShape
    | BitStringShape(bits: nat)
    | ArrayShape(elementType: string, length: nat, arraySize: Option<nat>)
    | StructShape(fields: seq<Field>, constraints: seq<Expression>, actions: seq<Expression>)
    | EnumShape(variants: seq<string>)

  /** A registered type: its name, its shape and the names of the traits it implements. */
  datatype Type = Type(name: string, shape: Shape, traits: set<string>)

  /** The `kind` tag of a type. */
  function Kind(t: Type): string
  {
    match t.shape
    case NothingShape => "Nothing"
    case BooleanShape => "Boolean"
    case SizeShape => "Size"
    case BitStringShape(_) => "BitString"
    case ArrayShape(_, _, _) => "Array"
    case StructShape(_, _, _) => "Struct"
    case EnumShape(_) => "Enum"
  }

  /** The size in bits of a type, where the type has one. */
  function SizeOf(t: Type): Option<nat>
  {
    match t.shape
    case BitStringShape(n) => Some(n)
    case ArrayShape(_, _, s) => s
    case _ => None
  }

  /** The declared type of the first field of `t` named `f`, if `t` is a structure with such a field. */
  function FieldTypeOf(t: Type, f: string): (r: Option<string>)
    ensures r.Some? ==> t.shape.StructShape? && exists i :: 0 <= i < |t.shape.fields| && t.shape.fields[i].name == f && t.shape.fields[i].fieldType == r.value
  {
    if t.shape.StructShape? then FieldTypeIn(t.shape.fields, f) else None
  }

  function FieldTypeIn(fields: seq<Field>, f: string): (r: Option<string>)
    ensures r.Some? <==> exists i :: 0 <= i < |fields| && fields[i].name == f
    ensures r.Some? ==> exists i :: 0 <= i < |fields| && fields[i].name == f && fields[i].fieldType == r.value
  {
    if fields == [] then None
    else if fields[0].name == f then Some(fields[0].fieldType)
    else
      var r := FieldTypeIn(fields[1..], f);
      assert forall i :: 1 <= i < |fields| ==> fields[i] == fields[1..][i - 1];
      r
  }

  // ---------------------------------------------------------------------------------------------
  // The built-in traits and primitive types

  const SelfParam := Parameter("self", None)
  const OtherParam := Parameter("other", None)
  const IndexParam := Parameter("index", Some("Size"))
  const ValueParam := Parameter("value", None)

  /** A binary predicate method `name(self, other) -> Boolean`. */
  function Comparison(name: string): Function
  {
    Function(name, [SelfParam, OtherParam], Some("Boolean"))
  }

  /** The seven standard traits, in the order the registry defines them. */
  const TraitOrder: seq<string> :=
    ["Value", "Sized", "IndexCollection", "Equality", "Ordinal", "BooleanOps", "ArithmeticOps"]

  const StandardTraits: map<string, Trait> := map[
    "Value" := Trait("Value", [
      Function("get", [SelfParam], None),
      Function("set", [SelfParam, ValueParam], None)]),
    "Sized" := Trait("Sized", [
      Function("size", [SelfParam], Some("Size"))]),
    "IndexCollection" := Trait("IndexCollection", [
      Function("get", [SelfParam, IndexParam], None),
      Function("set", [SelfParam, IndexParam, ValueParam], None),
      Function("length", [SelfParam], Some("Size"))]),
    "Equality" := Trait("Equality", [Comparison("eq"), Comparison("ne")]),
    "Ordinal" := Trait("Ordinal", [Comparison("lt"), Comparison("le"), Comparison("gt"), Comparison("ge")]),
    "BooleanOps" := Trait("BooleanOps", [
      Comparison("and"), Comparison("or"), Function("not", [SelfParam], Some("Boolean"))]),
    "ArithmeticOps" := Trait("ArithmeticOps", [
      Function("plus", [SelfParam, OtherParam], None),
      Function("minus", [SelfParam, OtherParam], None),
      Function("multiply", [SelfParam], None),
      Function("divide", [SelfParam], None),
      Function("modulo", [SelfParam], None)])
  ]

  const NothingType := Type("Nothing", NothingShape, {})
  const BooleanType := Type("Boolean", BooleanShape, {"Value", "Equality", "BooleanOps"})
  const SizeType := Type("Size", SizeShape, {"Value", "Equality", "Ordinal", "ArithmeticOps"})

  /** True when `sig` is a method of trait `tn` among the standard traits. */
  ghost predicate TraitHasMethod(tn: string, sig: Function)
  {
    tn in StandardTraits && sig in StandardTraits[tn].methods
  }

  /** The first signature named `m` in `methods`. */
  function MethodIn(methods: seq<Function>, m: string): (r: Option<Function>)
    ensures r.Some? ==> r.value in methods && r.value.name == m
    ensures r.None? ==> forall sig :: sig in methods ==> sig.name != m
  {
    if methods == [] then None
    else if methods[0].name == m then Some(methods[0])
    else MethodIn(methods[1..], m)
  }

  /**
   * The signature of the method `m` that a type implementing the traits `implemented`
   * exposes, searching the traits in `order`.
   */
  function FindMethod(order: seq<string>, implemented: set<string>, m: string): (r: Option<Function>)
    requires forall i :: 0 <= i < |order| ==> order[i] in StandardTraits
    ensures r.Some? ==> r.value.name == m && exists tn :: tn in implemented && tn in order && TraitHasMethod(tn, r.value)
    ensures r.None? ==> forall tn, sig :: tn in implemented && tn in order && TraitHasMethod(tn, sig) ==> sig.name != m
  {
    if order == [] then None
    else
      var here := if order[0] in implemented then MethodIn(StandardTraits[order[0]].methods, m) else None;
      if here.Some? then here else FindMethod(order[1..], implemented, m)
  }

  // ---------------------------------------------------------------------------------------------
  // Errors

  /** Why a construction or resolution call fails. */
  datatype Error =
    | WrongConstruct(expected: string, found: string)
    | AlreadyDefined(name: string)
    | MalformedName(name: string)
    | UnknownType(name: string)
    | UnknownFunction(name: string)
    | UnknownTrait(name: string)
    | NotInStructScope(name: string)
    | UnsupportedExpression(tag: string)
    | ConstraintNotBoolean(constraintType: Option<string>)
    | ActionNotNothing(actionType: Option<string>)
    | UntypedTarget
    | NoSuchField(typeName: string, field: string)
    | NoSuchMethod(typeName: string, methodName: string)
    | ConditionNotBoolean(conditionType: Option<string>)
    | BranchTypesDiffer(ifTrue: Option<string>, ifFalse: Option<string>)
    | Unimplemented(operation: string)

  // ---------------------------------------------------------------------------------------------
  // Input records, as the front ends produce them

  /** An expression record, keyed by its `expression` discriminator; `OtherRecord` carries any other tag. */
  datatype ExpressionRecord =
    | MethodInvocationRecord(target: ExpressionRecord, methodName: string, arguments: seq<ArgumentRecord>)
    | FunctionInvocationRecord(name: string, arguments: seq<ArgumentRecord>)
    | FieldAccessRecord(target: ExpressionRecord, field: string)
    | ContextAccessRecord(field: string)
    | IfElseRecord(condition: ExpressionRecord, ifTrue: ExpressionRecord, ifFalse: ExpressionRecord)
    | ThisRecord
    | ConstantRecord(typeName: string, value: string)
    | OtherRecord(expression: string)

  datatype ArgumentRecord = ArgumentRecord(name: string, value: ExpressionRecord)

  datatype TransformRecord = TransformRecord(intoName: string, intoType: string, using: string)

  datatype FieldRecord = FieldRecord(name: string, typeName: string, isPresent: ExpressionRecord,
                                     transform: Option<TransformRecord>)

  datatype ParameterRecord = ParameterRecord(name: string, typeName: string)

  datatype BitStringRecord = BitStringRecord(construct: string, name: string, size: nat)

  datatype ArrayRecord = ArrayRecord(construct: string, name: string, elementType: string, length: nat)

  datatype StructRecord = StructRecord(construct: string, name: string, fields: seq<FieldRecord>,
                                       constraints: seq<ExpressionRecord>, actions: seq<ExpressionRecord>)

  datatype EnumRecord = EnumRecord(construct: string, name: string, variants: seq<string>)

  datatype NewTypeRecord = NewTypeRecord(construct: string, name: string, derivedFrom: string,
                                         implements: seq<string>)

  datatype FunctionRecord = FunctionRecord(construct: string, name: string, parameters: seq<ParameterRecord>,
                                           returnType: string)

  datatype ContextRecord = ContextRecord(construct: string, name: string)

  // ---------------------------------------------------------------------------------------------
  // Short-circuiting map: the shape of every "parse each element, raise on the first bad one" loop

  /**
   * Applies `f` to each element left to right and collects the results, stopping at the first
   * failure and returning its error.
   */
  function MapOrFail<A, B, E>(f: A -> Result<B, E>, xs: seq<A>): (r: Result<seq<B>, E>)
    ensures r.Success? <==> forall i :: 0 <= i < |xs| ==> f(xs[i]).Success?
    ensures r.Success? ==> |r.value| == |xs| && forall i :: 0 <= i < |xs| ==> f(xs[i]) == Success(r.value[i])
    ensures r.Failure? ==> exists k :: 0 <= k < |xs| && f(xs[k]) == Failure(r.error) &&
                                       forall j :: 0 <= j < k ==> f(xs[j]).Success?
  {
    if xs == [] then Success([])
    else
      var front := xs[..|xs| - 1];
      assert forall i :: 0 <= i < |front| ==> front[i] == xs[i];
      match MapOrFail(f, front)
      case Failure(e) => Failure(e)
      case Success(ys) =>
        match f(xs[|xs| - 1])
        case Failure(e) => Failure(e)
        case Success(y) => Success(ys + [y])
  }

  /** Once a prefix of the input fails, the whole map fails with the same error. */
  lemma {:induction false} MapOrFailPrefixFails<A, B, E>(f: A -> Result<B, E>, xs: seq<A>, i: nat)
    requires i <= |xs|
    requires MapOrFail(f, xs[..i]).Failure?
    ensures MapOrFail(f, xs) == MapOrFail(f, xs[..i])
  {
    if i < |xs| {
      MapOrFailPrefixFails(f, xs[..|xs| - 1], i);
      assert xs[..|xs| - 1][..i] == xs[..i];
    } else {
      assert xs[..i] == xs;
    }
  }
}
