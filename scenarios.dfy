/**
 * The registry's unit tests (protocol.py:346-572) replayed on the definitions that specify the
 * `Protocol` methods, starting from the primitives a fresh registry holds. The name patterns
 * are stood in for by "starts with an upper-case letter" (types) and "starts with a lower-case
 * letter" (functions and fields).
 */
module ProtocolScenarios {
  import opened Wrappers
  import opened IR
  import opened Expressions
  import opened ProtocolRegistry

  predicate UpperInitial(s: string)
  {
    |s| > 0 && 'A' <= s[0] <= 'Z'
  }

  predicate LowerInitial(s: string)
  {
    |s| > 0 && 'a' <= s[0] <= 'z'
  }

  /** A 32-bit "Timestamp" is a BitString of size 32 implementing exactly Sized, Value and Equality. */
  lemma BitStringScenario()
    ensures var (r, types) := BitStringDefinition(PrimitiveTypes, UpperInitial, BitStringRecord("BitString", "Timestamp", 32));
      && r == Ok && "Timestamp" in types
      && types["Timestamp"].name == "Timestamp" && Kind(types["Timestamp"]) == "BitString"
      && SizeOf(types["Timestamp"]) == Some(32)
      && types["Timestamp"].traits == {"Equality", "Sized", "Value"}
  {
    BitStringDefinitionOutcome(PrimitiveTypes, UpperInitial, BitStringRecord("BitString", "Timestamp", 32));
  }

  /** Four 32-bit "SSRC" elements make a 128-bit array implementing Equality, IndexCollection and Sized. */
  lemma ArrayScenario()
    ensures var (r1, types1) := BitStringDefinition(PrimitiveTypes, UpperInitial, BitStringRecord("BitString", "SSRC", 32));
      var (r2, types2) := ArrayDefinition(types1, UpperInitial, ArrayRecord("Array", "CSRCList", "SSRC", 4));
      && r1 == Ok && r2 == Ok && "CSRCList" in types2
      && types2["CSRCList"].name == "CSRCList" && Kind(types2["CSRCList"]) == "Array"
      && types2["CSRCList"].shape.elementType == "SSRC" && types2["CSRCList"].shape.length == 4
      && SizeOf(types2["CSRCList"]) == Some(128)
      && types2["CSRCList"].traits == {"Equality", "IndexCollection", "Sized"}
  {
    var element := BitStringRecord("BitString", "SSRC", 32);
    BitStringDefinitionOutcome(PrimitiveTypes, UpperInitial, element);
    var types1 := BitStringDefinition(PrimitiveTypes, UpperInitial, element).1;
    assert "CSRCList" !in types1;
    ArrayDefinitionOutcome(types1, UpperInitial, ArrayRecord("Array", "CSRCList", "SSRC", 4));
  }

  /** An enumeration over two registered types keeps them in order and implements only Sized. */
  lemma EnumScenario()
    ensures var (ra, typesA) := BitStringDefinition(PrimitiveTypes, UpperInitial, BitStringRecord("BitString", "TypeA", 32));
      var (rb, typesB) := BitStringDefinition(typesA, UpperInitial, BitStringRecord("BitString", "TypeB", 32));
      var (r, types) := EnumDefinition(typesB, UpperInitial, EnumRecord("Enum", "TestEnum", ["TypeA", "TypeB"]));
      && ra == Ok && rb == Ok && r == Ok && "TestEnum" in types
      && types["TestEnum"].shape == EnumShape(["TypeA", "TypeB"])
      && types["TestEnum"].traits == {"Sized"}
  {
    var a := BitStringRecord("BitString", "TypeA", 32);
    BitStringDefinitionOutcome(PrimitiveTypes, UpperInitial, a);
    var typesA := BitStringDefinition(PrimitiveTypes, UpperInitial, a).1;
    var b := BitStringRecord("BitString", "TypeB", 32);
    assert "TypeB" !in typesA;
    BitStringDefinitionOutcome(typesA, UpperInitial, b);
    var typesB := BitStringDefinition(typesA, UpperInitial, b).1;
    assert "TestEnum" !in typesB;
    assert "TypeA" in typesB && "TypeB" in typesB;
    EnumDefinitionOutcome(typesB, UpperInitial, EnumRecord("Enum", "TestEnum", ["TypeA", "TypeB"]));
  }

  /** Deriving "SeqNum" from a 16-bit BitString with Ordinal gives a BitString with four traits; the base keeps three. */
  lemma DeriveScenario()
    ensures var (r1, types1) := BitStringDefinition(PrimitiveTypes, UpperInitial, BitStringRecord("BitString", "Bits16", 16));
      var (r2, types2) := Derivation(types1, UpperInitial, NewTypeRecord("NewType", "SeqNum", "Bits16", ["Ordinal"]));
      && r1 == Ok && r2 == Ok && "SeqNum" in types2 && "Bits16" in types2
      && types2["SeqNum"].name == "SeqNum" && Kind(types2["SeqNum"]) == "BitString"
      && SizeOf(types2["SeqNum"]) == Some(16)
      && types2["SeqNum"].traits == {"Equality", "Sized", "Value", "Ordinal"}
      && types2["Bits16"].traits == {"Equality", "Sized", "Value"}
  {
    var bits := BitStringRecord("BitString", "Bits16", 16);
    BitStringDefinitionOutcome(PrimitiveTypes, UpperInitial, bits);
    var types1 := BitStringDefinition(PrimitiveTypes, UpperInitial, bits).1;
    assert "SeqNum" !in types1;
    var rec := NewTypeRecord("NewType", "SeqNum", "Bits16", ["Ordinal"]);
    DerivationOutcome(types1, UpperInitial, rec);
    assert (set t | t in rec.implements) == {"Ordinal"};
  }

  /** A function over a BitString and a Boolean keeps its parameters in order with their resolved types. */
  lemma FunctionScenario()
    ensures var (r1, types) := BitStringDefinition(PrimitiveTypes, UpperInitial, BitStringRecord("BitString", "Bits16", 16));
      var rec := FunctionRecord("Function", "testFunction",
                                [ParameterRecord("foo", "Bits16"), ParameterRecord("bar", "Boolean")], "Boolean");
      var (r2, funcs) := FunctionDefinition(types, map[], LowerInitial, rec);
      && r1 == Ok && r2 == Ok && "testFunction" in funcs
      && funcs["testFunction"] == Function("testFunction", [Parameter("foo", Some("Bits16")), Parameter("bar", Some("Boolean"))],
                                           Some("Boolean"))
  {
    var bits := BitStringRecord("BitString", "Bits16", 16);
    BitStringDefinitionOutcome(PrimitiveTypes, UpperInitial, bits);
    var types := BitStringDefinition(PrimitiveTypes, UpperInitial, bits).1;
    assert "Bits16" in types && "Boolean" in types;
    var rec := FunctionRecord("Function", "testFunction",
                              [ParameterRecord("foo", "Bits16"), ParameterRecord("bar", "Boolean")], "Boolean");
    FunctionDefinitionOutcome(types, map[], LowerInitial, rec);
  }

  // The structure of test_define_struct and the registry it is defined in

  const SeqNumBits := Type("SeqNum", BitStringShape(16), {"Sized", "Value", "Equality"})

  /** The types registered before "TestStruct": the primitives and three BitStrings. */
  const StructScenarioTypes: map<string, Type> :=
    PrimitiveTypes["SeqNumTrans" := Type("SeqNumTrans", BitStringShape(16), {"Sized", "Value", "Equality"})]
                  ["SeqNum" := SeqNumBits]
                  ["Timestamp" := Type("Timestamp", BitStringShape(32), {"Sized", "Value", "Equality"})]

  const TransformSeq := Function("transform_seq", [Parameter("seq", Some("SeqNum"))], Some("SeqNumTrans"))

  const TestStructRecord :=
    StructRecord("Struct", "TestStruct",
                 [FieldRecord("seq", "SeqNum", ConstantRecord("Boolean", "True"),
                              Some(TransformRecord("ext_seq", "SeqNumTrans", "transform_seq"))),
                  FieldRecord("ts", "Timestamp", ConstantRecord("Boolean", "True"), None)],
                 [MethodInvocationRecord(FieldAccessRecord(ThisRecord, "seq"), "eq",
                                         [ArgumentRecord("other", ConstantRecord("SeqNum", "47"))])],
                 [])

  const SeqField := Field("seq", "SeqNum", Constant("Boolean", "True"),
                          Some(Transform("ext_seq", "SeqNumTrans", TransformSeq)))
  const TsField := Field("ts", "Timestamp", Constant("Boolean", "True"), None)
  const SeqIsFortySeven :=
    MethodInvocation(FieldAccess(This("TestStruct"), "seq"), "eq", [Argument("other", Some("SeqNum"))])

  /** Three BitStrings and the function `transform_seq` register as expected. */
  lemma StructScenarioSetup()
    ensures var (r1, t1) := BitStringDefinition(PrimitiveTypes, UpperInitial, BitStringRecord("BitString", "SeqNumTrans", 16));
      var (r2, t2) := BitStringDefinition(t1, UpperInitial, BitStringRecord("BitString", "SeqNum", 16));
      var (r3, t3) := BitStringDefinition(t2, UpperInitial, BitStringRecord("BitString", "Timestamp", 32));
      var (r4, funcs) := FunctionDefinition(t3, map[], LowerInitial,
                                            FunctionRecord("Function", "transform_seq", [ParameterRecord("seq", "SeqNum")], "SeqNumTrans"));
      && r1 == Ok && r2 == Ok && r3 == Ok && r4 == Ok
      && t3 == StructScenarioTypes && funcs == map["transform_seq" := TransformSeq]
  {
    var rec := FunctionRecord("Function", "transform_seq", [ParameterRecord("seq", "SeqNum")], "SeqNumTrans");
    FunctionDefinitionOutcome(StructScenarioTypes, map[], LowerInitial, rec);
    var funcs := FunctionDefinition(StructScenarioTypes, map[], LowerInitial, rec).1;
    assert funcs["transform_seq"].parameters == [Parameter("seq", Some("SeqNum"))];
  }

  /** Both fields read with the empty "TestStruct" registered. */
  lemma TestStructFields()
    ensures StructFields(StructScenarioTypes, map["transform_seq" := TransformSeq], LowerInitial, TestStructRecord)
            == Success([SeqField, TsField])
  {
    var s0 := Building("TestStruct", [], []);
    var parser := FieldParser(StructScenarioTypes["TestStruct" := s0], map["transform_seq" := TransformSeq], LowerInitial, s0);
    assert parser(TestStructRecord.fields[0]) == Success(SeqField);
    assert parser(TestStructRecord.fields[1]) == Success(TsField);
    var fs := MapOrFail(parser, TestStructRecord.fields);
    assert |fs.value| == 2 && fs.value[0] == SeqField && fs.value[1] == TsField;
    assert fs.value == [SeqField, TsField];
  }

  /** The registry while the constraint is read: "TestStruct" with its two fields. */
  const ConstraintScope := Building("TestStruct", [SeqField, TsField], [])

  /** A SeqNum, implementing Equality, has the method `eq` returning Boolean. */
  lemma SeqNumHasEq()
    ensures FindMethod(TraitOrder, SeqNumBits.traits, "eq") == Some(Comparison("eq"))
  {
    assert MethodIn(StandardTraits["Value"].methods, "eq") == None;
    assert MethodIn(StandardTraits["Sized"].methods, "eq") == None;
    assert MethodIn(StandardTraits["Equality"].methods, "eq") == Some(Comparison("eq"));
    assert TraitOrder[3..][0] == "Equality";
  }

  /** `this.seq.eq(other: 47)` reads to `SeqIsFortySeven`. */
  lemma SeqIsFortySevenParses()
    ensures ParseExpression(StructScenarioTypes["TestStruct" := ConstraintScope], map["transform_seq" := TransformSeq],
                            ConstraintScope, TestStructRecord.constraints[0]) == Success(SeqIsFortySeven)
  {
    var types1 := StructScenarioTypes["TestStruct" := ConstraintScope];
    var funcs := map["transform_seq" := TransformSeq];
    var args := [ArgumentRecord("other", ConstantRecord("SeqNum", "47"))];
    assert ParseExpression(types1, funcs, ConstraintScope, args[0].value) == Success(Constant("SeqNum", "47"));
    assert args[1..] == [];
    assert ParseArguments(types1, funcs, ConstraintScope, []) == Success([]);
    assert TypeOf(types1, Constant("SeqNum", "47")) == Success(Some("SeqNum"));
    var parsed := ParseArguments(types1, funcs, ConstraintScope, args);
    assert parsed.Success?;
    assert |parsed.value| == 1 && parsed.value[0] == Argument("other", Some("SeqNum"));
    assert parsed.value == [Argument("other", Some("SeqNum"))];
  }

  /** `SeqIsFortySeven` types to Boolean: `this.seq` is a SeqNum and its `eq` returns Boolean. */
  lemma SeqIsFortySevenIsBoolean()
    ensures TypeOf(StructScenarioTypes["TestStruct" := ConstraintScope], SeqIsFortySeven) == Success(Some("Boolean"))
  {
    var types1 := StructScenarioTypes["TestStruct" := ConstraintScope];
    assert FieldTypeOf(ConstraintScope, "seq") == Some("SeqNum");
    assert TypeOf(types1, FieldAccess(This("TestStruct"), "seq")) == Success(Some("SeqNum"));
    SeqNumHasEq();
  }

  /** The constraint `this.seq.eq(other: 47)` reads, and types to Boolean through the Equality trait. */
  lemma TestStructConstraint()
    ensures StructConstraints(StructScenarioTypes, map["transform_seq" := TransformSeq], TestStructRecord,
                              [SeqField, TsField]) == Success([SeqIsFortySeven])
  {
    var parser := ConstraintParser(StructScenarioTypes["TestStruct" := ConstraintScope], map["transform_seq" := TransformSeq],
                                   ConstraintScope);
    SeqIsFortySevenParses();
    SeqIsFortySevenIsBoolean();
    assert parser(TestStructRecord.constraints[0]) == Success(SeqIsFortySeven);
    var cs := MapOrFail(parser, TestStructRecord.constraints);
    assert |cs.value| == 1 && cs.value[0] == SeqIsFortySeven;
    assert cs.value == [SeqIsFortySeven];
  }

  /** With its fields and its constraint read and no actions, "TestStruct" is defined. */
  lemma TestStructAdmitted()
    ensures StructDefinition(StructScenarioTypes, map["transform_seq" := TransformSeq], UpperInitial, LowerInitial,
                             TestStructRecord).0 == Ok
  {
    TestStructFields();
    TestStructConstraint();
    assert StructActions(StructScenarioTypes, map["transform_seq" := TransformSeq], TestStructRecord,
                         [SeqField, TsField], [SeqIsFortySeven]).Success?;
  }

  /**
   * test_define_struct: in the registry `StructScenarioSetup` builds, "TestStruct" is a Struct whose
   * fields are `seq: SeqNum` and `ts: Timestamp`, in that order, and which implements exactly Sized
   * and Equality.
   */
  lemma StructScenario()
    ensures var (r, types) := StructDefinition(StructScenarioTypes, map["transform_seq" := TransformSeq],
                                               UpperInitial, LowerInitial, TestStructRecord);
      && r == Ok && "TestStruct" in types
      && types["TestStruct"].name == "TestStruct" && Kind(types["TestStruct"]) == "Struct"
      && |types["TestStruct"].shape.fields| == 2
      && types["TestStruct"].shape.fields[0].name == "seq" && types["TestStruct"].shape.fields[0].fieldType == "SeqNum"
      && types["TestStruct"].shape.fields[1].name == "ts" && types["TestStruct"].shape.fields[1].fieldType == "Timestamp"
      && types["TestStruct"].traits == {"Sized", "Equality"}
  {
    TestStructAdmitted();
    DefinedStructShape(StructScenarioTypes, map["transform_seq" := TransformSeq], UpperInitial, LowerInitial, TestStructRecord);
  }
}
