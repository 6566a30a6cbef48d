# Protocol IR registry, dependency walk and document sections

This project models the core of a compiler for network-protocol wire formats that are
extracted from standards documents. There are three parts.

- **The Protocol registry** (`protocol.py`). It holds three name-keyed maps:
  - types;
  - the closed set of standard traits;
  - functions.

  The registry type-checks JSON-shaped construction records before it registers them:
  - `define_bitstring`, `define_array`, `define_struct`, `define_enum`, `derive_type`, `define_function`;
  - the always-unimplemented `define_context` and `typecheck`.

  It also resolves the expressions used in structure constraints, actions and field
  transforms. These are `_parse_expression` and its helpers.
- **The dependency walk** (`parse-ietf-doc.py`). `dfs_protocol` walks the type graph from the
  protocol data units (PDUs) depth first and appends each type's name after its dependencies.
  It then removes duplicates, keeping the first occurrence, which gives the emission order.
- **Document sections** (`rfc2xml/elements/section.py`). This covers:
  - recursive rewriting of subsections (`traverse_sections`);
  - the section filter;
  - the attribute map;
  - the printed form.

Dafny modules:

| file | module | contents |
|---|---|---|
| `wrappers.dfy` | `Wrappers` | `Option`, `Result` |
| `ir.dfy` | `IR` | the IR datatypes, the standard traits, error kinds, input records, `MapOrFail` |
| `expressions.dfy` | `Expressions` | expression, transform, field, constraint and action resolution |
| `registry.dfy` | `ProtocolRegistry` | the `Protocol` class; one specification function per `define_*` operation; the registry invariant `RegistryValid` |
| `scenarios.dfy` | `ProtocolScenarios` | the registry's own unit tests, replayed as lemmas |
| `dfs.dfy` | `TypeDfs` | the walk as functions and as methods on a shared `TypeNames` list; deduplication; emission-order lemmas |
| `sections.dfy` | `Sections` | section trees, traversal, filter, attributes, printed form |

### How the model is built

**The registry.** `Protocol` is a class whose fields `types`, `traits` and `funcs` its methods
reassign. Each public method is proved equal to a ghost specification function of the old state:
`BitStringDefinition`, `ArrayDefinition`, `StructDefinition`, `EnumDefinition`, `Derivation`
and `FunctionDefinition`. An `…Outcome` lemma states what each of these functions yields, and
a `…KeepsValid` lemma proves that every registry it leaves satisfies the invariant.
`RegistryValid` says five things:
- the trait map's keys are exactly the seven standard trait names;
- every key names its entry;
- the primitives `Nothing`, `Boolean` and `Size` are present, as the constructor builds them;
- every type's traits are standard trait names;
- every name a registered entity mentions is itself registered.

**References and patterns.** The types refer to each other by name, not by object. The two
name patterns are parameters of the registry:
- `typeNameOk` is the type-name pattern;
- `funcNameOk` is the function- and field-name pattern.

**Failures.** A raised exception becomes an `Outcome` (`Ok` or `Fail(error)`), or a `Result`
in the helpers. The error kinds distinguish the code's failure messages.

**Expressions.** The expression language is modelled as pure functions. `TypeOf` is the
result type of a resolved expression. Method invocations take their return type from the
standard trait signatures.

**The walk.** The recursion in the walk has no cycle guard, so every walk function requires a
rank on the graph under which children rank below their parent. The walk is specified by ghost
functions (`Visit`, `VisitKind`, `Traversal`), and each walk method is proved equal to one of
them.

**Sections.** Section trees are values: `traverse_sections` and the child rewriting it performs
are functions on trees.

### Behaviour of the code that the model keeps

- The admission check of a type record (`protocol.py:101-107`) tests the construct tag, then
  whether the name is already registered, then the name pattern. A duplicate name with a
  malformed spelling therefore fails as a duplicate. This is `ValidateIrType`.
- `define_struct` registers the new structure before it reads fields, constraints and
  actions (`protocol.py:251-259`). A failure part way through leaves a partly built structure
  registered, without its traits (`StructFailureKeepsPartialStructure`).
- `derive_type` registers the copy of the base type before it adds the requested traits
  (`protocol.py:292-297`). An unknown trait leaves the copy registered with the traits added
  so far (`DerivationStopsAtUnknownTrait`).
- `dfs_enum` appends the enumeration's name after its variants and again in
  `dfs_protocoltype`. Its `parse_from` and `serialise_to` types are visited between the two
  appends, so after deduplication a conversion type may come before or after its enumeration:
  after it when the enumeration's walk reaches it first (`EnumExample`), before it when it was
  already listed (`ConversionTypeListedFirst`). The model's dependency order (`Prerequisites`)
  therefore counts only variants for an enumeration (`EnumNameAppendedTwice`).

## Model

| member | source | states |
|---|---|---|
| IR.FindMethod | protocol.py:53-86 | a signature found for `m` belongs to a standard trait the type implements; when none is found, no implemented trait has a method of that name |
| IR.MapOrFail | protocol.py:162-202 | reading a list succeeds exactly when every element does, giving the results in order; otherwise it fails with the error of the first failing element, all earlier ones having succeeded |
| IR.MapOrFailPrefixFails | protocol.py:162-202 | once a prefix of the list fails, the whole list fails with the same error (the loop stops at the first failure) |
| Expressions.ParseExpression | protocol.py:120-151 | resolving any expression outside a structure scope fails with a not-in-struct-scope error |
| Expressions.ParseArguments | protocol.py:109-118 | one resolved argument per argument record, in order; each keeps its record's name, and its type is the static type of its value expression, which must resolve |
| Expressions.ParseTransform | protocol.py:153-160 | a transform resolves exactly when it is absent, or its target type and its function are registered; the result carries those names |
| Expressions.ParseField | protocol.py:162-172 | a field fails on a malformed name first, then on an unregistered type; a resolved field keeps the record's name and type |
| Expressions.ParseFieldOutcome | protocol.py:162-172 | a field resolves exactly when its name is accepted, its type is registered and both its presence expression and its transform resolve; the field then holds those resolutions, and a failure of either is passed on unchanged |
| Expressions.ParseConstraint | protocol.py:174-181 | a resolved constraint has Boolean type; an expression that resolves to another type is rejected as a type mismatch |
| Expressions.ConstraintSteps | protocol.py:174-181 | a constraint fails with the error of its expression if that does not resolve, then with the error of its type if that does not resolve, and is the resolved expression when it types to Boolean |
| Expressions.ParseAction | protocol.py:183-190 | a resolved action has Nothing type; an expression of another type is rejected as a type mismatch |
| Expressions.ActionSteps | protocol.py:183-190 | an action fails with the error of its expression if that does not resolve, then with the error of its type if that does not resolve, and is the resolved expression when it types to Nothing |
| Expressions.ParsedExpressionIsResolved | protocol.py:120-151 | every type and function named by a resolved expression is registered |
| Expressions.ThisHasEnclosingType | protocol.py:144-145 | `This` inside a structure resolves to that structure and has its type |
| Expressions.ConstantHasDeclaredType | protocol.py:146-149 | a constant resolves exactly when its type is registered, and then has that type |
| Expressions.FieldAccessOnThisHasFieldType | protocol.py:132-135 | accessing a field of `this` resolves and has the field's declared type |
| Expressions.IfElseOfBooleansIsBoolean | protocol.py:139-143 | a conditional over resolvable Boolean parts resolves and is Boolean |
| Expressions.UnknownDiscriminatorFails | protocol.py:150-151 | an unrecognised expression tag is always rejected, as unsupported inside a structure scope |
| Expressions.MethodInvocationTypeFromTraits | protocol.py:123-127 | a method invocation types exactly when a standard trait the target's type implements declares that method, and then has the declared return type |
| ProtocolRegistry.ValidateIrType | protocol.py:101-107 | a record is admitted exactly when its tag matches, its name is new and the name matches the pattern; the failures are checked in the order tag, duplicate, pattern |
| ProtocolRegistry.ParsedFieldsAreResolved | protocol.py:162-172 | every field read from a record, and its transform, names only registered types and functions |
| ProtocolRegistry.ParsedExpressionsAreResolved | protocol.py:174-190 | every constraint and action read from a record names only registered types and functions |
| ProtocolRegistry.StructDefinitionOutcome | protocol.py:242-261 | a structure definition succeeds exactly when the record is admitted and every field, constraint and action resolves at its stage; a failed admission changes nothing; otherwise the error is that of the first failing stage |
| ProtocolRegistry.StructFieldsResolved | protocol.py:253-254 | the fields of a structure, read with the empty structure registered, name only registered types and functions |
| ProtocolRegistry.StructConstraintsResolved | protocol.py:255-256 | its constraints, read with the structure and its fields registered, name only registered types and functions |
| ProtocolRegistry.StructActionsResolved | protocol.py:257-258 | its actions, read with the structure, its fields and constraints registered, name only registered types and functions |
| ProtocolRegistry.DefinedStructShape | protocol.py:242-261 | a defined structure is new, keeps every earlier entry, has its fields in record order with their names and types, one constraint and one action per record entry, and exactly the traits Sized and Equality |
| ProtocolRegistry.DefinedStructExpressionsTyped | protocol.py:251-259 | each constraint of a defined structure types to Boolean and each action to Nothing, in the registry as it stood when it was read |
| ProtocolRegistry.StructRejectsMalformedFieldName | protocol.py:165-166 | any field whose name fails the field-name pattern makes the structure definition fail |
| ProtocolRegistry.StructFailureKeepsPartialStructure | protocol.py:251-259 | an admitted structure that fails later stays registered as a structure without traits, and every earlier entry is untouched |
| ProtocolRegistry.BitStringDefinitionOutcome | protocol.py:207-222 | a bit string definition succeeds exactly when admitted; it then adds one BitString with the given size and the traits Sized, Value and Equality, changing nothing else; a failure changes nothing |
| ProtocolRegistry.ArrayDefinitionOutcome | protocol.py:224-240 | an array definition succeeds exactly when admitted with a registered element type; the array's size is the element's size times the length, or none when the element has none; traits Sized, Equality, IndexCollection; a failure changes nothing |
| ProtocolRegistry.EnumDefinitionOutcome | protocol.py:263-276 | an enumeration succeeds exactly when admitted and every variant is registered; it keeps the variants in order and implements only Sized; otherwise it fails on the first unregistered variant and changes nothing |
| ProtocolRegistry.BitStringDefinitionKeepsValid | protocol.py:207-222 | defining a bit string preserves the registry invariant |
| ProtocolRegistry.ArrayDefinitionKeepsValid | protocol.py:224-240 | defining an array preserves the registry invariant |
| ProtocolRegistry.EnumDefinitionKeepsValid | protocol.py:263-276 | defining an enumeration preserves the registry invariant |
| ProtocolRegistry.StructDefinitionKeepsValid | protocol.py:242-261 | defining a structure preserves the registry invariant, including when it fails part way |
| ProtocolRegistry.AddTraitsMeaning | protocol.py:296-297 | adding traits succeeds exactly when every name is standard, and then yields the union; otherwise it fails on the first non-standard name, having added the ones before it |
| ProtocolRegistry.AddTraitsPrefixFails | protocol.py:296-297 | once a prefix of the trait list fails, later names are not added |
| ProtocolRegistry.DerivationOutcome | protocol.py:278-297 | a derivation succeeds exactly when admitted, the base is registered and every requested trait is standard; the new type has the base's shape and the base's traits plus the requested ones; every earlier entry, the base included, is unchanged; a record that is not admitted, or whose base is unregistered, fails with that error and changes nothing |
| ProtocolRegistry.DerivationStopsAtUnknownTrait | protocol.py:292-297 | an unknown requested trait fails the derivation at the first such name and leaves the copy registered with the traits added before it |
| ProtocolRegistry.DerivationKeepsValid | protocol.py:278-297 | every registry a derivation leaves, the partial one included, satisfies the invariant |
| ProtocolRegistry.PrimitiveRegistryValid | protocol.py:45-96 | the fresh registry of Nothing, Boolean and Size with the standard traits satisfies the invariant |
| ProtocolRegistry.FunctionDefinitionOutcome | protocol.py:299-317 | failures come in the order tag, duplicate, name pattern; success happens exactly when these checks pass and every parameter type and the return type are registered; it adds one function with the parameters in order and their types; a failure registers nothing |
| ProtocolRegistry.FunctionStopsAtUnknownParameter | protocol.py:198-202 | the first parameter with an unregistered type determines the error, and nothing is registered |
| ProtocolRegistry.FunctionDefinitionKeepsValid | protocol.py:299-317 | defining a function preserves the registry invariant |
| ProtocolRegistry.ParseFields | protocol.py:162-172 | the loop over field records computes the list reading of the field resolver |
| ProtocolRegistry.ParseConstraints | protocol.py:174-181 | the loop over constraint records computes the list reading of the constraint resolver |
| ProtocolRegistry.ParseActions | protocol.py:183-190 | the loop over action records computes the list reading of the action resolver |
| ProtocolRegistry.ParseVariants | protocol.py:192-196 | the loop over variant names resolves each against the registered types and stops at the first unknown one |
| ProtocolRegistry.ParseParameters | protocol.py:198-202 | the loop over parameter records resolves each type and stops at the first unknown one |
| ProtocolRegistry.Protocol.constructor | protocol.py:45-96 | a new registry holds exactly the primitive types, the seven standard traits and no functions, and satisfies the invariant |
| ProtocolRegistry.Protocol.ImplementTrait | protocol.py:88-94 | implementing a trait adds it to one type's trait set and changes nothing else |
| ProtocolRegistry.Protocol.ImplementBooleanTraits | protocol.py:88-90 | the constructor's three trait calls leave `Boolean` implementing exactly Value, Equality and BooleanOps, changing no other entry |
| ProtocolRegistry.Protocol.ImplementSizeTraits | protocol.py:91-94 | the constructor's four trait calls leave `Size` implementing exactly Value, Equality, Ordinal and ArithmeticOps, changing no other entry |
| ProtocolRegistry.Protocol.GetType | protocol.py:324-325 | the lookup succeeds exactly when the name is registered and returns its entry; otherwise an unknown-type error |
| ProtocolRegistry.Protocol.GetFunc | protocol.py:327-328 | the lookup succeeds exactly when the name is registered and returns its entry; otherwise an unknown-function error |
| ProtocolRegistry.Protocol.GetTrait | protocol.py:330-331 | the lookup succeeds exactly when the name is registered and returns its entry; otherwise an unknown-trait error |
| ProtocolRegistry.Protocol.DefineBitString | protocol.py:207-222 | result and new type map are those of `BitStringDefinition` on the old map; traits and functions unchanged; invariant kept |
| ProtocolRegistry.Protocol.DefineArray | protocol.py:224-240 | result and new type map are those of `ArrayDefinition` on the old map; traits and functions unchanged; invariant kept |
| ProtocolRegistry.Protocol.DefineStruct | protocol.py:242-261 | result and new type map are those of `StructDefinition` on the old map; traits and functions unchanged; invariant kept |
| ProtocolRegistry.Protocol.DefineEnum | protocol.py:263-276 | result and new type map are those of `EnumDefinition` on the old map; traits and functions unchanged; invariant kept |
| ProtocolRegistry.Protocol.DeriveType | protocol.py:278-297 | result and new type map are those of `Derivation` on the old map; traits and functions unchanged; invariant kept |
| ProtocolRegistry.Protocol.ImplementTraits | protocol.py:296-297 | the trait loop adds the requested traits in order to the new type only, stopping at the first unknown one |
| ProtocolRegistry.Protocol.DefineFunction | protocol.py:299-317 | result and new function map are those of `FunctionDefinition`; types and traits unchanged; invariant kept |
| ProtocolRegistry.Protocol.DefineContext | protocol.py:319-322 | always fails as unimplemented |
| ProtocolRegistry.Protocol.Typecheck | protocol.py:333-335 | always fails as unimplemented |
| ProtocolScenarios.BitStringScenario | protocol.py:346-362 | a 32-bit Timestamp is a BitString of size 32 implementing exactly Sized, Value and Equality |
| ProtocolScenarios.ArrayScenario | protocol.py:364-388 | four 32-bit elements make a 128-bit Array implementing exactly Sized, Equality and IndexCollection |
| ProtocolScenarios.StructScenarioSetup | protocol.py:391-416 | the three BitStrings and the function `transform_seq` of the structure test register as expected |
| ProtocolScenarios.TestStructFields | protocol.py:421-445 | both fields of `TestStruct`, one with a transform through `transform_seq`, resolve |
| ProtocolScenarios.SeqNumHasEq | protocol.py:65-68 | a SeqNum, implementing Equality, has the method `eq` returning Boolean |
| ProtocolScenarios.SeqIsFortySevenParses | protocol.py:446-468 | the constraint `this.seq.eq(other: 47)` resolves, its argument typed SeqNum |
| ProtocolScenarios.SeqIsFortySevenIsBoolean | protocol.py:446-468 | that constraint types to Boolean |
| ProtocolScenarios.TestStructConstraint | protocol.py:446-468 | the constraint list of `TestStruct` resolves to that one constraint |
| ProtocolScenarios.TestStructAdmitted | protocol.py:417-472 | `TestStruct` is defined |
| ProtocolScenarios.StructScenario | protocol.py:473-489 | `TestStruct` is a Struct with fields `seq: SeqNum` and `ts: Timestamp` in that order, implementing exactly Sized and Equality |
| ProtocolScenarios.EnumScenario | protocol.py:492-518 | an enumeration over two registered types keeps them in order and implements only Sized |
| ProtocolScenarios.DeriveScenario | protocol.py:520-542 | deriving with Ordinal gives a BitString of the base's size with four traits, and the base keeps its three |
| ProtocolScenarios.FunctionScenario | protocol.py:544-572 | a defined function keeps its parameters in order with their types and its return type |
| TypeDfs.VisitGrows | parse-ietf-doc.py:77-90 | visiting a type only appends to the list, and what it appends is the type or something it depends on |
| TypeDfs.VisitKindGrows | parse-ietf-doc.py:52-71 | each per-kind walk only appends dependencies of the visited type |
| TypeDfs.VisitEachGrows | parse-ietf-doc.py:52-54 | walking a list of children only appends dependencies of those children |
| TypeDfs.VisitFreshGrows | parse-ietf-doc.py:68-71 | a guarded visit of a parameter or return type only appends its dependencies |
| TypeDfs.VisitFreshEachGrows | parse-ietf-doc.py:67-69 | the guarded parameter loop only appends dependencies of the parameters |
| TypeDfs.VisitEachContains | parse-ietf-doc.py:52-54 | after walking a list of children, every child is listed |
| TypeDfs.VisitFreshEachContains | parse-ietf-doc.py:67-69 | after the guarded parameter loop, every parameter type is listed |
| TypeDfs.EnumKindContainsChildren | parse-ietf-doc.py:59-64 | after an enumeration's walk, its variants and conversion types are all listed |
| TypeDfs.KindContainsChildren | parse-ietf-doc.py:77-87 | after any per-kind walk, every child of the type is listed |
| TypeDfs.ChildrenBeforeParent | parse-ietf-doc.py:77-90 | a visit ends with the visited name, and everything it appended is in the graph |
| TypeDfs.EnumNameAppendedTwice | parse-ietf-doc.py:59-90 | an enumeration's name is appended once after its variants and again at the end of its visit |
| TypeDfs.FunctionWithListedTypes | parse-ietf-doc.py:66-71 | a function whose parameter and return types are all listed already adds only its own name |
| TypeDfs.AbsentAndLeafTypes | parse-ietf-doc.py:77-90 | visiting no type adds nothing; visiting a leaf type adds just its name |
| TypeDfs.VisitOrdered | parse-ietf-doc.py:77-90 | visiting a type keeps the list dependency-ordered: no structure, array, enumeration variant or function appears before a type it needs |
| TypeDfs.VisitKindOrdered | parse-ietf-doc.py:52-71 | each per-kind walk keeps the list dependency-ordered |
| TypeDfs.VisitEachOrdered | parse-ietf-doc.py:52-54 | walking a list of children keeps the list dependency-ordered |
| TypeDfs.VisitFreshOrdered | parse-ietf-doc.py:68-71 | a guarded visit keeps the list dependency-ordered |
| TypeDfs.VisitFreshEachOrdered | parse-ietf-doc.py:67-69 | the guarded parameter loop keeps the list dependency-ordered |
| TypeDfs.TraversalContainsPdus | parse-ietf-doc.py:92-96 | every PDU appears in the traversal |
| TypeDfs.TraversalOnlyDependencies | parse-ietf-doc.py:92-96 | everything in the traversal is a dependency of some PDU |
| TypeDfs.TraversalOrdered | parse-ietf-doc.py:92-96 | the traversal is dependency-ordered |
| TypeDfs.DedupeMembers | parse-ietf-doc.py:98-102 | deduplication keeps exactly the names of its input |
| TypeDfs.DedupeDistinct | parse-ietf-doc.py:98-102 | deduplication leaves no name twice |
| TypeDfs.DedupeOrder | parse-ietf-doc.py:98-102 | deduplicated names keep the order of their first occurrences |
| TypeDfs.DedupeOfDistinct | parse-ietf-doc.py:98-102 | a list without repeats is left as it is |
| TypeDfs.DedupeIdempotent | parse-ietf-doc.py:98-102 | deduplicating twice is the same as once |
| TypeDfs.DedupeOrdered | parse-ietf-doc.py:98-102 | deduplication preserves dependency order |
| TypeDfs.ProtocolOrder | parse-ietf-doc.py:92-104 | the emission order has no repeats, is dependency-ordered, contains every PDU, and holds only graph nodes that some PDU depends on |
| TypeDfs.TypeNames.constructor | parse-ietf-doc.py:93 | the shared list starts empty |
| TypeDfs.TypeNames.Append | parse-ietf-doc.py:90 | appending adds one name at the end |
| TypeDfs.DfsProtocolType | parse-ietf-doc.py:77-90 | the dispatch leaves the shared list as `Visit` of the old list |
| TypeDfs.DfsStruct | parse-ietf-doc.py:52-54 | the field loop leaves the list as the structure walk of the old list |
| TypeDfs.DfsArray | parse-ietf-doc.py:56-57 | the array walk visits the element type |
| TypeDfs.DfsEnum | parse-ietf-doc.py:59-64 | the enumeration walk visits the variants, appends the name, then visits the conversion types |
| TypeDfs.DfsVariants | parse-ietf-doc.py:60-61 | the variant loop leaves the list as the walk over every variant in order |
| TypeDfs.DfsFunction | parse-ietf-doc.py:66-71 | the function walk visits each parameter and the return type unless already listed |
| TypeDfs.DfsProtocol | parse-ietf-doc.py:92-104 | the result is the deduplicated traversal: distinct, dependency-ordered, containing every PDU, within the graph |
| TypeDfs.ChainExample | parse-ietf-doc.py:92-104 | on a chain A needs B needs C, the order is C, B, A |
| TypeDfs.EnumExample | parse-ietf-doc.py:59-90 | an enumeration E with variant V and conversion type P is walked as V, E, P, E |
| TypeDfs.EnumKindAfterConversionType | parse-ietf-doc.py:59-64 | with the conversion type P already listed, the enumeration's walk visits its variant, appends its name and visits P again |
| TypeDfs.ConversionTypeWalk | parse-ietf-doc.py:77-96 | with the PDUs P and E, the walk is P, V, E, P, E |
| TypeDfs.ConversionTypeListedFirst | parse-ietf-doc.py:92-104 | that walk deduplicates to P, V, E: a conversion type listed earlier stays before its enumeration |
| TypeDfs.EnumExampleDeduplicated | parse-ietf-doc.py:98-102 | that walk deduplicates to V, E, P |
| Sections.NewSection | rfc2xml/elements/section.py:19-22 | a new section has no children and exactly the attributes its title and number give |
| Sections.TraverseAllPointwise | rfc2xml/elements/section.py:10-17 | the rewritten child list has one entry per child, each the rewriting of that child |
| Sections.TraverseChildren | rfc2xml/elements/section.py:10-17 | non-section children are kept as they are; section children are rewritten and their own children traversed |
| Sections.TraverseIdentity | rfc2xml/elements/section.py:10-17 | a rewriting function that leaves every section alone leaves the whole tree alone |
| Sections.TraverseKeepsSectionCount | rfc2xml/elements/section.py:10-17 | traversal keeps the number of direct subsections |
| Sections.AnchorIsRewriter | rfc2xml/elements/section.py:10-17 | a rewriting function that adds non-section children to each section is fit for the walk |
| Sections.TraverseSections | rfc2xml/elements/section.py:10-17 | the loop returns the rewritten children, one per child |
| Sections.SectionsOfMembers | rfc2xml/elements/section.py:24-29 | the filter keeps exactly the children that are sections |
| Sections.SectionsOfAppend | rfc2xml/elements/section.py:24-29 | filtering a concatenation concatenates the filtered parts |
| Sections.SectionsOfExtremes | rfc2xml/elements/section.py:24-29 | children that are all sections are kept whole; children with no section give nothing |
| Sections.GetSections | rfc2xml/elements/section.py:24-29 | the loop returns exactly the section children, in order |
| Sections.AttributesMeaning | rfc2xml/elements/section.py:31-37 | the attribute map has a title or number key exactly when that value is present, maps it to the value, and has no other key |
| Sections.GetAttributes | rfc2xml/elements/section.py:31-37 | returns the section's attribute map, with a key exactly for each value that is present |
| Sections.SectionStringSplits | rfc2xml/elements/section.py:39-40 | when the number has no dot, the text before the first dot of the printed form is the number |
| Sections.NewSectionString | rfc2xml/elements/section.py:39-40 | a section prints as number, dot, space, title; missing values print as `None` |

## Left out

- `main` and `parse_input_file` (`parse-ietf-doc.py`): file I/O, JSON loading and backend dispatch.
- The test loader and the `tests-npt2` fixtures: not part of this model.
- The internals of the `protocoltypes` classes: `add_field`, `add_constraint`, the trait method lists and the `implement_trait` checks. The model treats them as plain record updates, and `implement_trait` as insertion into a set of trait names.
- The concrete name patterns (`TYPE_NAME_REGEX`, `FUNC_NAME_REGEX`): regular expressions are outside the model, so the patterns are predicate parameters.
- The `Element` base class of `section.py`: its children list is a field of the `Section` value.
- `dfs_context`: it calls `dfs_protocoltype` with one argument and would fail at run time; contexts are not nodes of the modelled graph.
- Argument values of function invocations: the code records only the arguments' types, and so does the model.
- Cyclic type graphs: the walk does not terminate on them. Every walk member requires a rank that makes the graph acyclic.
- Object identity and aliasing: the code assigns `child.children` in place and may share objects. The model computes new trees and refers to types by name.
- `Expressions.ParseArguments`: modelled as a function inside the expression recursion rather than as a separate loop method.
- `protocol.get_pdu_names` and `get_pdu`: the PDUs are given as a list of names in the graph.
- Expressions.ParseExpression: its own contract states only the scope check. The behaviour of each expression form is stated by the lemmas after it (`ThisHasEnclosingType` to `MethodInvocationTypeFromTraits`, `ParsedExpressionIsResolved`).
- Sections.TraverseSections: the rewriting function must return a section with no more sections below it than it was given (`Rewriter`). A function that keeps adding subsections makes the code recurse without end, and the model excludes it; functions that add other children are allowed (`AnchorIsRewriter`). The restriction is stronger than termination needs: it also excludes functions that end in the code, such as one that adds a subsection only when `args` is not None, since the recursive call passes no `args`.
- `Expressions.TypeOf` of a context access: the type of `ContextAccessExpression` is not part of this model, so it is taken to fail as unimplemented; any constraint, action or argument that reads the context therefore fails in the model.
- `ProtocolRegistry.Protocol.Valid`: it constrains only the trait map's keys. The methods keep the trait map unchanged rather than re-proving that it equals the standard traits.
- `ProtocolRegistry.Protocol.DefineContext` and `ProtocolRegistry.Protocol.Typecheck`: the code raises for every input, so only the failure is modelled.
