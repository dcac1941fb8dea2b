# swagger-scanner core, modelled in Dafny

swagger-scanner lets a Swagger page invoke Spring bean methods that are not HTTP endpoints.
For each exposed method the library does several things:
- it synthesises a carrier class whose properties are the method's parameters;
- it discovers the field types reachable from the parameter and return types, so it can publish models;
- it keeps a registry of exposed methods, their descriptions and the tags;
- it decodes requests back into argument arrays.

This project models that core. The models work over an explicit class table and abstract JSON
values, and the properties are proved about those models.

The modules follow the Java files:

- `JavaTypes` (`java_types.dfy`) holds the pieces reflection would otherwise supply:
  - the grammar of `java.lang.reflect.Type`: `Class | Param(raw, owner, args) | TypeVar(name, decl) | Wildcard(lower, upper) | GenericArray(comp)`;
  - runtime classes, with array classes;
  - the class table `ClassTable`. Each entry holds the generic superclass, type-parameter names, modifiers, declared fields, bean properties and a depth in the superclass chain, and the table also carries `isAssignableFrom`;
  - the Java exceptions the code can end in, as an `Error` datatype.
- `IntSets` (`int_sets.dfy`) provides:
  - the maximum of a set of integers;
  - the ascending key order of a `TreeMap`;
  - `Integer.toString` of a natural number.
- `JsonTrees` (`json_trees.dfy`) models a Gson `JsonElement` tree as a value.
- `ReflectUtils` (`reflect_utils.dfy`) models `SwaggerReflectUtils`:
  - the binding map built along the superclass chain;
  - the actual type of a type variable, a wildcard and a type;
  - the field lookup up the hierarchy;
  - the flattening of a type into classes;
  - the pass that replaces top-level JSON nulls.
- `ExampleClassBuilder` (`example_class_builder.dfy`) models `SwaggerExampleClassBuilder`:
  - the pre-order walk `processParameterTypes`, with its shared `AtomicInteger` counter; it yields an id-tagged node table;
  - the group-by-parent assembly `preparedGenericBeforeBuildClass` / `buildGeneric`, largest group first, which removes the groups it consumes;
  - `buildClass`, which yields an ordered list of (name, type description) properties;
  - the two `build` overloads.
- `ExampleClassTypes` (`example_class_types.dfy`) says on the parameter types themselves what the example class builder makes of them:
  - the class or parameterized type each type resolves to;
  - how many counter ids the walk draws for it;
  - the type description its property gets.

  Its lemmas tie these to the walk, the assembly and `buildClass`.
- `FieldTypesDiscover` (`field_types_discover.dfy`) models `FieldTypesDiscover`:
  - a `Discoverer` object whose `types` set and shared binding map grow during one pass;
  - `discover`, `FieldTypeProcessor.process`, the Collection and Map `doProcess` overrides, and `resolve` with its loop over the property descriptors.
- `ApiRegistry` (`api_registry.dfy`) models `SimpleSwaggerApiRegistry`. It is a class with the registry's lists, maps and tag set, plus the overload-numbering of `allocateMethodName`.
- `ApiDescHelper` (`api_desc_helper.dfy`) models `SwaggerApiDescHelper`: the parameter and return descriptions, with `<` and `>` escaped.
- `ScannerInvoker` (`scanner_invoker.dfy`) models `SwaggerScannerInvoker.invoke`. It covers the registry lookup, the loop that fills the argument array from the carrier object's entries, and the wrapping of reflective failures.

Operations the Java code performs by mutation are Dafny methods. Each method is proved against a
specification function, and the source's promises are lemmas about those functions. Those
operations are:
- the walk with its counter;
- the assembly loop that empties the grouping map;
- the discovery pass;
- the registry setters;
- the argument loop.

Foreign code is a parameter:
- Gson's decoding and encoding;
- the reflective call;
- `Type.getTypeName`;
- the platform line separator.

Recursion over type expressions carries a `fuel` bound. It stands for the call depth the JVM
allows, and running out is `StackOverflowError`. A type variable bound to itself through two
generic classes really does recurse without end in the code.

The walk of the example class builder draws an id for every type it visits, before it looks at
the type's form (SwaggerExampleClassBuilder.java:363), so a type variable, a wildcard or a generic
array takes an id of its own and no node.

## Model

| member | source | states |
|---|---|---|
| `JavaTypes.Innermost` | src/main/java/com/valsong/swagger/util/SwaggerReflectUtils.java:253-260 | stripping array classes ends at a named, non-array class |
| `IntSets.HasMaximum` | src/main/java/com/valsong/swagger/util/SwaggerExampleClassBuilder.java:190-193 | every nonempty finite set of group ids has a largest element, so the loop's `max` is defined |
| `IntSets.Max` | src/main/java/com/valsong/swagger/util/SwaggerExampleClassBuilder.java:190-193 | the value is in the set and no element exceeds it |
| `IntSets.SortedKeys` | src/main/java/com/valsong/swagger/util/SwaggerExampleClassBuilder.java:287-297 | a `TreeMap`'s key order: strictly increasing, same elements, same count |
| `IntSets.IncreasingUnique` | src/main/java/com/valsong/swagger/util/SwaggerExampleClassBuilder.java:153-159 | an increasing sequence is determined by its elements, so `TreeMap` iteration order is unique |
| `IntSets.NatToString` | src/main/java/com/valsong/swagger/util/SwaggerExampleClassBuilder.java:128-132 | `Integer.toString` of a natural number is a nonempty string of decimal digits |
| `IntSets.Digit` | src/main/java/com/valsong/swagger/util/SwaggerExampleClassBuilder.java:128-132 | a digit below ten is a decimal digit character |
| `IntSets.DecimalRoundTrip` | src/main/java/com/valsong/swagger/util/SwaggerExampleClassBuilder.java:128-132 | reading back the decimal string of `n` gives `n` |
| `IntSets.NatToStringInjective` | src/main/java/com/valsong/swagger/support/SimpleSwaggerApiRegistry.java:70-72 | distinct numbers have distinct decimal strings |
| `JsonTrees.EmptyIfNull` | src/main/java/com/valsong/swagger/util/SwaggerReflectUtils.java:99-107 | a JSON null becomes a non-null value (the empty object), and a non-null value is unchanged |
| `ReflectUtils.GetGenericTypeMap` | src/main/java/com/valsong/swagger/util/SwaggerReflectUtils.java:57-87 | the `while(true)` walk up the generic superclasses computes `GenericTypeMapOf` |
| `ReflectUtils.UpdateThenUnion` | src/main/java/com/valsong/swagger/util/SwaggerReflectUtils.java:82-84 | a `put` followed by the rest of the walk is the same as a union with the rest |
| `ReflectUtils.SuperclassBindingsShape` | src/main/java/com/valsong/swagger/util/SwaggerReflectUtils.java:71-86 | the superclass walk: (1) keys each expression by the class it names; (2) never keys `Object`; (3) maps each superclass reached to the expression it was reached by, closed upward; (4) holds nothing else |
| `ReflectUtils.GenericTypeMapShape` | src/main/java/com/valsong/swagger/util/SwaggerReflectUtils.java:57-87 | a parameterized input maps its raw class to itself; a plain class is not a key; every superclass below `Object` maps to the generic superclass expression by which it is reached; nothing else is a key |
| `ReflectUtils.FirstIndexOf` | src/main/java/com/valsong/swagger/util/SwaggerReflectUtils.java:134-141 | the first position holding the name, or none when no position holds it |
| `ReflectUtils.GetActualTypeByTypeVariable` | src/main/java/com/valsong/swagger/util/SwaggerReflectUtils.java:122-150 | the search loop computes `TypeVariableBinding`: a class-declared variable takes the argument at its position (an unmatched name takes position 0) when the map holds a parameterized type for the declaring class; otherwise `Object`; a method-declared variable is a `ClassCastException`, and a missing argument an index failure |
| `ReflectUtils.SubclassFixesTypeArgument` | src/main/java/com/valsong/swagger/util/SwaggerReflectUtils.java:122-150 | the i-th type parameter of a class resolves, from a subclass that extends it with arguments, to the i-th argument |
| `ReflectUtils.WildcardBound` | src/main/java/com/valsong/swagger/util/SwaggerReflectUtils.java:158-170 | the only lower bound, else the only upper bound, else `Object` |
| `ReflectUtils.ActualType` | src/main/java/com/valsong/swagger/util/SwaggerReflectUtils.java:179-204 | a class array gives its component, any other class itself; a parameterized type gives its raw class; a generic array gives the array class of its resolved component |
| `ReflectUtils.FirstFieldNamed` | src/main/java/com/valsong/swagger/util/SwaggerReflectUtils.java:214-219 | the first declared field with the name, or none when no field has it |
| `ReflectUtils.FindDeclaredField` | src/main/java/com/valsong/swagger/util/SwaggerReflectUtils.java:213-225 | a field it finds has the requested name |
| `ReflectUtils.SearchClasses` | src/main/java/com/valsong/swagger/util/SwaggerReflectUtils.java:213-225 | linear search over a class list: none exactly when no class declares the name; otherwise the first same-named field of the first class that declares one |
| `ReflectUtils.LineageAvoidsObject` | src/main/java/com/valsong/swagger/util/SwaggerReflectUtils.java:220-223 | the searched classes start at the class itself and never include `Object` after it |
| `ReflectUtils.FindDeclaredFieldSearchesLineage` | src/main/java/com/valsong/swagger/util/SwaggerReflectUtils.java:213-225 | the lookup is the search down the class and its superclasses, stopping before `Object`; a miss is null when the walk reaches `Object`, and a `NullPointerException` past a class with no superclass |
| `ReflectUtils.FindAllTypes` | src/main/java/com/valsong/swagger/util/SwaggerReflectUtils.java:234-263 | the flattening is nonempty, holds only non-array classes, and starts with the raw class of a parameterized type; what follows the raw class is stated by `FindAllTypesOfParam` |
| `ReflectUtils.FindAllTypesOfAll` | src/main/java/com/valsong/swagger/util/SwaggerReflectUtils.java:239-242 | the arguments flatten to non-array classes, at least one per argument; their order is stated by `FindAllTypesOfAllAppend` |
| `ReflectUtils.FindAllTypesOfAllAppend` | src/main/java/com/valsong/swagger/util/SwaggerReflectUtils.java:239-242 | flattening two argument lists one after the other is flattening the first, then the second, concatenated, and fails with the first failure |
| `ReflectUtils.FindAllTypesOfOne` | src/main/java/com/valsong/swagger/util/SwaggerReflectUtils.java:239-242 | a one-argument list flattens as its argument does |
| `ReflectUtils.FindAllTypesOfParam` | src/main/java/com/valsong/swagger/util/SwaggerReflectUtils.java:236-242 | a parameterized type flattens to its raw class, then the flattening of its other arguments in order, then that of its last argument; any failure on the way is the result |
| `ReflectUtils.FlattenClass` | src/main/java/com/valsong/swagger/util/SwaggerReflectUtils.java:253-260 | a class flattens to its innermost component alone |
| `ReflectUtils.ActualTypeHeadsFlattening` | src/main/java/com/valsong/swagger/util/SwaggerReflectUtils.java:179-263 | the first class of the flattening is the innermost component of the actual type |
| `ReflectUtils.ConvertToJsonElementWithoutNull` | src/main/java/com/valsong/swagger/util/SwaggerReflectUtils.java:95-112 | each top-level null member of an object, or null element of an array, becomes an empty object; keys, order, length and non-null values are unchanged; nested nulls and non-container values are untouched |
| `ExampleClassBuilder.AtomicInteger.constructor` | src/main/java/com/valsong/swagger/util/SwaggerExampleClassBuilder.java:355-357 | the counter starts at the given value |
| `ExampleClassBuilder.AtomicInteger.IncrementAndGet` | src/main/java/com/valsong/swagger/util/SwaggerExampleClassBuilder.java:363 | the counter grows by one and the new value is returned |
| `ExampleClassBuilder.PlainProperties` | src/main/java/com/valsong/swagger/util/SwaggerExampleClassBuilder.java:83-85 | one `TypeProperty` per type, in order, none under an array |
| `ExampleClassBuilder.TypeProperties` | src/main/java/com/valsong/swagger/util/SwaggerExampleClassBuilder.java:81-85 | the loop fills a fresh array with `PlainProperties` of the types |
| `ExampleClassBuilder.ProcessParameterTypes` | src/main/java/com/valsong/swagger/util/SwaggerExampleClassBuilder.java:349-449 | the recursive walk with the shared counter returns the node table of `LinearizedAll` and leaves the counter at its last drawn id, or returns its failure |
| `ExampleClassBuilder.ProcessTypeProperty` | src/main/java/com/valsong/swagger/util/SwaggerExampleClassBuilder.java:362-447 | one loop turn agrees with `Linearized`: the same nodes and counter, or the same failure |
| `ExampleClassBuilder.LinearizedAllStep` | src/main/java/com/valsong/swagger/util/SwaggerExampleClassBuilder.java:362-447 | one loop turn extends the nodes so far by the walk of the next property, with the counter running on |
| `ExampleClassBuilder.LinearizedShape` | src/main/java/com/valsong/swagger/util/SwaggerExampleClassBuilder.java:355-446 | a successful walk of one property draws at least one id and records exactly one node id for it, directly inside the enclosing generic; every node sits under its own id in the drawn range, and a child has a larger id than its parent; the first id holds a node exactly when the type is a class or parameterized type, and that node carries the class, owner, privacy and array flag and has children exactly when there are type arguments; an array property or a generic array marks the node as an array |
| `ExampleClassBuilder.ClassShape` | src/main/java/com/valsong/swagger/util/SwaggerExampleClassBuilder.java:369-383 | a class yields one childless node under the drawn id |
| `ExampleClassBuilder.ParamShape` | src/main/java/com/valsong/swagger/util/SwaggerExampleClassBuilder.java:385-411 | a parameterized type stores its node before its arguments, and the arguments are tagged with that node's id |
| `ExampleClassBuilder.ResolvedCaseShape` | src/main/java/com/valsong/swagger/util/SwaggerExampleClassBuilder.java:414-444 | type variables, wildcards and generic arrays store no node under their own id and walk their resolved type from the same enclosing generic |
| `ExampleClassBuilder.ParameterizedNodeShape` | src/main/java/com/valsong/swagger/util/SwaggerExampleClassBuilder.java:399-411 | the node followed by its arguments' walk is a well-tagged walk in which the node has children exactly when there are arguments |
| `ExampleClassBuilder.ParameterizedNodeTagged` | src/main/java/com/valsong/swagger/util/SwaggerExampleClassBuilder.java:399-411 | the parameterized node and its arguments form a walk tagged from the enclosing generic |
| `ExampleClassBuilder.ParameterizedNodeChildren` | src/main/java/com/valsong/swagger/util/SwaggerExampleClassBuilder.java:399-411 | the stored node is the parameterized node, and it has children exactly when its arguments yield nodes |
| `ExampleClassBuilder.ResolvedShape` | src/main/java/com/valsong/swagger/util/SwaggerExampleClassBuilder.java:420-444 | the recursion on a resolved type yields exactly one top node, draws ids past the consumed one, and keeps the array flag |
| `ExampleClassBuilder.TaggedConcat` | src/main/java/com/valsong/swagger/util/SwaggerExampleClassBuilder.java:362-447 | two consecutive walks inside the same generic form one well-tagged walk |
| `ExampleClassBuilder.HeadConcatFirst` | src/main/java/com/valsong/swagger/util/SwaggerExampleClassBuilder.java:362-447 | a property node of the first walk keeps its class, flags and children in the joint walk |
| `ExampleClassBuilder.HeadConcatRest` | src/main/java/com/valsong/swagger/util/SwaggerExampleClassBuilder.java:362-447 | a property node of the second walk keeps its class, flags and children in the joint walk |
| `ExampleClassBuilder.LinearizedAllTagged` | src/main/java/com/valsong/swagger/util/SwaggerExampleClassBuilder.java:355-447 | the walk of several properties is well tagged and yields exactly one property node per property |
| `ExampleClassBuilder.LinearizedAllShape` | src/main/java/com/valsong/swagger/util/SwaggerExampleClassBuilder.java:355-447 | each parameter yields exactly one node directly in the enclosing generic (`NON_RAW_TYPE` at the top), with ids increasing in parameter order; the node of a class or parameterized parameter describes it |
| `ExampleClassBuilder.HeadsConcat` | src/main/java/com/valsong/swagger/util/SwaggerExampleClassBuilder.java:362-447 | property nodes keep describing their properties when a walk of one property is followed by the rest |
| `ExampleClassBuilder.GroupOf` | src/main/java/com/valsong/swagger/util/SwaggerExampleClassBuilder.java:182-185 | the nodes whose enclosing id is `r`, with their values |
| `ExampleClassBuilder.GroupByRawTypeId` | src/main/java/com/valsong/swagger/util/SwaggerExampleClassBuilder.java:182-185 | `groupingBy(getRawTypeId)`: one group per enclosing id in use, holding exactly the nodes directly inside it |
| `ExampleClassBuilder.GroupsNonEmpty` | src/main/java/com/valsong/swagger/util/SwaggerExampleClassBuilder.java:182-185 | every group of `groupingBy` holds a node |
| `ExampleClassBuilder.RawTypeIdGroupingMap.constructor` | src/main/java/com/valsong/swagger/util/SwaggerExampleClassBuilder.java:182-185 | the grouping map starts as the grouping of the node table |
| `ExampleClassBuilder.MaxRawTypeId` | src/main/java/com/valsong/swagger/util/SwaggerExampleClassBuilder.java:190-193 | the largest group key other than `NON_RAW_TYPE`, or none exactly when `NON_RAW_TYPE` is the only key |
| `ExampleClassBuilder.OtherKeyPresent` | src/main/java/com/valsong/swagger/util/SwaggerExampleClassBuilder.java:190-193 | the filter of the loop's key stream keeps every key but `NON_RAW_TYPE` |
| `ExampleClassBuilder.SortedKeysInMap` | src/main/java/com/valsong/swagger/util/SwaggerExampleClassBuilder.java:287-297 | iterating a `TreeMap`'s keys visits keys of the map |
| `ExampleClassBuilder.ValuesInKeyOrder` | src/main/java/com/valsong/swagger/util/SwaggerExampleClassBuilder.java:298-299 | one value per key |
| `ExampleClassBuilder.ValuesInKeyOrderAt` | src/main/java/com/valsong/swagger/util/SwaggerExampleClassBuilder.java:298-299 | the i-th value of a `TreeMap` is the value under its i-th smallest key |
| `ExampleClassBuilder.ArgumentDefinitions` | src/main/java/com/valsong/swagger/util/SwaggerExampleClassBuilder.java:287-297 | the group's members by id, each loaded as its class, except that the assembled child recorded for this group takes its own id |
| `ExampleClassBuilder.GroupGeneric` | src/main/java/com/valsong/swagger/util/SwaggerExampleClassBuilder.java:261-322 | the generic built for a group describes its head: `Object` for a private head; otherwise its raw class and owner type, as an array when the head is one |
| `ExampleClassBuilder.GroupGenericArguments` | src/main/java/com/valsong/swagger/util/SwaggerExampleClassBuilder.java:287-322 | a visible head's type arguments are the group's members in id order, each its loaded class or the assembled child in its place |
| `ExampleClassBuilder.ArgumentAt` | src/main/java/com/valsong/swagger/util/SwaggerExampleClassBuilder.java:287-299 | the i-th definition in id order is the i-th member of the group, or the child in its place |
| `ExampleClassBuilder.ArgsOfGroupGeneric` | src/main/java/com/valsong/swagger/util/SwaggerExampleClassBuilder.java:298-322 | a visible head's arguments are the definitions' values in key order |
| `ExampleClassBuilder.DefinitionsInGroupOrder` | src/main/java/com/valsong/swagger/util/SwaggerExampleClassBuilder.java:287-297 | when the child belongs to the group, the definitions are keyed by exactly the group's ids |
| `ExampleClassBuilder.RemoveLeavesOthers` | src/main/java/com/valsong/swagger/util/SwaggerExampleClassBuilder.java:256 | `remove` drops exactly the one key and leaves every other entry |
| `ExampleClassBuilder.BuildGenericOf` | src/main/java/com/valsong/swagger/util/SwaggerExampleClassBuilder.java:239-339 | each successful run removes at least one group, so the loop terminates; asking for a group that is absent is a `NullPointerException` |
| `ExampleClassBuilder.BuildGenericOfGroups` | src/main/java/com/valsong/swagger/util/SwaggerExampleClassBuilder.java:250-333 | a run removes the group it starts from and only removes groups; it never removes `NON_RAW_TYPE`'s group unless it starts there |
| `ExampleClassBuilder.BuildGenericOfPrepared` | src/main/java/com/valsong/swagger/util/SwaggerExampleClassBuilder.java:324-328 | what a run finishes is keyed by the ids of top-level nodes whose groups it consumed, each describing its head |
| `ExampleClassBuilder.BuildGenericOfFinishes` | src/main/java/com/valsong/swagger/util/SwaggerExampleClassBuilder.java:324-333 | every top-level node whose group a run consumed is finished |
| `ExampleClassBuilder.BuildGeneric` | src/main/java/com/valsong/swagger/util/SwaggerExampleClassBuilder.java:239-339 | the method, which removes groups from the shared grouping map, returns what `BuildGenericOf` prepares and leaves the groups it leaves, or its failure |
| `ExampleClassBuilder.AssembleFromFacts` | src/main/java/com/valsong/swagger/util/SwaggerExampleClassBuilder.java:190-196 | the loop ends with only `NON_RAW_TYPE`'s group, untouched; it keeps what it had prepared; it finishes every top-level node that heads a group, each describing its head |
| `ExampleClassBuilder.AssembleStep` | src/main/java/com/valsong/swagger/util/SwaggerExampleClassBuilder.java:190-196 | one loop turn runs `buildGeneric` from the largest key and merges what it prepares |
| `ExampleClassBuilder.PreparedGenericFrom` | src/main/java/com/valsong/swagger/util/SwaggerExampleClassBuilder.java:198-212 | after the loop, a missing `NON_RAW_TYPE` group is a `NullPointerException`; otherwise the result adds the unfinished top-level nodes, loaded as their classes |
| `ExampleClassBuilder.ProcessRemainParameterType` | src/main/java/com/valsong/swagger/util/SwaggerExampleClassBuilder.java:220-228 | a private node stands for `Object`; a visible node is unchanged |
| `ExampleClassBuilder.RemainGeneric` | src/main/java/com/valsong/swagger/util/SwaggerExampleClassBuilder.java:202-208 | exactly the remaining top-level nodes not yet prepared, each loaded as its processed class |
| `ExampleClassBuilder.PreparedFromParameters` | src/main/java/com/valsong/swagger/util/SwaggerExampleClassBuilder.java:199-211 | the merged generics are keyed by top-level nodes only |
| `ExampleClassBuilder.PreparedGenericOf` | src/main/java/com/valsong/swagger/util/SwaggerExampleClassBuilder.java:180-213 | every key of the result is the id of a top-level node |
| `ExampleClassBuilder.PreparedGenericParts` | src/main/java/com/valsong/swagger/util/SwaggerExampleClassBuilder.java:180-213 | a successful result is what the loop prepared plus the remaining parameters |
| `ExampleClassBuilder.PreparedGenericCoversParameters` | src/main/java/com/valsong/swagger/util/SwaggerExampleClassBuilder.java:180-213 | after a walk of the parameters, the keys of the result, in order, are exactly the parameters' node ids; a childless parameter is its processed class; a parameterized parameter describes its head |
| `ExampleClassBuilder.PreparedGenericBeforeBuildClass` | src/main/java/com/valsong/swagger/util/SwaggerExampleClassBuilder.java:180-213 | the `while` loop over the shrinking grouping map computes `PreparedGenericOf` |
| `ExampleClassBuilder.CarrierOf` | src/main/java/com/valsong/swagger/util/SwaggerExampleClassBuilder.java:149-172 | building fails (array index) exactly when there are fewer names than generics; otherwise the class has one property per generic |
| `ExampleClassBuilder.CarrierInIdOrder` | src/main/java/com/valsong/swagger/util/SwaggerExampleClassBuilder.java:153-159 | the i-th property carries the i-th name and the generic under the i-th smallest id |
| `ExampleClassBuilder.FieldsFor` | src/main/java/com/valsong/swagger/util/SwaggerExampleClassBuilder.java:153-159 | the i-th property pairs the i-th name with the i-th generic |
| `ExampleClassBuilder.CarrierOfValues` | src/main/java/com/valsong/swagger/util/SwaggerExampleClassBuilder.java:149-172 | the class is built from the generics in key order |
| `ExampleClassBuilder.BuildClass` | src/main/java/com/valsong/swagger/util/SwaggerExampleClassBuilder.java:149-172 | the method computes `CarrierOf` |
| `ExampleClassBuilder.DefineProperties` | src/main/java/com/valsong/swagger/util/SwaggerExampleClassBuilder.java:153-159 | the loop with the running name index defines the i-th generic under the i-th name, or fails when names run out |
| `ExampleClassBuilder.ParameterNamesOf` | src/main/java/com/valsong/swagger/util/SwaggerExampleClassBuilder.java:63-69 | the discovered names when there are any, else the method's own parameter names |
| `ExampleClassBuilder.ExampleClassOf` | src/main/java/com/valsong/swagger/util/SwaggerExampleClassBuilder.java:57-101 | a method with no parameter names builds the base `SwaggerExample` class |
| `ExampleClassBuilder.Build` | src/main/java/com/valsong/swagger/util/SwaggerExampleClassBuilder.java:57-101 | `build(Method, Class)` computes `ExampleClassOf` from the bindings of the executing class |
| `ExampleClassBuilder.ArgNames` | src/main/java/com/valsong/swagger/util/SwaggerExampleClassBuilder.java:128-132 | names `arg0`, `arg1`, ..., one per parameter |
| `ExampleClassBuilder.NameArguments` | src/main/java/com/valsong/swagger/util/SwaggerExampleClassBuilder.java:128-132 | the loop fills a fresh array with `ArgNames` |
| `ExampleClassBuilder.BuildFromTypes` | src/main/java/com/valsong/swagger/util/SwaggerExampleClassBuilder.java:109-139 | `build(Type[])` is the example carrier with no bindings and the names `arg0`, `arg1`, ... |
| `ExampleClassBuilder.NoParametersFail` | src/main/java/com/valsong/swagger/util/SwaggerExampleClassBuilder.java:199-203 | with no parameter types there is no `NON_RAW_TYPE` group, and the stream over it is a `NullPointerException` |
| `ExampleClassBuilder.SiblingGenericsFail` | src/main/java/com/valsong/swagger/util/SwaggerExampleClassBuilder.java:250-332 | a parameter `Map<List<A>, List<B>>` makes the assembly consume group 1 twice, and the build ends in a `NullPointerException` |
| `ExampleClassBuilder.ListWalk` | src/main/java/com/valsong/swagger/util/SwaggerExampleClassBuilder.java:385-411 | the walk of `List<C>` stores the List node, then C inside it |
| `ExampleClassBuilder.MapArgumentsUnion` | src/main/java/com/valsong/swagger/util/SwaggerExampleClassBuilder.java:399-411 | the walk of `List<A>, List<B>` inside node 1 is the union of the two list walks |
| `ExampleClassBuilder.MapArgumentsWalk` | src/main/java/com/valsong/swagger/util/SwaggerExampleClassBuilder.java:399-411 | nodes 2 to 5 are List (in 1), A (in 2), List (in 1), B (in 4) |
| `ExampleClassBuilder.MapOfListsWalk` | src/main/java/com/valsong/swagger/util/SwaggerExampleClassBuilder.java:349-449 | the walk of `Map<List<A>, List<B>>` yields the Map at 1, then the lists and their arguments |
| `ExampleClassBuilder.MapOfListsAssemblyFails` | src/main/java/com/valsong/swagger/util/SwaggerExampleClassBuilder.java:180-213 | the assembly of that node table ends in a `NullPointerException` |
| `ExampleClassBuilder.MapOfListsGroups` | src/main/java/com/valsong/swagger/util/SwaggerExampleClassBuilder.java:182-185 | its groups are -1, 1, 2 and 4, all nonempty |
| `ExampleClassBuilder.GroupKeys` | src/main/java/com/valsong/swagger/util/SwaggerExampleClassBuilder.java:182-185 | the group keys of that node table are exactly -1, 1, 2 and 4 |
| `ExampleClassBuilder.FirstRoundThenSecond` | src/main/java/com/valsong/swagger/util/SwaggerExampleClassBuilder.java:190-196 | the loop starts at group 4, so a failure in what follows fails the whole assembly |
| `ExampleClassBuilder.FirstRoundConsumes` | src/main/java/com/valsong/swagger/util/SwaggerExampleClassBuilder.java:250-333 | the first `buildGeneric`, from group 4, consumes groups 4 and 1 |
| `ExampleClassBuilder.FromGroupFour` | src/main/java/com/valsong/swagger/util/SwaggerExampleClassBuilder.java:324-333 | group 4 is assembled and recorded for its parent, group 1 |
| `ExampleClassBuilder.OnToGroupOne` | src/main/java/com/valsong/swagger/util/SwaggerExampleClassBuilder.java:250-333 | group 1 is consumed and the run stops at the top level |
| `ExampleClassBuilder.AfterFirstRound` | src/main/java/com/valsong/swagger/util/SwaggerExampleClassBuilder.java:190-196 | after the first round the groups -1 and 2 remain |
| `ExampleClassBuilder.SecondRoundFails` | src/main/java/com/valsong/swagger/util/SwaggerExampleClassBuilder.java:250-332 | the second `buildGeneric`, from group 2, goes on to the removed group 1 and fails |
| `ExampleClassTypes.Resolved` | src/main/java/com/valsong/swagger/util/SwaggerExampleClassBuilder.java:413-446 | following type variables, wildcards and generic arrays ends, when it ends, at a class or parameterized type; a class or parameterized type is its own result; the result is an array exactly when the property is one or the way passes through a generic array |
| `ExampleClassTypes.Arrayed` | src/main/java/com/valsong/swagger/util/SwaggerExampleClassBuilder.java:305-322 | the description is wrapped in an array type exactly under the array flag |
| `ExampleClassTypes.ArgumentDescs` | src/main/java/com/valsong/swagger/util/SwaggerExampleClassBuilder.java:287-299 | one description per type argument |
| `ExampleClassTypes.EntryCount` | src/main/java/com/valsong/swagger/util/SwaggerExampleClassBuilder.java:362-446 | every walked entry counts at least one, and a class exactly one |
| `ExampleClassTypes.EntryCountAll` | src/main/java/com/valsong/swagger/util/SwaggerExampleClassBuilder.java:349-449 | a list of properties counts at least one entry per property |
| `ExampleClassTypes.WalkResolves` | src/main/java/com/valsong/swagger/util/SwaggerExampleClassBuilder.java:355-446 | the node a walk records for a property is the node of the class or parameterized type the property resolves to, with its class, owner, privacy and array flag (set exactly when the property is an array or resolves through a generic array), and with children exactly when it has type arguments |
| `ExampleClassTypes.WalkAllResolves` | src/main/java/com/valsong/swagger/util/SwaggerExampleClassBuilder.java:362-447 | the walk of a list records, for each property in order, the node of what it resolves to |
| `ExampleClassTypes.WalkCounts` | src/main/java/com/valsong/swagger/util/SwaggerExampleClassBuilder.java:355-446 | the walk of a property draws exactly one counter id per entry it visits |
| `ExampleClassTypes.WalkAllCounts` | src/main/java/com/valsong/swagger/util/SwaggerExampleClassBuilder.java:362-447 | the walk of a list draws exactly one counter id per entry the walks of its properties visit |
| `ExampleClassTypes.ChildDescsOf` | src/main/java/com/valsong/swagger/util/SwaggerExampleClassBuilder.java:287-299 | a node gathers, under its class and owner, the descriptions of its children in id order |
| `ExampleClassTypes.WalkDescribes` | src/main/java/com/valsong/swagger/util/SwaggerExampleClassBuilder.java:355-446 | the node a walk records for a property, described from the node table, is the description the property gets as a type argument |
| `ExampleClassTypes.WalkAllDescribes` | src/main/java/com/valsong/swagger/util/SwaggerExampleClassBuilder.java:362-447 | the same for each property of a list, in order |
| `ExampleClassTypes.WalkSiblings` | src/main/java/com/valsong/swagger/util/SwaggerExampleClassBuilder.java:355-446 | when no parameterized type in a property has two generic type arguments, the walk records no two nodes with children in the same generic |
| `ExampleClassTypes.WalkAllSiblings` | src/main/java/com/valsong/swagger/util/SwaggerExampleClassBuilder.java:362-447 | the same for a list of such properties |
| `ExampleClassTypes.Chain` | src/main/java/com/valsong/swagger/util/SwaggerExampleClassBuilder.java:326-333 | the chain of a node holds the node and only table nodes with smaller or equal ids |
| `ExampleClassTypes.Top` | src/main/java/com/valsong/swagger/util/SwaggerExampleClassBuilder.java:326-333 | the top of a chain is a parameter node |
| `ExampleClassTypes.BuildGenericOfChain` | src/main/java/com/valsong/swagger/util/SwaggerExampleClassBuilder.java:239-336 | `buildGeneric` started at a node with children, with its chain's groups present, goes up the chain, removes exactly the chain's groups, and records the top node's full description |
| `ExampleClassTypes.ProgressAtStart` | src/main/java/com/valsong/swagger/util/SwaggerExampleClassBuilder.java:180-193 | when some parameter has a node, the loop starts in a state it can make progress from |
| `ExampleClassTypes.LargestHasNoGenericChild` | src/main/java/com/valsong/swagger/util/SwaggerExampleClassBuilder.java:190-193 | the largest remaining group belongs to a node with children, none of which has children of its own |
| `ExampleClassTypes.Round` | src/main/java/com/valsong/swagger/util/SwaggerExampleClassBuilder.java:190-196 | one loop round from the largest group removes that group's chain and finishes the chain's top, keeping the progress state |
| `ExampleClassTypes.RoundProgress` | src/main/java/com/valsong/swagger/util/SwaggerExampleClassBuilder.java:190-196 | removing the chain of the largest group and finishing its top keeps the progress state |
| `ExampleClassTypes.AssembleFromExact` | src/main/java/com/valsong/swagger/util/SwaggerExampleClassBuilder.java:180-199 | the loop finishes the description of every parameter node with children and leaves only the top-level group |
| `ExampleClassTypes.PreparedGenericExact` | src/main/java/com/valsong/swagger/util/SwaggerExampleClassBuilder.java:180-213 | on a table without sibling generics, `preparedGenericBeforeBuildClass` gives every parameter node its description: the full generic for one with children, its processed class otherwise |
| `ExampleClassTypes.ArgumentDescsAt` | src/main/java/com/valsong/swagger/util/SwaggerExampleClassBuilder.java:287-299 | the descriptions of a list are the descriptions of each element, in order |
| `ExampleClassTypes.ParameterDescAt` | src/main/java/com/valsong/swagger/util/SwaggerExampleClassBuilder.java:199-211 | a parameter node described from the table is the parameter's own description |
| `ExampleClassTypes.WalkParameterDescs` | src/main/java/com/valsong/swagger/util/SwaggerExampleClassBuilder.java:355-446 | the walk of the parameters records, for each parameter in order, a node whose description is the parameter's |
| `ExampleClassTypes.ParameterDescsKeys` | src/main/java/com/valsong/swagger/util/SwaggerExampleClassBuilder.java:153-159 | the keys of the parameters' descriptions, in increasing order, are the parameter nodes in parameter order |
| `ExampleClassTypes.CarrierDescribesParameters` | src/main/java/com/valsong/swagger/util/SwaggerExampleClassBuilder.java:109-172 | when no parameterized type has two generic type arguments: no parameters is a `NullPointerException`; otherwise the class is built exactly when there are at least as many names as parameters, and else fails with an index error; the i-th property is the i-th name with the i-th parameter's own description |
| `ExampleClassTypes.FieldOfHead` | src/main/java/com/valsong/swagger/util/SwaggerExampleClassBuilder.java:199-211 | the prepared description of a parameter node has the shape its resolved type calls for |
| `ExampleClassTypes.CarrierFollowsParameters` | src/main/java/com/valsong/swagger/util/SwaggerExampleClassBuilder.java:109-172 | for any parameters whose walk and assembly succeed, the class is built exactly when there are at least as many names as parameters, and fails with an index error otherwise; the i-th property carries the i-th name and a description shaped by the type the parameter resolves to: `Object` for a private class, the raw class without type arguments, and a parameterized type over raw class and owner, inside an array type under a generic array |
| `FieldTypesDiscover.FirstProcessorFrom` | src/main/java/com/valsong/swagger/util/FieldTypesDiscover.java:277-287 | the first processor at or after a position whose class is assignable from the class, or none when no such processor exists |
| `FieldTypesDiscover.FirstProcessor` | src/main/java/com/valsong/swagger/util/FieldTypesDiscover.java:273-292 | the processor `process` hands a class to is the first, in declaration order, whose class is assignable from it; none exactly when no processor matches |
| `FieldTypesDiscover.Wrapped` | src/main/java/com/valsong/swagger/util/FieldTypesDiscover.java:276-290 | a failure of `doProcess` is wrapped twice in `SwaggerScannerException`; `StackOverflowError` is not wrapped; success stays success |
| `FieldTypesDiscover.DiscoveredClass` | src/main/java/com/valsong/swagger/util/FieldTypesDiscover.java:80-95 | a class array passes on its component, a class itself, a parameterized type its raw class |
| `FieldTypesDiscover.ExtendsTransitive` | src/main/java/com/valsong/swagger/util/FieldTypesDiscover.java:134-183 | growth of the state composes |
| `FieldTypesDiscover.AddContainerKeeps` | src/main/java/com/valsong/swagger/util/FieldTypesDiscover.java:213-240 | adding a container's raw class keeps the invariant and grows the state |
| `FieldTypesDiscover.ExpandKeeps` | src/main/java/com/valsong/swagger/util/FieldTypesDiscover.java:134-139 | adding the type and its class before any property keeps the invariant |
| `FieldTypesDiscover.DiscoverKeeps` | src/main/java/com/valsong/swagger/util/FieldTypesDiscover.java:72-114 | `discover` keeps the invariant (every collected type was added by an expansion or as a container's raw class, and each expanded type is expanded once), and types, bindings and expansions only grow |
| `FieldTypesDiscover.ProcessKeeps` | src/main/java/com/valsong/swagger/util/FieldTypesDiscover.java:273-292 | `process` keeps the invariant and only grows the state |
| `FieldTypesDiscover.DoProcessKeeps` | src/main/java/com/valsong/swagger/util/FieldTypesDiscover.java:213-261 | `doProcess` keeps the invariant and only grows the state |
| `FieldTypesDiscover.ArgumentsKeep` | src/main/java/com/valsong/swagger/util/FieldTypesDiscover.java:220-238 | discovering the first type argument, then the second, keeps the invariant and only grows the state |
| `FieldTypesDiscover.ResolveKeeps` | src/main/java/com/valsong/swagger/util/FieldTypesDiscover.java:126-186 | `resolve` keeps the invariant and only grows the state |
| `FieldTypesDiscover.PropertiesKeeps` | src/main/java/com/valsong/swagger/util/FieldTypesDiscover.java:151-183 | the property loop keeps the invariant and only grows the state |
| `FieldTypesDiscover.VisitKeeps` | src/main/java/com/valsong/swagger/util/FieldTypesDiscover.java:152-179 | one property's visit only merges bindings into the shared map |
| `FieldTypesDiscover.FieldTypesOf` | src/main/java/com/valsong/swagger/util/FieldTypesDiscover.java:54-61 | every collected type is a class or parameterized type that an expansion of the pass added, or a container's raw class |
| `FieldTypesDiscover.FieldTypesInvariant` | src/main/java/com/valsong/swagger/util/FieldTypesDiscover.java:54-61 | a pass keeps the invariant, keeps every binding of the executing class, and returns the set it grew |
| `FieldTypesDiscover.DiscoverReachesResolve` | src/main/java/com/valsong/swagger/util/FieldTypesDiscover.java:80-95 | a class or parameterized type no processor takes goes to `resolve` |
| `FieldTypesDiscover.DiscoverReachesProcessor` | src/main/java/com/valsong/swagger/util/FieldTypesDiscover.java:273-290 | a class or parameterized type a processor takes goes to the first matching processor's `doProcess`, its failures wrapped |
| `FieldTypesDiscover.RediscoveryChangesNothing` | src/main/java/com/valsong/swagger/util/FieldTypesDiscover.java:134-136 | discovering again a type the pass expanded changes nothing, so each type is expanded at most once |
| `FieldTypesDiscover.ScalarAddsNothing` | src/main/java/com/valsong/swagger/util/FieldTypesDiscover.java:259-261 | a scalar processor adds nothing and discovers nothing further |
| `FieldTypesDiscover.UnparameterizedContainerAddsNothing` | src/main/java/com/valsong/swagger/util/FieldTypesDiscover.java:213-240 | an unparameterized Collection or Map adds nothing |
| `FieldTypesDiscover.UnresolvableAddsNothing` | src/main/java/com/valsong/swagger/util/FieldTypesDiscover.java:130-132 | `void`, interfaces, abstract classes and `Object` add nothing |
| `FieldTypesDiscover.FirstVisitExpands` | src/main/java/com/valsong/swagger/util/FieldTypesDiscover.java:134-147 | the first visit of an expandable type adds the type and its class and records the expansion before any property; a class without bean info fails as `SwaggerScannerException` |
| `FieldTypesDiscover.ExpandFirst` | src/main/java/com/valsong/swagger/util/FieldTypesDiscover.java:134-151 | `resolve` adds the type and its class first, then fails on missing bean info or runs the property loop |
| `FieldTypesDiscover.ExpandedPrefix` | src/main/java/com/valsong/swagger/util/FieldTypesDiscover.java:138-139 | a later state keeps every collected type and every recorded expansion at its position |
| `FieldTypesDiscover.CollectionDiscoversElement` | src/main/java/com/valsong/swagger/util/FieldTypesDiscover.java:213-225 | a parameterized Collection adds its raw class and discovers argument 0 |
| `FieldTypesDiscover.MapDiscoversKeyThenValue` | src/main/java/com/valsong/swagger/util/FieldTypesDiscover.java:226-240 | a parameterized Map adds its raw class and discovers argument 0, then argument 1; a missing second argument is an index failure, wrapped |
| `FieldTypesDiscover.ResolvedFormsDelegate` | src/main/java/com/valsong/swagger/util/FieldTypesDiscover.java:97-111 | type variables, wildcards and generic arrays add nothing themselves: each is the discovery of what it resolves to |
| `FieldTypesDiscover.Discoverer.constructor` | src/main/java/com/valsong/swagger/util/FieldTypesDiscover.java:54-58 | a pass starts with no collected types and the given binding map |
| `FieldTypesDiscover.Discoverer.Discover` | src/main/java/com/valsong/swagger/util/FieldTypesDiscover.java:72-114 | the method's outcome and new state are those of `DiscoverOf` on the old state |
| `FieldTypesDiscover.Discoverer.Process` | src/main/java/com/valsong/swagger/util/FieldTypesDiscover.java:273-292 | the search over the processors agrees with `ProcessOf` |
| `FieldTypesDiscover.Discoverer.DoProcess` | src/main/java/com/valsong/swagger/util/FieldTypesDiscover.java:213-261 | `doProcess` agrees with `DoProcessOf` |
| `FieldTypesDiscover.Discoverer.Resolve` | src/main/java/com/valsong/swagger/util/FieldTypesDiscover.java:126-186 | `resolve` agrees with `ResolveOf` |
| `FieldTypesDiscover.Discoverer.ResolveProperties` | src/main/java/com/valsong/swagger/util/FieldTypesDiscover.java:151-183 | the loop over the property descriptors agrees with `PropertiesOf` |
| `FieldTypesDiscover.ConsideredProperties` | src/main/java/com/valsong/swagger/util/FieldTypesDiscover.java:151-168 | exactly the properties that the guard lets through and whose field lookup does not come back null |
| `FieldTypesDiscover.PassedOverChangesNothing` | src/main/java/com/valsong/swagger/util/FieldTypesDiscover.java:151-183 | the loop over all properties has the same outcome and end state as the loop over the properties it does not pass over: skipped properties change no collected type, no binding and no failure |
| `FieldTypesDiscover.Discoverer.VisitProperty` | src/main/java/com/valsong/swagger/util/FieldTypesDiscover.java:152-179 | one turn of the loop: it skips a `Class`-typed property, one typed as the enclosing class, one without setter or backing field, or one whose flattened field type contains the enclosing class; it merges the bindings of the type; it fails as the lookups do; otherwise it names the field type to discover |
| `FieldTypesDiscover.GetFieldTypes` | src/main/java/com/valsong/swagger/util/FieldTypesDiscover.java:54-61 | the method computes `FieldTypesOf` |
| `ApiRegistry.SameNameMethods` | src/main/java/com/valsong/swagger/support/SimpleSwaggerApiRegistry.java:61-65 | exactly the methods with that name |
| `ApiRegistry.FirstPosition` | src/main/java/com/valsong/swagger/support/SimpleSwaggerApiRegistry.java:67-75 | the first position of the method, or none exactly when it is absent |
| `ApiRegistry.AllocatedName` | src/main/java/com/valsong/swagger/support/SimpleSwaggerApiRegistry.java:58-77 | `bean.name` when the method is first among the same-named methods or absent; `bean.name(i+1)` at position i of at least 1 |
| `ApiRegistry.NumberedNamesDiffer` | src/main/java/com/valsong/swagger/support/SimpleSwaggerApiRegistry.java:70-72 | different numbers give different names |
| `ApiRegistry.NumberedNameIsNotBare` | src/main/java/com/valsong/swagger/support/SimpleSwaggerApiRegistry.java:69-72 | a numbered name is never the bare name |
| `ApiRegistry.DistinctMethodsDistinctNames` | src/main/java/com/valsong/swagger/support/SimpleSwaggerApiRegistry.java:67-76 | distinct same-named methods get distinct names |
| `ApiRegistry.Lookup` | src/main/java/com/valsong/swagger/support/SimpleSwaggerApiRegistry.java:115-118 | `Map.get`: the stored value, or null exactly when the name is absent |
| `ApiRegistry.TriggerMethodsAsMap` | src/main/java/com/valsong/swagger/support/SimpleSwaggerApiRegistry.java:110-118 | a registered name is found; re-registering overwrites; other names are unaffected; an unknown name gives null |
| `ApiRegistry.TagsAfterRegisterTag` | src/main/java/com/valsong/swagger/support/SimpleSwaggerApiRegistry.java:121-123 | the tags become the old tags plus the new one |
| `ApiRegistry.RegisterTagIdempotent` | src/main/java/com/valsong/swagger/support/SimpleSwaggerApiRegistry.java:121-123 | registering a tag twice is registering it once |
| `ApiRegistry.TagsAfterRegisterTagSet` | src/main/java/com/valsong/swagger/support/SimpleSwaggerApiRegistry.java:125-128 | as intended: the old tags plus the given ones, nothing else |
| `ApiRegistry.RegisterTagSetLosesTags` | src/main/java/com/valsong/swagger/support/SimpleSwaggerApiRegistry.java:125-128 | as written, registering `{t}` with an empty registry leaves it empty; as intended, `t` is registered |
| `ApiRegistry.RegisterTagSetIsRegisterTagEach` | src/main/java/com/valsong/swagger/support/SimpleSwaggerApiRegistry.java:121-128 | as intended, registering a set of tags gives the same tags as registering, one by one, the tags of any list of them, in any order and with any repetition |
| `ApiRegistry.SimpleSwaggerApiRegistry.constructor` | src/main/java/com/valsong/swagger/support/SimpleSwaggerApiRegistry.java:31-54 | a new registry is empty |
| `ApiRegistry.SimpleSwaggerApiRegistry.AllocateMethodName` | src/main/java/com/valsong/swagger/support/SimpleSwaggerApiRegistry.java:57-77 | the search loop computes `AllocatedName` |
| `ApiRegistry.SimpleSwaggerApiRegistry.RegisterSwaggerApiProperty` | src/main/java/com/valsong/swagger/support/SimpleSwaggerApiRegistry.java:79-82 | appends the property; nothing else changes |
| `ApiRegistry.SimpleSwaggerApiRegistry.GetAllSwaggerApiProperties` | src/main/java/com/valsong/swagger/support/SimpleSwaggerApiRegistry.java:84-87 | the properties in registration order |
| `ApiRegistry.SimpleSwaggerApiRegistry.RegisterApiDescription` | src/main/java/com/valsong/swagger/support/SimpleSwaggerApiRegistry.java:89-92 | appends the description; nothing else changes |
| `ApiRegistry.SimpleSwaggerApiRegistry.GetAllApiDescriptions` | src/main/java/com/valsong/swagger/support/SimpleSwaggerApiRegistry.java:94-97 | the descriptions in registration order |
| `ApiRegistry.SimpleSwaggerApiRegistry.RegisterModels` | src/main/java/com/valsong/swagger/support/SimpleSwaggerApiRegistry.java:99-102 | the given keys take the given models; every other key keeps its model; nothing else changes |
| `ApiRegistry.SimpleSwaggerApiRegistry.GetModels` | src/main/java/com/valsong/swagger/support/SimpleSwaggerApiRegistry.java:104-107 | the registered models |
| `ApiRegistry.SimpleSwaggerApiRegistry.RegisterTriggerMethod` | src/main/java/com/valsong/swagger/support/SimpleSwaggerApiRegistry.java:109-112 | stores the method under the name; nothing else changes |
| `ApiRegistry.SimpleSwaggerApiRegistry.GetTriggerMethod` | src/main/java/com/valsong/swagger/support/SimpleSwaggerApiRegistry.java:115-118 | the stored method, or null |
| `ApiRegistry.SimpleSwaggerApiRegistry.RegisterTag` | src/main/java/com/valsong/swagger/support/SimpleSwaggerApiRegistry.java:120-123 | adds the tag; nothing else changes |
| `ApiRegistry.SimpleSwaggerApiRegistry.RegisterTagSetAsWritten` | src/main/java/com/valsong/swagger/support/SimpleSwaggerApiRegistry.java:125-128 | as written: the registry is unchanged |
| `ApiRegistry.SimpleSwaggerApiRegistry.RegisterTagSet` | src/main/java/com/valsong/swagger/support/SimpleSwaggerApiRegistry.java:125-128 | as intended: adds the given tags; nothing else changes |
| `ApiRegistry.SimpleSwaggerApiRegistry.GetAllTags` | src/main/java/com/valsong/swagger/support/SimpleSwaggerApiRegistry.java:130-133 | the registered tags |
| `ApiDescHelper.Replace` | src/main/java/com/valsong/swagger/support/SwaggerApiDescHelper.java:30-32 | `String.replace` removes the character when the replacement lacks it, and introduces no character foreign to both input and replacement |
| `ApiDescHelper.ReplaceAppend` | src/main/java/com/valsong/swagger/support/SwaggerApiDescHelper.java:30-32 | replacing distributes over concatenation |
| `ApiDescHelper.ReplaceAbsent` | src/main/java/com/valsong/swagger/support/SwaggerApiDescHelper.java:30-32 | replacing an absent character changes nothing |
| `ApiDescHelper.Escape` | src/main/java/com/valsong/swagger/support/SwaggerApiDescHelper.java:30-32 | the escape contains no `<` and no `>` |
| `ApiDescHelper.EscapeIsPerCharacter` | src/main/java/com/valsong/swagger/support/SwaggerApiDescHelper.java:30-32 | the two `replace` passes send each `<` to `&lt;` and each `>` to `&gt;`, and keep every other character |
| `ApiDescHelper.EscapeDistributes` | src/main/java/com/valsong/swagger/support/SwaggerApiDescHelper.java:30-32 | the escape distributes over concatenation |
| `ApiDescHelper.EscapeKeepsPlain` | src/main/java/com/valsong/swagger/support/SwaggerApiDescHelper.java:30-32 | a string without angle brackets is its own escape |
| `ApiDescHelper.EscapeKeepsPlainWhen` | src/main/java/com/valsong/swagger/support/SwaggerApiDescHelper.java:44 | a name without angle brackets passes the escape unchanged |
| `ApiDescHelper.ParameterDesc` | src/main/java/com/valsong/swagger/support/SwaggerApiDescHelper.java:23-34 | the description has no `<` or `>`, and zero parameters give the empty string |
| `ApiDescHelper.EscapeLines` | src/main/java/com/valsong/swagger/support/SwaggerApiDescHelper.java:24-32 | escaping the joined lines is escaping each type name and separator in turn |
| `ApiDescHelper.ParameterDescPerParameter` | src/main/java/com/valsong/swagger/support/SwaggerApiDescHelper.java:23-34 | the description is, in parameter order, the escaped type name followed by the escaped line separator |
| `ApiDescHelper.ReturnDesc` | src/main/java/com/valsong/swagger/support/SwaggerApiDescHelper.java:42-46 | the description has no `<` or `>`, and a name without them is returned as it is |
| `ScannerInvoker.DecodedArguments` | src/main/java/com/valsong/swagger/support/SwaggerScannerInvoker.java:60-67 | a filled argument array has exactly one slot per parameter |
| `ScannerInvoker.DecodedArgumentsMeaning` | src/main/java/com/valsong/swagger/support/SwaggerScannerInvoker.java:60-67 | slot i is the i-th entry decoded against the i-th parameter type; slots past the entries stay null; with decodable entries the fill succeeds exactly when there are no more entries than parameters, and is an index failure otherwise; any failure is an index failure or a decoding failure of some entry |
| `ScannerInvoker.DecodedArgumentsAt` | src/main/java/com/valsong/swagger/support/SwaggerScannerInvoker.java:62-67 | one turn of the loop: past the last parameter it fails; otherwise it decodes the entry and moves on |
| `ScannerInvoker.FillArguments` | src/main/java/com/valsong/swagger/support/SwaggerScannerInvoker.java:60-67 | the loop with the running index computes `DecodedArguments` |
| `ScannerInvoker.Reflected` | src/main/java/com/valsong/swagger/support/SwaggerScannerInvoker.java:68-76 | a result passes; an access failure or target exception is wrapped in `SwaggerScannerException`; other failures pass |
| `ScannerInvoker.InvokeOf` | src/main/java/com/valsong/swagger/support/SwaggerScannerInvoker.java:39-78 | an unregistered name is a `NullPointerException` |
| `ScannerInvoker.InvokeOfRegistered` | src/main/java/com/valsong/swagger/support/SwaggerScannerInvoker.java:43-77 | for a registered method whose request re-encodes to an object, the decoded entries are passed to the reflective call, or the decoding failure is returned |
| `ScannerInvoker.InvokeCallsWithDecodedEntries` | src/main/java/com/valsong/swagger/support/SwaggerScannerInvoker.java:55-77 | with decodable entries, no more entries than parameters calls the method with the decoded arguments; more entries is an index failure |
| `ScannerInvoker.NonObjectRequestFails` | src/main/java/com/valsong/swagger/support/SwaggerScannerInvoker.java:55-58 | a request that does not re-encode to a JSON object fails before any argument is decoded |
| `ScannerInvoker.Invoke` | src/main/java/com/valsong/swagger/support/SwaggerScannerInvoker.java:39-78 | the method computes `InvokeOf` on the registry's trigger methods |

## Left out

- ByteBuddy class generation (`subclass`, `defineProperty`, `make`, `load`) is not modelled. `buildClass` yields a `Carrier` value: the base `SwaggerExample`, or an ordered list of (name, type description) properties. Type descriptions are a small datatype standing for what the builder asks ByteBuddy for.
- Reflection and JavaBeans introspection are replaced by the `ClassTable`. This covers `Introspector.getBeanInfo`, `Modifier`, `getMethods`, `getDeclaredFields` and `isAssignableFrom`. A missing bean info is an `Introspection` error.
- `LocalVariableTableParameterNameDiscoverer` and its `ThreadLocal` holder are left out. The names it discovers are a parameter (`discovered`).
- Gson is left out, being foreign code. Its tree encoding of the request and its decoding of each entry are function parameters of the invoker. The Double-to-long serializers are floating-point logic and are not modelled.
- `setAccessible` and the reflective call are left out. The call is a function parameter. What it throws is an `Error` value.
- The servlet, the Spring and springfox scanners, configuration and providers, the annotation, `InstanceHelper` and the plain constant holders are not part of this model. They are I/O and framework glue.
- Concurrency is not modelled. The registry's static `triggerMethods` map is modelled as a field of the registry object.
- SimpleSwaggerApiRegistry getters: Java returns the live list, map or set, but the model returns a value. Aliasing through them is not modelled.
- ReflectUtils.ConvertToJsonElementWithoutNull: the in-place `setValue`/`set` mutation of the Gson tree is modelled on values. The method returns the new tree, and aliasing of the caller's tree is not modelled.
- FieldTypesDiscover.Discoverer: the binding map the Java code passes from call to call is one shared object. The model keeps it as a field of the pass, so changes made through the caller's own reference are not modelled.
- Recursion depth is modelled by `fuel`. `StackOverflowError` is the `StackOverflow` error, raised when fuel runs out rather than at the JVM's real depth.
- `Type.getTypeName` and the platform line separator are parameters of the description helpers.
- `Method.equals` is modelled as equality of `MethodRef` values. `getMethods()` order is the given sequence of methods.
- `ScannerInvoker.FillArguments` takes `parameterCount` as the number of generic parameter types, as the JVM guarantees.
- FieldTypesDiscover.Discoverer.ResolveProperties and FieldTypesDiscover.Discoverer.VisitProperty are one Java method, `resolve`, split in two. VisitProperty is the loop body up to the recursive `discover`.
- ExampleClassBuilder.ProcessTypeProperty is likewise the body of the `processParameterTypes` loop, and ExampleClassBuilder.DefineProperties the loop of `buildClass`.
- ExampleClassTypes.CarrierDescribesParameters: covers only parameter lists in which no parameterized type has two type arguments that are themselves parameterized with arguments. Such a type can make the assembly fail with a `NullPointerException`, as `Map<List<A>, List<B>>` does (ExampleClassBuilder.SiblingGenericsFail). Whether a successful assembly implies that there is no such type is not proved.
- ExampleClassTypes.CarrierFollowsParameters: holds whenever the assembly succeeds, but pins only each property's name and the outer shape of its description (raw class, owner, array), not the type arguments inside it. The full description is proved only under the condition of ExampleClassTypes.CarrierDescribesParameters.
- ExampleClassBuilder.SiblingGenericsFail: a generic with two parameterized arguments, such as `Map<List<A>, List<B>>`, fails with a `NullPointerException`. The model states this behaviour of the code as written, but it does not model a corrected assembly.
- `AtomicInteger` overflow is not modelled. The counter is an unbounded integer, and no walk comes near 2^31 ids.

## Findings

| source | as written | input that shows it | evidently intended | confidence | as-written member | corrected member |
|---|---|---|---|---|---|---|
| src/main/java/com/valsong/swagger/support/SimpleSwaggerApiRegistry.java:125-128 | `registerTag(Set<Tag> tags)` calls `tags.addAll(tags)`. The parameter shadows the field, so the registry's tags never change. | A registry with no tags, after `registerTag({t})`, still has no tags. | Add every given tag to the registry's tags. | not executed | `ApiRegistry.SimpleSwaggerApiRegistry.RegisterTagSetAsWritten`, `ApiRegistry.RegisterTagSetLosesTags` | `ApiRegistry.SimpleSwaggerApiRegistry.RegisterTagSet`, `ApiRegistry.TagsAfterRegisterTagSet`, `ApiRegistry.RegisterTagSetIsRegisterTagEach` |
