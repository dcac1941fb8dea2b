/**
 * FieldTypesDiscover: the recursive walk that collects the types reachable from a method's
 * parameter or return type through bean properties, collections and maps.
 *
 * One pass owns a growing set of types and one binding map that every nested call shares and
 * extends. The pass is specified by mutually recursive functions over a `Discovery` state
 * (DiscoverOf, ProcessOf, DoProcessOf, ResolveOf, PropertiesOf); the class `Discoverer` is the
 * imperative form, and each of its methods is proved to produce exactly the state and outcome
 * its function describes. `fuel` is the call depth still available; running out is the
 * StackOverflowError the source ends in on a cyclic type-variable chain.
 */
module FieldTypesDiscover {
  import opened JavaTypes
  import opened ReflectUtils

  // ----- FieldTypeProcessor -----

  /** What a processor's doProcess does: nothing, or the Collection or the Map override. */
  datatype ProcessorKind = Scalar | CollectionProcessor | MapProcessor

  datatype FieldTypeProcessor = FieldTypeProcessor(clazz: ClassRef, kind: ProcessorKind)

  /** The enum constants of FieldTypeProcessor, in declaration order. */
  const PROCESSORS: seq<FieldTypeProcessor> := [
    FieldTypeProcessor(Named("short"), Scalar),
    FieldTypeProcessor(Named("java.lang.Short"), Scalar),
    FieldTypeProcessor(Named("int"), Scalar),
    FieldTypeProcessor(Named("java.lang.Integer"), Scalar),
    FieldTypeProcessor(Named("java.math.BigInteger"), Scalar),
    FieldTypeProcessor(Named("long"), Scalar),
    FieldTypeProcessor(Named("java.lang.Long"), Scalar),
    FieldTypeProcessor(Named("float"), Scalar),
    FieldTypeProcessor(Named("java.lang.Float"), Scalar),
    FieldTypeProcessor(Named("double"), Scalar),
    FieldTypeProcessor(Named("java.lang.Double"), Scalar),
    FieldTypeProcessor(Named("java.math.BigDecimal"), Scalar),
    FieldTypeProcessor(Named("char"), Scalar),
    FieldTypeProcessor(Named("java.lang.Character"), Scalar),
    FieldTypeProcessor(Named("boolean"), Scalar),
    FieldTypeProcessor(Named("java.lang.Boolean"), Scalar),
    FieldTypeProcessor(Named("byte"), Scalar),
    FieldTypeProcessor(Named("java.lang.Byte"), Scalar),
    FieldTypeProcessor(Named("java.lang.String"), Scalar),
    FieldTypeProcessor(Named("java.util.Date"), Scalar),
    FieldTypeProcessor(Named("java.lang.Number"), Scalar),
    FieldTypeProcessor(COLLECTION, CollectionProcessor),
    FieldTypeProcessor(MAP, MapProcessor)
  ]

  /** The first processor at or after position `from` whose class is assignable from `clazz`. */
  function FirstProcessorFrom(ct: ClassTable, clazz: ClassRef, from: nat): (r: Option<nat>)
    requires from <= |PROCESSORS|
    ensures r.Some? ==>
      from <= r.value < |PROCESSORS| && ct.assignableFrom(PROCESSORS[r.value].clazz, clazz) &&
      forall j :: from <= j < r.value ==> !ct.assignableFrom(PROCESSORS[j].clazz, clazz)
    ensures r.None? ==> forall j :: from <= j < |PROCESSORS| ==> !ct.assignableFrom(PROCESSORS[j].clazz, clazz)
    decreases |PROCESSORS| - from
  {
    if from == |PROCESSORS| then None
    else if ct.assignableFrom(PROCESSORS[from].clazz, clazz) then Some(from)
    else FirstProcessorFrom(ct, clazz, from + 1)
  }

  /** The processor `process` hands a class to: the first, in declaration order, assignable from it. */
  function FirstProcessor(ct: ClassTable, clazz: ClassRef): (r: Option<nat>)
    ensures r.Some? ==>
      r.value < |PROCESSORS| && ct.assignableFrom(PROCESSORS[r.value].clazz, clazz) &&
      forall j :: 0 <= j < r.value ==> !ct.assignableFrom(PROCESSORS[j].clazz, clazz)
    ensures r.None? <==> forall j :: 0 <= j < |PROCESSORS| ==> !ct.assignableFrom(PROCESSORS[j].clazz, clazz)
  {
    FirstProcessorFrom(ct, clazz, 0)
  }

  /**
   * What leaves `process`: an exception from doProcess is wrapped by the inner catch and again
   * by the outer one; a StackOverflowError is an Error, which neither catch intercepts.
   */
  function Wrapped(o: Outcome): (r: Outcome)
    ensures o.Pass? <==> r.Pass?
    ensures o == Fail(StackOverflow) ==> r == o
    ensures o.Fail? && o.error != StackOverflow ==> r == Fail(ScannerException(ScannerException(o.error)))
  {
    match o
    case Pass => Pass
    case Fail(e) => if e == StackOverflow then o else Fail(ScannerException(ScannerException(e)))
  }

  // ----- The state of one pass -----

  /**
   * The state of one pass: the collected types, the shared binding map, and, for the model's
   * own bookkeeping, the types `resolve` expanded, in order.
   */
  datatype Discovery = Discovery(types: set<JType>, genericTypeMap: GenericTypeMap, expanded: seq<JType>)

  /** The outcome of a call and the state it leaves. */
  datatype Step = Step(outcome: Outcome, state: Discovery)

  /**
   * What one turn of the property loop leaves the loop to do: go on to the next property, end
   * in an exception, or discover the field's type.
   */
  datatype Visit = Next | Stop(error: Error) | Descend(fieldType: JType)

  /** A visit and the state it leaves. */
  datatype PropertyVisit = PropertyVisit(visit: Visit, state: Discovery)

  /** The class `discover` passes on for a class or parameterized type: the component of a class array, the raw class. */
  function DiscoveredClass(t: JType): (c: ClassRef)
    requires IsClassExpr(t)
    ensures t.Class? && t.cls.Named? ==> c == t.cls
    ensures t.Class? && t.cls.ArrayOf? ==> c == t.cls.component
    ensures t.Param? ==> c == Named(t.raw)
  {
    match t
    case Class(c) => if c.ArrayOf? then c.component else c
    case Param(raw, _, _) => Named(raw)
  }

  /** The classes `resolve` returns on at once: void, interfaces, abstract classes and Object. */
  predicate ResolvesToNothing(ct: ClassTable, c: ClassRef)
  {
    c == VOID || Info(ct, c).isInterface || Info(ct, c).isAbstract || c == OBJECT
  }

  /** The property guard of `resolve`: Class-typed, typed as the enclosing class, or without setter. */
  predicate SkippedProperty(p: Property, clazz: ClassRef)
  {
    p.propertyType == CLASS || p.propertyType == clazz || !p.hasSetter
  }

  function AddTypes(s: Discovery, ts: set<JType>): Discovery
  {
    s.(types := s.types + ts)
  }

  // ----- The pass, as functions -----

  /** discover: dispatch on the form of the type. */
  function DiscoverOf(ct: ClassTable, s: Discovery, t: JType, fuel: nat): Step
    requires WellFormed(ct)
    decreases fuel, 3, 0
  {
    match t
    case Class(c) => ProcessOf(ct, s, DiscoveredClass(t), t, fuel)
    case Param(_, _, _) => ProcessOf(ct, s, DiscoveredClass(t), t, fuel)
    case TypeVar(name, decl) =>
      (match TypeVariableBinding(ct, name, decl, s.genericTypeMap)
       case Err(e) => Step(Fail(e), s)
       case Ok(a) => if fuel == 0 then Step(Fail(StackOverflow), s) else DiscoverOf(ct, s, a, fuel - 1))
    case Wildcard(lower, upper) =>
      if fuel == 0 then Step(Fail(StackOverflow), s) else DiscoverOf(ct, s, WildcardBound(lower, upper), fuel - 1)
    case GenericArray(comp) =>
      if fuel == 0 then Step(Fail(StackOverflow), s) else DiscoverOf(ct, s, comp, fuel - 1)
  }

  /** FieldTypeProcessor.process: the first matching processor's doProcess, else `resolve`. */
  function ProcessOf(ct: ClassTable, s: Discovery, clazz: ClassRef, t: JType, fuel: nat): Step
    requires WellFormed(ct) && IsClassExpr(t)
    decreases fuel, 2, 0
  {
    match FirstProcessor(ct, clazz)
    case Some(i) =>
      var r := DoProcessOf(ct, s, i, t, fuel);
      Step(Wrapped(r.outcome), r.state)
    case None => ResolveOf(ct, s, clazz, t, fuel)
  }

  /**
   * doProcess of processor `i`: nothing for a scalar processor or a type that is not
   * parameterized; otherwise the raw type is added and the element type (Collection), or the
   * key and then the value type (Map), is discovered. A missing type argument is an
   * ArrayIndexOutOfBoundsException.
   */
  function DoProcessOf(ct: ClassTable, s: Discovery, i: nat, t: JType, fuel: nat): Step
    requires WellFormed(ct) && i < |PROCESSORS|
    decreases fuel, 1, 1
  {
    if PROCESSORS[i].kind.Scalar? || !t.Param? then Step(Pass, s)
    else
      var s1 := AddTypes(s, {Class(Named(t.raw))});
      if |t.args| < 1 then Step(Fail(IndexOutOfBounds), s1)
      else if fuel == 0 then Step(Fail(StackOverflow), s1)
      else
        var first := DiscoverOf(ct, s1, t.args[0], fuel - 1);
        if PROCESSORS[i].kind.CollectionProcessor? || first.outcome.Fail? then first
        else if |t.args| < 2 then Step(Fail(IndexOutOfBounds), first.state)
        else DiscoverOf(ct, first.state, t.args[1], fuel - 1)
  }

  /**
   * resolve: nothing for a class that resolves to nothing or a type already collected;
   * otherwise the type and its class are collected, and then its bean properties walked. A
   * class whose introspection fails ends the pass in a SwaggerScannerException.
   */
  function ResolveOf(ct: ClassTable, s: Discovery, clazz: ClassRef, t: JType, fuel: nat): Step
    requires WellFormed(ct) && IsClassExpr(t)
    decreases fuel, 1, 0
  {
    if ResolvesToNothing(ct, clazz) || t in s.types then Step(Pass, s)
    else
      var s1 := Discovery(s.types + {t} + {Class(clazz)}, s.genericTypeMap, s.expanded + [t]);
      match Info(ct, clazz).properties
      case None => Step(Fail(ScannerException(Introspection(clazz))), s1)
      case Some(props) => PropertiesOf(ct, s1, clazz, t, props, fuel)
  }

  /**
   * The property loop of `resolve`. A property the guard rejects, or without a backing field,
   * is passed over. Otherwise the bindings of the enclosing type are merged into the shared
   * map, and the field type is discovered unless its flattening contains the enclosing class.
   */
  function PropertiesOf(ct: ClassTable, s: Discovery, clazz: ClassRef, t: JType, props: seq<Property>, fuel: nat): Step
    requires WellFormed(ct) && IsClassExpr(t)
    decreases fuel, 0, |props|
  {
    if |props| == 0 then Step(Pass, s)
    else
      var v := VisitOf(ct, s, clazz, t, props[0], fuel);
      var s1 := v.state;
      match v.visit
      case Next => PropertiesOf(ct, s1, clazz, t, props[1..], fuel)
      case Stop(e) => Step(Fail(e), s1)
      case Descend(fieldType) =>
        if fuel == 0 then Step(Fail(StackOverflow), s1)
        else
          var r := DiscoverOf(ct, s1, fieldType, fuel - 1);
          if r.outcome.Fail? then r else PropertiesOf(ct, r.state, clazz, t, props[1..], fuel)
  }

  /**
   * One turn of the property loop up to the discovery of the field's type: the guard, the
   * declared field, the merge of the enclosing type's bindings and the self-reference test.
   */
  function VisitOf(ct: ClassTable, s: Discovery, clazz: ClassRef, t: JType, p: Property, fuel: nat): PropertyVisit
    requires WellFormed(ct) && IsClassExpr(t)
  {
    if SkippedProperty(p, clazz) then PropertyVisit(Next, s)
    else
      match FindDeclaredField(ct, clazz, p.name)
      case Err(e) => PropertyVisit(Stop(e), s)
      case Ok(None) => PropertyVisit(Next, s)
      case Ok(Some(field)) =>
        var s1 := s.(genericTypeMap := s.genericTypeMap + GenericTypeMapOf(ct, t));
        match FindAllTypes(ct, field.genericType, s1.genericTypeMap, fuel)
        case Err(e) => PropertyVisit(Stop(e), s1)
        case Ok(all) => PropertyVisit(if clazz in all then Next else Descend(field.genericType), s1)
  }

  /** The state a pass starts in: no types, and the binding map of the class executing the method. */
  function InitialDiscovery(ct: ClassTable, clazz: ClassRef): Discovery
    requires WellFormed(ct)
  {
    Discovery({}, GenericTypeMapOf(ct, Class(clazz)), [])
  }

  /** getFieldTypes: the types one pass collects from `type`, or the exception it ends in. */
  function FieldTypesOf(ct: ClassTable, t: JType, clazz: ClassRef, fuel: nat): (r: Result<set<JType>>)
    requires WellFormed(ct)
    ensures r.Ok? ==> forall x :: x in r.value ==> IsClassExpr(x) && Explained(ct, x, DiscoverOf(ct, InitialDiscovery(ct, clazz), t, fuel).state.expanded)
  {
    var r := DiscoverOf(ct, InitialDiscovery(ct, clazz), t, fuel);
    DiscoverKeeps(ct, InitialDiscovery(ct, clazz), t, fuel);
    if r.outcome.Fail? then Err(r.outcome.error) else Ok(r.state.types)
  }

  // ----- What a pass keeps true -----

  /** What expanding `e` adds: `e` itself, and the class discover took from it. */
  predicate ExpansionAdds(e: JType, x: JType)
  {
    x == e || (IsClassExpr(e) && x == Class(DiscoveredClass(e)))
  }

  /** The raw class of a container: a named class handed to the Collection or the Map processor. */
  predicate ContainerRaw(ct: ClassTable, x: JType)
  {
    x.Class? && x.cls.Named? &&
    var p := FirstProcessor(ct, x.cls); p.Some? && !PROCESSORS[p.value].kind.Scalar?
  }

  /** `x` was added by an expansion of `expanded`, or is the raw class of a container. */
  ghost predicate Explained(ct: ClassTable, x: JType, expanded: seq<JType>)
  {
    ContainerRaw(ct, x) || exists e :: e in expanded && ExpansionAdds(e, x)
  }

  /** A type `resolve` goes on to expand: no processor takes its class, and the class resolves to something. */
  predicate Expandable(ct: ClassTable, e: JType)
  {
    IsClassExpr(e) && FirstProcessor(ct, DiscoveredClass(e)).None? && !ResolvesToNothing(ct, DiscoveredClass(e))
  }

  /**
   * The invariant of a pass: every type collected is a class or parameterized type explained
   * by an expansion or a container, and each expanded type was expandable, is collected, and
   * was expanded once.
   */
  ghost predicate Inv(ct: ClassTable, s: Discovery)
  {
    && (forall x :: x in s.types ==> IsClassExpr(x) && Explained(ct, x, s.expanded))
    && (forall i :: 0 <= i < |s.expanded| ==> s.expanded[i] in s.types && Expandable(ct, s.expanded[i]))
    && (forall i, j :: 0 <= i < j < |s.expanded| ==> s.expanded[i] != s.expanded[j])
  }

  /** `r` grows `s`: no type is dropped, no binding key is dropped, and the expansions only extend. */
  ghost predicate Extends(s: Discovery, r: Discovery)
  {
    && s.types <= r.types
    && s.genericTypeMap.Keys <= r.genericTypeMap.Keys
    && |s.expanded| <= |r.expanded| && r.expanded[..|s.expanded|] == s.expanded
  }

  lemma ExtendsTransitive(a: Discovery, b: Discovery, c: Discovery)
    requires Extends(a, b) && Extends(b, c)
    ensures Extends(a, c)
  {
    assert c.expanded[..|a.expanded|] == c.expanded[..|b.expanded|][..|a.expanded|];
  }

  /** Collecting a type's raw class as a container's keeps the invariant. */
  lemma AddContainerKeeps(ct: ClassTable, s: Discovery, raw: ClassName)
    requires Inv(ct, s) && ContainerRaw(ct, Class(Named(raw)))
    ensures Inv(ct, AddTypes(s, {Class(Named(raw))})) && Extends(s, AddTypes(s, {Class(Named(raw))}))
  {
  }

  /** Starting the expansion of a type not yet collected keeps the invariant. */
  lemma ExpandKeeps(ct: ClassTable, s: Discovery, clazz: ClassRef, t: JType)
    requires Inv(ct, s) && Expandable(ct, t) && clazz == DiscoveredClass(t) && t !in s.types
    ensures var s1 := Discovery(s.types + {t} + {Class(clazz)}, s.genericTypeMap, s.expanded + [t]);
      Inv(ct, s1) && Extends(s, s1)
  {
    var s1 := Discovery(s.types + {t} + {Class(clazz)}, s.genericTypeMap, s.expanded + [t]);
    assert t in s1.expanded && ExpansionAdds(t, t) && ExpansionAdds(t, Class(clazz));
    forall x | x in s1.types ensures IsClassExpr(x) && Explained(ct, x, s1.expanded) {
      if x in s.types {
        if !ContainerRaw(ct, x) {
          var e :| e in s.expanded && ExpansionAdds(e, x);
          assert e in s1.expanded;
        }
      }
    }
    forall i | 0 <= i < |s.expanded| ensures s1.expanded[i] != t {
      assert s.expanded[i] in s.types;
    }
    assert s1.expanded[..|s.expanded|] == s.expanded;
  }

  /** Each call of the pass keeps the invariant and only grows the state. */
  lemma {:induction false} DiscoverKeeps(ct: ClassTable, s: Discovery, t: JType, fuel: nat)
    requires WellFormed(ct) && Inv(ct, s)
    ensures Inv(ct, DiscoverOf(ct, s, t, fuel).state) && Extends(s, DiscoverOf(ct, s, t, fuel).state)
    decreases fuel, 3, 0
  {
    match t {
      case Class(_) => ProcessKeeps(ct, s, DiscoveredClass(t), t, fuel);
      case Param(_, _, _) => ProcessKeeps(ct, s, DiscoveredClass(t), t, fuel);
      case TypeVar(name, decl) =>
        var b := TypeVariableBinding(ct, name, decl, s.genericTypeMap);
        if b.Ok? && fuel > 0 {
          DiscoverKeeps(ct, s, b.value, fuel - 1);
        }
      case Wildcard(lower, upper) =>
        if fuel > 0 {
          DiscoverKeeps(ct, s, WildcardBound(lower, upper), fuel - 1);
        }
      case GenericArray(comp) =>
        if fuel > 0 {
          DiscoverKeeps(ct, s, comp, fuel - 1);
        }
    }
  }

  lemma {:induction false} ProcessKeeps(ct: ClassTable, s: Discovery, clazz: ClassRef, t: JType, fuel: nat)
    requires WellFormed(ct) && Inv(ct, s) && IsClassExpr(t) && clazz == DiscoveredClass(t)
    ensures Inv(ct, ProcessOf(ct, s, clazz, t, fuel).state) && Extends(s, ProcessOf(ct, s, clazz, t, fuel).state)
    decreases fuel, 2, 0
  {
    match FirstProcessor(ct, clazz) {
      case Some(i) => DoProcessKeeps(ct, s, i, t, fuel);
      case None => ResolveKeeps(ct, s, clazz, t, fuel);
    }
  }

  lemma {:induction false} DoProcessKeeps(ct: ClassTable, s: Discovery, i: nat, t: JType, fuel: nat)
    requires WellFormed(ct) && Inv(ct, s) && IsClassExpr(t)
    requires FirstProcessor(ct, DiscoveredClass(t)) == Some(i)
    ensures Inv(ct, DoProcessOf(ct, s, i, t, fuel).state) && Extends(s, DoProcessOf(ct, s, i, t, fuel).state)
    decreases fuel, 1, 1
  {
    if !PROCESSORS[i].kind.Scalar? && t.Param? {
      AddContainerKeeps(ct, s, t.raw);
      var s1 := AddTypes(s, {Class(Named(t.raw))});
      if |t.args| >= 1 && fuel > 0 {
        ArgumentsKeep(ct, s, s1, t.args, fuel - 1);
        var first := DiscoverOf(ct, s1, t.args[0], fuel - 1);
        if PROCESSORS[i].kind.CollectionProcessor? || first.outcome.Fail? {
          assert DoProcessOf(ct, s, i, t, fuel) == first;
        } else if |t.args| < 2 {
          assert DoProcessOf(ct, s, i, t, fuel).state == first.state;
        } else {
          assert DoProcessOf(ct, s, i, t, fuel) == DiscoverOf(ct, first.state, t.args[1], fuel - 1);
        }
      }
    }
  }

  /** The discovery of the first type argument and, after it, of the second keep the invariant. */
  lemma {:induction false} ArgumentsKeep(ct: ClassTable, s: Discovery, s1: Discovery, args: seq<JType>, fuel: nat)
    requires WellFormed(ct) && Inv(ct, s1) && Extends(s, s1) && |args| >= 1
    ensures var first := DiscoverOf(ct, s1, args[0], fuel);
      && Inv(ct, first.state) && Extends(s, first.state)
      && (first.outcome.Pass? && |args| >= 2 ==>
            Inv(ct, DiscoverOf(ct, first.state, args[1], fuel).state)
            && Extends(s, DiscoverOf(ct, first.state, args[1], fuel).state))
    decreases fuel + 1, 0, 0
  {
    var first := DiscoverOf(ct, s1, args[0], fuel);
    DiscoverKeeps(ct, s1, args[0], fuel);
    ExtendsTransitive(s, s1, first.state);
    if first.outcome.Pass? && |args| >= 2 {
      DiscoverKeeps(ct, first.state, args[1], fuel);
      ExtendsTransitive(s, first.state, DiscoverOf(ct, first.state, args[1], fuel).state);
    }
  }

  lemma {:induction false} ResolveKeeps(ct: ClassTable, s: Discovery, clazz: ClassRef, t: JType, fuel: nat)
    requires WellFormed(ct) && Inv(ct, s) && IsClassExpr(t) && clazz == DiscoveredClass(t)
    requires FirstProcessor(ct, clazz).None?
    ensures Inv(ct, ResolveOf(ct, s, clazz, t, fuel).state) && Extends(s, ResolveOf(ct, s, clazz, t, fuel).state)
    decreases fuel, 1, 0
  {
    if !ResolvesToNothing(ct, clazz) && t !in s.types {
      var s1 := Discovery(s.types + {t} + {Class(clazz)}, s.genericTypeMap, s.expanded + [t]);
      ExpandKeeps(ct, s, clazz, t);
      if Info(ct, clazz).properties.Some? {
        var props := Info(ct, clazz).properties.value;
        PropertiesKeeps(ct, s1, clazz, t, props, fuel);
        ExtendsTransitive(s, s1, PropertiesOf(ct, s1, clazz, t, props, fuel).state);
      }
    }
  }

  lemma {:induction false} PropertiesKeeps(ct: ClassTable, s: Discovery, clazz: ClassRef, t: JType,
                                           props: seq<Property>, fuel: nat)
    requires WellFormed(ct) && Inv(ct, s) && IsClassExpr(t)
    ensures Inv(ct, PropertiesOf(ct, s, clazz, t, props, fuel).state)
    ensures Extends(s, PropertiesOf(ct, s, clazz, t, props, fuel).state)
    decreases fuel, 0, |props|
  {
    if |props| > 0 {
      var v := VisitOf(ct, s, clazz, t, props[0], fuel);
      VisitKeeps(ct, s, clazz, t, props[0], fuel);
      var s1 := v.state;
      match v.visit {
        case Next =>
          PropertiesKeeps(ct, s1, clazz, t, props[1..], fuel);
          ExtendsTransitive(s, s1, PropertiesOf(ct, s1, clazz, t, props[1..], fuel).state);
        case Stop(_) =>
        case Descend(fieldType) =>
          if fuel > 0 {
            var r := DiscoverOf(ct, s1, fieldType, fuel - 1);
            DiscoverKeeps(ct, s1, fieldType, fuel - 1);
            ExtendsTransitive(s, s1, r.state);
            if r.outcome.Pass? {
              PropertiesKeeps(ct, r.state, clazz, t, props[1..], fuel);
              ExtendsTransitive(s, r.state, PropertiesOf(ct, r.state, clazz, t, props[1..], fuel).state);
            }
          }
      }
    }
  }

  /** A visit only merges bindings into the shared map. */
  lemma VisitKeeps(ct: ClassTable, s: Discovery, clazz: ClassRef, t: JType, p: Property, fuel: nat)
    requires WellFormed(ct) && Inv(ct, s) && IsClassExpr(t)
    ensures Inv(ct, VisitOf(ct, s, clazz, t, p, fuel).state) && Extends(s, VisitOf(ct, s, clazz, t, p, fuel).state)
  {
    var s1 := s.(genericTypeMap := s.genericTypeMap + GenericTypeMapOf(ct, t));
    assert Inv(ct, s1) && Extends(s, s1);
  }

  // ----- Properties of a pass -----

  /**
   * A whole pass: every collected type is a class or parameterized type, added by an expansion
   * or as a container's raw class; every expanded type was expanded exactly once and is in the
   * result; the binding map of the executing class is never lost.
   */
  lemma FieldTypesInvariant(ct: ClassTable, t: JType, clazz: ClassRef, fuel: nat)
    requires WellFormed(ct)
    ensures var r := DiscoverOf(ct, InitialDiscovery(ct, clazz), t, fuel).state;
      && Inv(ct, r)
      && GenericTypeMapOf(ct, Class(clazz)).Keys <= r.genericTypeMap.Keys
      && (FieldTypesOf(ct, t, clazz, fuel).Ok? ==> FieldTypesOf(ct, t, clazz, fuel).value == r.types)
  {
    DiscoverKeeps(ct, InitialDiscovery(ct, clazz), t, fuel);
  }

  /** A class or parameterized type no processor takes goes to `resolve`. */
  lemma DiscoverReachesResolve(ct: ClassTable, s: Discovery, t: JType, fuel: nat)
    requires WellFormed(ct) && IsClassExpr(t) && FirstProcessor(ct, DiscoveredClass(t)).None?
    ensures DiscoverOf(ct, s, t, fuel) == ResolveOf(ct, s, DiscoveredClass(t), t, fuel)
  {
    assert DiscoverOf(ct, s, t, fuel) == ProcessOf(ct, s, DiscoveredClass(t), t, fuel);
  }

  /** A class or parameterized type a processor takes goes to that processor's doProcess, its failures wrapped. */
  lemma DiscoverReachesProcessor(ct: ClassTable, s: Discovery, t: JType, fuel: nat)
    requires WellFormed(ct) && IsClassExpr(t) && FirstProcessor(ct, DiscoveredClass(t)).Some?
    ensures var r := DoProcessOf(ct, s, FirstProcessor(ct, DiscoveredClass(t)).value, t, fuel);
      DiscoverOf(ct, s, t, fuel) == Step(Wrapped(r.outcome), r.state)
  {
    assert DiscoverOf(ct, s, t, fuel) == ProcessOf(ct, s, DiscoveredClass(t), t, fuel);
  }

  /** Discovering again a type the pass expanded changes nothing. */
  lemma RediscoveryChangesNothing(ct: ClassTable, s: Discovery, e: JType, fuel: nat)
    requires WellFormed(ct) && Inv(ct, s) && e in s.expanded
    ensures DiscoverOf(ct, s, e, fuel) == Step(Pass, s)
  {
    var i :| 0 <= i < |s.expanded| && s.expanded[i] == e;
    assert e in s.types && Expandable(ct, e);
    DiscoverReachesResolve(ct, s, e, fuel);
  }

  /** A class or parameterized type handed to a scalar processor adds nothing and discovers nothing further. */
  lemma ScalarAddsNothing(ct: ClassTable, s: Discovery, t: JType, fuel: nat)
    requires WellFormed(ct) && IsClassExpr(t)
    requires FirstProcessor(ct, DiscoveredClass(t)).Some?
    requires PROCESSORS[FirstProcessor(ct, DiscoveredClass(t)).value].kind.Scalar?
    ensures DiscoverOf(ct, s, t, fuel) == Step(Pass, s)
  {
    DiscoverReachesProcessor(ct, s, t, fuel);
  }

  /** A class (not a parameterized type) handed to the Collection or Map processor adds nothing. */
  lemma UnparameterizedContainerAddsNothing(ct: ClassTable, s: Discovery, c: ClassRef, fuel: nat)
    requires WellFormed(ct)
    requires FirstProcessor(ct, DiscoveredClass(Class(c))).Some?
    ensures DiscoverOf(ct, s, Class(c), fuel) == Step(Pass, s)
  {
    DiscoverReachesProcessor(ct, s, Class(c), fuel);
  }

  /** A class no processor takes and that resolves to nothing (void, an interface, an abstract class, Object) adds nothing. */
  lemma UnresolvableAddsNothing(ct: ClassTable, s: Discovery, t: JType, fuel: nat)
    requires WellFormed(ct) && IsClassExpr(t)
    requires FirstProcessor(ct, DiscoveredClass(t)).None? && ResolvesToNothing(ct, DiscoveredClass(t))
    ensures DiscoverOf(ct, s, t, fuel) == Step(Pass, s)
  {
    DiscoverReachesResolve(ct, s, t, fuel);
  }

  /**
   * The first discovery of an expandable type collects the type and its class and records one
   * expansion of it before any property is visited, whatever the walk over the properties
   * does; if introspection of its class fails the pass ends in a SwaggerScannerException.
   */
  lemma FirstVisitExpands(ct: ClassTable, s: Discovery, t: JType, fuel: nat)
    requires WellFormed(ct) && Inv(ct, s) && Expandable(ct, t) && t !in s.types
    ensures var r := DiscoverOf(ct, s, t, fuel);
      && t in r.state.types && Class(DiscoveredClass(t)) in r.state.types
      && |r.state.expanded| > |s.expanded| && r.state.expanded[|s.expanded|] == t
      && (Info(ct, DiscoveredClass(t)).properties.None? ==>
            r.outcome == Fail(ScannerException(Introspection(DiscoveredClass(t)))))
  {
    var clazz := DiscoveredClass(t);
    DiscoverReachesResolve(ct, s, t, fuel);
    var s1 := Discovery(s.types + {t} + {Class(clazz)}, s.genericTypeMap, s.expanded + [t]);
    ExpandFirst(ct, s, clazz, t, fuel, s1);
    if Info(ct, clazz).properties.Some? {
      var props := Info(ct, clazz).properties.value;
      PropertiesKeeps(ct, s1, clazz, t, props, fuel);
      ExpandedPrefix(s1, PropertiesOf(ct, s1, clazz, t, props, fuel).state, |s.expanded|);
    }
  }

  lemma ExpandFirst(ct: ClassTable, s: Discovery, clazz: ClassRef, t: JType, fuel: nat, s1: Discovery)
    requires WellFormed(ct) && Inv(ct, s) && Expandable(ct, t) && t !in s.types && clazz == DiscoveredClass(t)
    requires s1 == Discovery(s.types + {t} + {Class(clazz)}, s.genericTypeMap, s.expanded + [t])
    ensures Inv(ct, s1) && s1.expanded[|s.expanded|] == t
    ensures Info(ct, clazz).properties.None? ==>
      ResolveOf(ct, s, clazz, t, fuel) == Step(Fail(ScannerException(Introspection(clazz))), s1)
    ensures Info(ct, clazz).properties.Some? ==>
      ResolveOf(ct, s, clazz, t, fuel) == PropertiesOf(ct, s1, clazz, t, Info(ct, clazz).properties.value, fuel)
  {
    ExpandKeeps(ct, s, clazz, t);
  }

  /** An extension keeps every collected type and every recorded expansion at its position. */
  lemma ExpandedPrefix(a: Discovery, b: Discovery, n: nat)
    requires Extends(a, b) && n < |a.expanded|
    ensures a.types <= b.types && n < |b.expanded| && b.expanded[n] == a.expanded[n]
  {
    assert b.expanded[n] == b.expanded[..|a.expanded|][n];
  }

  /**
   * A parameterized Collection, with an element type and call depth to spare, adds its raw
   * class and then is exactly the discovery of its element type, with failures wrapped.
   */
  lemma CollectionDiscoversElement(ct: ClassTable, s: Discovery, raw: ClassName, owner: Option<JType>,
                                   args: seq<JType>, fuel: nat)
    requires WellFormed(ct) && |args| >= 1 && fuel > 0
    requires FirstProcessor(ct, Named(raw)).Some?
    requires PROCESSORS[FirstProcessor(ct, Named(raw)).value].kind.CollectionProcessor?
    ensures var r := DiscoverOf(ct, AddTypes(s, {Class(Named(raw))}), args[0], fuel - 1);
      DiscoverOf(ct, s, Param(raw, owner, args), fuel) == Step(Wrapped(r.outcome), r.state)
  {
    DiscoverReachesProcessor(ct, s, Param(raw, owner, args), fuel);
  }

  /**
   * A parameterized Map adds its raw class, discovers its key type, and, when that succeeds,
   * its value type; a map type with one argument fails after the key type is discovered.
   */
  lemma MapDiscoversKeyThenValue(ct: ClassTable, s: Discovery, raw: ClassName, owner: Option<JType>,
                                 args: seq<JType>, fuel: nat)
    requires WellFormed(ct) && |args| >= 1 && fuel > 0
    requires FirstProcessor(ct, Named(raw)).Some?
    requires PROCESSORS[FirstProcessor(ct, Named(raw)).value].kind.MapProcessor?
    ensures var k := DiscoverOf(ct, AddTypes(s, {Class(Named(raw))}), args[0], fuel - 1);
      var r := DiscoverOf(ct, s, Param(raw, owner, args), fuel);
      && (k.outcome.Fail? ==> r == Step(Wrapped(k.outcome), k.state))
      && (k.outcome.Pass? && |args| == 1 ==> r == Step(Fail(ScannerException(ScannerException(IndexOutOfBounds))), k.state))
      && (k.outcome.Pass? && |args| >= 2 ==>
            var v := DiscoverOf(ct, k.state, args[1], fuel - 1); r == Step(Wrapped(v.outcome), v.state))
  {
    DiscoverReachesProcessor(ct, s, Param(raw, owner, args), fuel);
  }

  /** Type variables, wildcards and generic arrays add nothing themselves: each is the discovery of what it resolves to. */
  lemma ResolvedFormsDelegate(ct: ClassTable, s: Discovery, t: JType, fuel: nat)
    requires WellFormed(ct) && fuel > 0
    ensures t.TypeVar? && TypeVariableBinding(ct, t.name, t.decl, s.genericTypeMap).Ok? ==>
      DiscoverOf(ct, s, t, fuel) == DiscoverOf(ct, s, TypeVariableBinding(ct, t.name, t.decl, s.genericTypeMap).value, fuel - 1)
    ensures t.TypeVar? && TypeVariableBinding(ct, t.name, t.decl, s.genericTypeMap).Err? ==>
      DiscoverOf(ct, s, t, fuel) == Step(Fail(TypeVariableBinding(ct, t.name, t.decl, s.genericTypeMap).error), s)
    ensures t.Wildcard? ==> DiscoverOf(ct, s, t, fuel) == DiscoverOf(ct, s, WildcardBound(t.lower, t.upper), fuel - 1)
    ensures t.GenericArray? ==> DiscoverOf(ct, s, t, fuel) == DiscoverOf(ct, s, t.comp, fuel - 1)
  {
  }

  /** A property the loop of `resolve` passes over: the guard rejects it, or no field backs it. */
  predicate PassedOver(ct: ClassTable, clazz: ClassRef, p: Property)
    requires WellFormed(ct)
  {
    SkippedProperty(p, clazz) || FindDeclaredField(ct, clazz, p.name) == Ok(None)
  }

  /** The properties the loop of `resolve` does not pass over, in order. */
  function ConsideredProperties(ct: ClassTable, clazz: ClassRef, props: seq<Property>): (r: seq<Property>)
    requires WellFormed(ct)
    ensures forall q :: q in r ==> q in props && !PassedOver(ct, clazz, q)
    ensures forall q :: q in props && !PassedOver(ct, clazz, q) ==> q in r
    decreases |props|
  {
    if |props| == 0 then []
    else if PassedOver(ct, clazz, props[0]) then ConsideredProperties(ct, clazz, props[1..])
    else [props[0]] + ConsideredProperties(ct, clazz, props[1..])
  }

  /**
   * The properties the loop passes over change nothing: not the collected types, not the
   * shared bindings, not whether and how the loop fails. The loop over all the properties is the
   * loop over the properties it does not pass over.
   */
  lemma {:induction false} PassedOverChangesNothing(ct: ClassTable, s: Discovery, clazz: ClassRef, t: JType,
                                                    props: seq<Property>, fuel: nat)
    requires WellFormed(ct) && IsClassExpr(t)
    ensures PropertiesOf(ct, s, clazz, t, props, fuel)
         == PropertiesOf(ct, s, clazz, t, ConsideredProperties(ct, clazz, props), fuel)
    decreases |props|
  {
    if |props| > 0 {
      var p := props[0];
      var v := VisitOf(ct, s, clazz, t, p, fuel);
      if PassedOver(ct, clazz, p) {
        assert v == PropertyVisit(Next, s);
        PassedOverChangesNothing(ct, s, clazz, t, props[1..], fuel);
      } else {
        var rest := ConsideredProperties(ct, clazz, props[1..]);
        assert ConsideredProperties(ct, clazz, props) == [p] + rest;
        assert ([p] + rest)[0] == p && ([p] + rest)[1..] == rest;
        assert VisitOf(ct, s, clazz, t, ([p] + rest)[0], fuel) == v;
        match v.visit {
          case Next =>
            PassedOverChangesNothing(ct, v.state, clazz, t, props[1..], fuel);
          case Stop(e) =>
          case Descend(fieldType) =>
            if fuel > 0 {
              var r := DiscoverOf(ct, v.state, fieldType, fuel - 1);
              PassedOverChangesNothing(ct, r.state, clazz, t, props[1..], fuel);
            }
        }
      }
    }
  }

  // ----- The imperative form -----

  /** One discovery pass: the collected types and the binding map every nested call shares. */
  class Discoverer {
    const ct: ClassTable
    var types: set<JType>
    var genericTypeMap: GenericTypeMap
    ghost var expanded: seq<JType>

    ghost function State(): Discovery
      reads this
    {
      Discovery(types, genericTypeMap, expanded)
    }

    constructor(ct: ClassTable, genericTypeMap: GenericTypeMap)
      ensures this.ct == ct && State() == Discovery({}, genericTypeMap, [])
    {
      this.ct := ct;
      this.types := {};
      this.genericTypeMap := genericTypeMap;
      this.expanded := [];
    }

    method Discover(t: JType, fuel: nat) returns (o: Outcome)
      requires WellFormed(ct)
      modifies this
      ensures DiscoverOf(ct, old(State()), t, fuel) == Step(o, State())
      decreases fuel, 3, 0
    {
      match t {
        case Class(c) =>
          var clazz := if c.ArrayOf? then c.component else c;
          o := Process(clazz, t, fuel);
        case Param(raw, _, _) =>
          o := Process(Named(raw), t, fuel);
        case TypeVar(_, _) =>
          var actualType := GetActualTypeByTypeVariable(ct, t, genericTypeMap);
          if actualType.Err? {
            return Fail(actualType.error);
          }
          if fuel == 0 {
            return Fail(StackOverflow);
          }
          o := Discover(actualType.value, fuel - 1);
        case Wildcard(lower, upper) =>
          if fuel == 0 {
            return Fail(StackOverflow);
          }
          o := Discover(WildcardBound(lower, upper), fuel - 1);
        case GenericArray(comp) =>
          if fuel == 0 {
            return Fail(StackOverflow);
          }
          o := Discover(comp, fuel - 1);
      }
    }

    /** FieldTypeProcessor.process, with its search over the processors. */
    method Process(clazz: ClassRef, t: JType, fuel: nat) returns (o: Outcome)
      requires WellFormed(ct) && IsClassExpr(t)
      modifies this
      ensures ProcessOf(ct, old(State()), clazz, t, fuel) == Step(o, State())
      decreases fuel, 2, 0
    {
      var i := 0;
      while i < |PROCESSORS|
        invariant 0 <= i <= |PROCESSORS|
        invariant FirstProcessor(ct, clazz) == FirstProcessorFrom(ct, clazz, i)
        invariant State() == old(State())
      {
        if ct.assignableFrom(PROCESSORS[i].clazz, clazz) {
          o := DoProcess(i, t, fuel);
          o := Wrapped(o);
          return;
        }
        i := i + 1;
      }
      o := Resolve(clazz, t, fuel);
    }

    /** doProcess of processor `i`. */
    method DoProcess(i: nat, t: JType, fuel: nat) returns (o: Outcome)
      requires WellFormed(ct) && i < |PROCESSORS|
      modifies this
      ensures DoProcessOf(ct, old(State()), i, t, fuel) == Step(o, State())
      decreases fuel, 1, 1
    {
      if PROCESSORS[i].kind.Scalar? || !t.Param? {
        return Pass;
      }
      types := types + {Class(Named(t.raw))};
      if |t.args| < 1 {
        return Fail(IndexOutOfBounds);
      }
      if fuel == 0 {
        return Fail(StackOverflow);
      }
      o := Discover(t.args[0], fuel - 1);
      if PROCESSORS[i].kind.CollectionProcessor? || o.Fail? {
        return;
      }
      if |t.args| < 2 {
        return Fail(IndexOutOfBounds);
      }
      o := Discover(t.args[1], fuel - 1);
    }

    /** resolve, with its loop over the property descriptors. */
    method Resolve(clazz: ClassRef, t: JType, fuel: nat) returns (o: Outcome)
      requires WellFormed(ct) && IsClassExpr(t)
      modifies this
      ensures ResolveOf(ct, old(State()), clazz, t, fuel) == Step(o, State())
      decreases fuel, 1, 0
    {
      if clazz == VOID || Info(ct, clazz).isInterface || Info(ct, clazz).isAbstract || clazz == OBJECT {
        return Pass;
      }
      if t in types {
        return Pass;
      }
      types := types + {t};
      types := types + {Class(clazz)};
      expanded := expanded + [t];
      var beanInfo := Info(ct, clazz).properties;
      if beanInfo.None? {
        return Fail(ScannerException(Introspection(clazz)));
      }
      var propertyDescriptors := beanInfo.value;
      o := ResolveProperties(clazz, t, propertyDescriptors, fuel);
    }

    /** The loop of resolve over the property descriptors of `clazz`. */
    method ResolveProperties(clazz: ClassRef, t: JType, propertyDescriptors: seq<Property>, fuel: nat) returns (o: Outcome)
      requires WellFormed(ct) && IsClassExpr(t)
      modifies this
      ensures PropertiesOf(ct, old(State()), clazz, t, propertyDescriptors, fuel) == Step(o, State())
      decreases fuel, 0, |propertyDescriptors|
    {
      ghost var spec := PropertiesOf(ct, State(), clazz, t, propertyDescriptors, fuel);
      for k := 0 to |propertyDescriptors|
        invariant spec == PropertiesOf(ct, State(), clazz, t, propertyDescriptors[k..], fuel)
      {
        assert propertyDescriptors[k..][0] == propertyDescriptors[k];
        assert propertyDescriptors[k..][1..] == propertyDescriptors[k + 1..];
        ghost var before := State();
        var visit := VisitProperty(clazz, t, propertyDescriptors[k], fuel);
        ghost var visited := State();
        match visit {
          case Next =>
          case Stop(e) =>
            return Fail(e);
          case Descend(fieldType) =>
            if fuel == 0 {
              return Fail(StackOverflow);
            }
            o := Discover(fieldType, fuel - 1);
            assert DiscoverOf(ct, visited, fieldType, fuel - 1) == Step(o, State());
            if o.Fail? {
              assert PropertiesOf(ct, before, clazz, t, propertyDescriptors[k..], fuel) == Step(o, State());
              return;
            }
        }
      }
      assert propertyDescriptors[|propertyDescriptors|..] == [];
      o := Pass;
    }

    /** The property loop of resolve for one property descriptor, up to the discovery of its field type. */
    method VisitProperty(clazz: ClassRef, t: JType, propertyDescriptor: Property, fuel: nat) returns (visit: Visit)
      requires WellFormed(ct) && IsClassExpr(t)
      modifies this
      ensures VisitOf(ct, old(State()), clazz, t, propertyDescriptor, fuel) == PropertyVisit(visit, State())
    {
      var propertyType := propertyDescriptor.propertyType;
      if CLASS == propertyType || clazz == propertyType || !propertyDescriptor.hasSetter {
        return Next;
      }
      var currentField := FindDeclaredField(ct, clazz, propertyDescriptor.name);
      if currentField.Err? {
        return Stop(currentField.error);
      }
      if currentField.value.None? {
        return Next;
      }
      var fieldType := currentField.value.value.genericType;
      var typeBindings := GetGenericTypeMap(ct, t);
      genericTypeMap := genericTypeMap + typeBindings;
      var allTypeFromField := FindAllTypes(ct, fieldType, genericTypeMap, fuel);
      if allTypeFromField.Err? {
        return Stop(allTypeFromField.error);
      }
      if clazz in allTypeFromField.value {
        return Next;
      }
      visit := Descend(fieldType);
    }
  }

  /** getFieldTypes: one fresh pass over `t` with the binding map of the executing class. */
  method GetFieldTypes(ct: ClassTable, t: JType, clazz: ClassRef, fuel: nat) returns (r: Result<set<JType>>)
    requires WellFormed(ct)
    ensures r == FieldTypesOf(ct, t, clazz, fuel)
  {
    var genericTypeMap := GetGenericTypeMap(ct, Class(clazz));
    var fieldTypesDiscover := new Discoverer(ct, genericTypeMap);
    var o := fieldTypesDiscover.Discover(t, fuel);
    if o.Fail? {
      return Err(o.error);
    }
    r := Ok(fieldTypesDiscover.types);
  }
}
