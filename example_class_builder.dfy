/**
 * SwaggerExampleClassBuilder: from a method's generic parameter types to the carrier record
 * whose i-th field is named after the i-th parameter and typed by it.
 *
 * The walk (processParameterTypes) numbers every type it visits with a shared counter, in
 * pre-order starting at 1, and records a node for each class and parameterized type together
 * with the id of its enclosing parameterized type (-1 for a parameter itself). The assembly
 * (preparedGenericBeforeBuildClass, buildGeneric) groups the nodes by that enclosing id and
 * rebuilds the nested generic types bottom-up, largest group first, giving one type per
 * parameter; buildClass turns them into the ordered field list.
 */
module ExampleClassBuilder {
  import opened JavaTypes
  import opened IntSets
  import opened ReflectUtils

  /** The rawTypeId of a node that is not inside any parameterized type. */
  const NON_RAW_TYPE: int := -1

  /** A type still to be walked, and whether it sits under a generic array. */
  datatype TypeProperty = TypeProperty(t: JType, isArray: bool)

  /** A node of the walk: a class or the raw class of a parameterized type. */
  datatype ParameterType = ParameterType(
    id: int,
    rawTypeId: int,
    cls: ClassRef,
    ownerType: Option<JType>,
    isPrivate: bool,
    isArray: bool)

  /** ByteBuddy's type descriptions, as far as the builder produces them. */
  datatype TypeDesc =
    | ForLoadedType(cls: ClassRef)
    | Parameterized(raw: ClassRef, owner: Option<JType>, args: seq<TypeDesc>)
    | ArrayDesc(component: TypeDesc)

  /** An assembled generic waiting to be placed into its enclosing generic. */
  datatype GenericType = GenericType(id: int, rawTypeId: int, generic: TypeDesc)

  /** The generated class: SwaggerExample itself, or a subclass with these properties in order. */
  datatype CarrierField = CarrierField(name: string, desc: TypeDesc)
  datatype Carrier = SwaggerExample | Synthesized(fields: seq<CarrierField>)

  type NodeTable = map<int, ParameterType>

  /** java.util.concurrent.atomic.AtomicInteger, as the walk uses it. */
  class AtomicInteger {
    var value: int

    constructor (initial: int)
      ensures value == initial
    {
      value := initial;
    }

    method IncrementAndGet() returns (r: int)
      modifies this
      ensures value == old(value) + 1 && r == value
    {
      value := value + 1;
      r := value;
    }
  }

  /** Modifier.isPrivate(clazz.getModifiers()). */
  function IsPrivate(ct: ClassTable, c: ClassRef): bool
  {
    Info(ct, c).isPrivate
  }

  /** Each type wrapped as a TypeProperty that is not under an array. */
  function PlainProperties(ts: seq<JType>): (r: seq<TypeProperty>)
    ensures |r| == |ts| && forall i :: 0 <= i < |ts| ==> r[i] == TypeProperty(ts[i], false)
  {
    seq(|ts|, i requires 0 <= i < |ts| => TypeProperty(ts[i], false))
  }

  // ----- processParameterTypes -----

  /**
   * What a walk produced: its nodes, the last id it drew, and the ids of the nodes that stand for
   * the walked properties themselves, one per property, in order.
   */
  datatype Linear = Linear(nodes: NodeTable, next: int, roots: seq<int>)

  /** The walk of one property when the counter stands at `start`, inside the generic `rawTypeId`. */
  function Linearized(ct: ClassTable, tp: TypeProperty, start: int, rawTypeId: int,
                      bindings: GenericTypeMap, fuel: nat): Result<Linear>
    decreases fuel, 0
  {
    var currentId := start + 1;
    match tp.t
    case Class(c) =>
      Ok(Linear(map[currentId := ParameterType(currentId, rawTypeId, c, None, IsPrivate(ct, c), tp.isArray)],
                currentId, [currentId]))
    case Param(raw, owner, args) =>
      var node := ParameterType(currentId, rawTypeId, Named(raw), owner, IsPrivate(ct, Named(raw)), tp.isArray);
      if fuel == 0 then Err(StackOverflow)
      else
        var sub :- LinearizedAll(ct, PlainProperties(args), currentId, currentId, bindings, fuel - 1);
        Ok(Linear(map[currentId := node] + sub.nodes, sub.next, [currentId]))
    case TypeVar(name, decl) =>
      var g :- TypeVariableBinding(ct, name, decl, bindings);
      if fuel == 0 then Err(StackOverflow)
      else LinearizedAll(ct, [TypeProperty(g, tp.isArray)], currentId, rawTypeId, bindings, fuel - 1)
    case Wildcard(lower, upper) =>
      if fuel == 0 then Err(StackOverflow)
      else LinearizedAll(ct, [TypeProperty(WildcardBound(lower, upper), tp.isArray)], currentId, rawTypeId, bindings, fuel - 1)
    case GenericArray(comp) =>
      if fuel == 0 then Err(StackOverflow)
      else LinearizedAll(ct, [TypeProperty(comp, true)], currentId, rawTypeId, bindings, fuel - 1)
  }

  /** The walk of several properties in order, the counter running on from one to the next. */
  function LinearizedAll(ct: ClassTable, props: seq<TypeProperty>, start: int, rawTypeId: int,
                         bindings: GenericTypeMap, fuel: nat): Result<Linear>
    decreases fuel, |props| + 1
  {
    if |props| == 0 then Ok(Linear(map[], start, []))
    else
      var first :- Linearized(ct, props[0], start, rawTypeId, bindings, fuel);
      var rest :- LinearizedAll(ct, props[1..], first.next, rawTypeId, bindings, fuel);
      Ok(Linear(first.nodes + rest.nodes, rest.next, first.roots + rest.roots))
  }

  /** The walk so far, followed by the walk `r` of what remains. */
  function Prepend(acc: Linear, r: Result<Linear>): Result<Linear>
  {
    match r
    case Err(e) => Err(e)
    case Ok(l) => Ok(Linear(acc.nodes + l.nodes, l.next, acc.roots + l.roots))
  }

  lemma UnionAssociative<K, V>(a: map<K, V>, b: map<K, V>, c: map<K, V>)
    ensures a + (b + c) == (a + b) + c
  {
    assert forall k :: k in a + (b + c) <==> k in (a + b) + c;
  }

  lemma EmptyUnion<K, V>(m: map<K, V>)
    ensures map[] + m == m && m + map[] == m
  {
    assert forall k :: k in map[] + m <==> k in m;
    assert forall k :: k in m + map[] <==> k in m;
  }

  /** One step of the walk of several properties. */
  lemma LinearizedAllStep(ct: ClassTable, props: seq<TypeProperty>, k: nat, acc: Linear, rawTypeId: int,
                          bindings: GenericTypeMap, fuel: nat, one: Linear)
    requires k < |props|
    requires Linearized(ct, props[k], acc.next, rawTypeId, bindings, fuel) == Ok(one)
    ensures Prepend(acc, LinearizedAll(ct, props[k..], acc.next, rawTypeId, bindings, fuel))
         == Prepend(Linear(acc.nodes + one.nodes, one.next, acc.roots + one.roots),
                    LinearizedAll(ct, props[k + 1..], one.next, rawTypeId, bindings, fuel))
  {
    assert props[k..][0] == props[k];
    assert props[k..][1..] == props[k + 1..];
    var rest := LinearizedAll(ct, props[k + 1..], one.next, rawTypeId, bindings, fuel);
    if rest.Ok? {
      UnionAssociative(acc.nodes, one.nodes, rest.value.nodes);
      assert acc.roots + (one.roots + rest.value.roots) == (acc.roots + one.roots) + rest.value.roots;
    }
  }

  /**
   * processParameterTypes: walks the properties in order, drawing one id from the shared counter
   * per property visited, and returns the node table of the walk.
   */
  method ProcessParameterTypes(ct: ClassTable, parameterTypes: seq<TypeProperty>, id: AtomicInteger,
                               rawTypeId: int, genericTypeMap: GenericTypeMap, fuel: nat)
    returns (r: Result<NodeTable>)
    modifies id
    ensures var spec := LinearizedAll(ct, parameterTypes, old(id.value), rawTypeId, genericTypeMap, fuel);
      && (spec.Ok? ==> r == Ok(spec.value.nodes) && id.value == spec.value.next)
      && (spec.Err? ==> r == Err(spec.error))
    decreases fuel, 1
  {
    if |parameterTypes| == 0 {
      return Ok(map[]);
    }
    ghost var spec := LinearizedAll(ct, parameterTypes, id.value, rawTypeId, genericTypeMap, fuel);
    var parameterTypeMap: NodeTable := map[];
    ghost var roots: seq<int> := [];
    assert parameterTypes[0..] == parameterTypes;
    assert Prepend(Linear(map[], id.value, []), spec) == spec by {
      if spec.Ok? {
        assert map[] + spec.value.nodes == spec.value.nodes;
        assert [] + spec.value.roots == spec.value.roots;
      }
    }
    for k := 0 to |parameterTypes|
      invariant spec == Prepend(Linear(parameterTypeMap, id.value, roots),
                                LinearizedAll(ct, parameterTypes[k..], id.value, rawTypeId, genericTypeMap, fuel))
    {
      ghost var before := id.value;
      var one := ProcessTypeProperty(ct, parameterTypes[k], id, rawTypeId, genericTypeMap, fuel);
      ghost var oneSpec := Linearized(ct, parameterTypes[k], before, rawTypeId, genericTypeMap, fuel);
      if one.Err? {
        assert parameterTypes[k..][0] == parameterTypes[k];
        return Err(one.error);
      }
      LinearizedAllStep(ct, parameterTypes, k, Linear(parameterTypeMap, before, roots), rawTypeId,
                        genericTypeMap, fuel, oneSpec.value);
      parameterTypeMap := parameterTypeMap + one.value;
      roots := roots + oneSpec.value.roots;
    }
    assert parameterTypes[|parameterTypes|..] == [];
    assert parameterTypeMap + map[] == parameterTypeMap;
    assert roots + [] == roots;
    r := Ok(parameterTypeMap);
  }

  /** The body of processParameterTypes's loop: one property, dispatched on its type's form. */
  method ProcessTypeProperty(ct: ClassTable, typeProperty: TypeProperty, id: AtomicInteger,
                             rawTypeId: int, genericTypeMap: GenericTypeMap, fuel: nat)
    returns (r: Result<NodeTable>)
    modifies id
    ensures var spec := Linearized(ct, typeProperty, old(id.value), rawTypeId, genericTypeMap, fuel);
      && (spec.Ok? ==> r == Ok(spec.value.nodes) && id.value == spec.value.next)
      && (spec.Err? ==> r == Err(spec.error))
    decreases fuel, 0
  {
    var currentId := id.IncrementAndGet();
    var isArray := typeProperty.isArray;
    var parameterTypeMap: NodeTable := map[];
    match typeProperty.t {
      case Class(clazz) =>
        parameterTypeMap := parameterTypeMap[currentId :=
          ParameterType(currentId, rawTypeId, clazz, None, IsPrivate(ct, clazz), isArray)];
      case Param(raw, ownerType, genericTypes) =>
        var typeClazz := Named(raw);
        parameterTypeMap := parameterTypeMap[currentId :=
          ParameterType(currentId, rawTypeId, typeClazz, ownerType, IsPrivate(ct, typeClazz), isArray)];
        if fuel == 0 {
          return Err(StackOverflow);
        }
        var allTypes := PlainProperties(genericTypes);
        var sub := ProcessParameterTypes(ct, allTypes, id, currentId, genericTypeMap, fuel - 1);
        if sub.Err? {
          return Err(sub.error);
        }
        parameterTypeMap := parameterTypeMap + sub.value;
      case TypeVar(_, _) =>
        var genericType := GetActualTypeByTypeVariable(ct, typeProperty.t, genericTypeMap);
        if genericType.Err? {
          return Err(genericType.error);
        }
        if fuel == 0 {
          return Err(StackOverflow);
        }
        var sub := ProcessParameterTypes(ct, [TypeProperty(genericType.value, isArray)], id, rawTypeId,
                                         genericTypeMap, fuel - 1);
        if sub.Err? {
          return Err(sub.error);
        }
        EmptyUnion(sub.value);
        parameterTypeMap := parameterTypeMap + sub.value;
      case Wildcard(lower, upper) =>
        var genericType := WildcardBound(lower, upper);
        if fuel == 0 {
          return Err(StackOverflow);
        }
        var sub := ProcessParameterTypes(ct, [TypeProperty(genericType, isArray)], id, rawTypeId,
                                         genericTypeMap, fuel - 1);
        if sub.Err? {
          return Err(sub.error);
        }
        EmptyUnion(sub.value);
        parameterTypeMap := parameterTypeMap + sub.value;
      case GenericArray(genericComponentType) =>
        if fuel == 0 {
          return Err(StackOverflow);
        }
        var sub := ProcessParameterTypes(ct, [TypeProperty(genericComponentType, true)], id, rawTypeId,
                                         genericTypeMap, fuel - 1);
        if sub.Err? {
          return Err(sub.error);
        }
        EmptyUnion(sub.value);
        parameterTypeMap := parameterTypeMap + sub.value;
    }
    r := Ok(parameterTypeMap);
  }

  // ----- what the walk produces -----

  /**
   * The node table of a walk that started with the counter at `start` inside the generic
   * `rawTypeId`: every node sits under the id it was drawn with, in (start, next]; every node is
   * either a walked property itself (enclosing id `rawTypeId`) or the child of a node of the table
   * with a smaller id; and the property nodes are listed, in increasing order, by `roots`.
   */
  ghost predicate Tagged(l: Linear, start: int, rawTypeId: int)
  {
    && start <= l.next
    && (forall k :: k in l.nodes ==> start < k <= l.next && l.nodes[k].id == k)
    && (forall k :: k in l.nodes ==>
          l.nodes[k].rawTypeId == rawTypeId ||
          (start < l.nodes[k].rawTypeId < k && l.nodes[k].rawTypeId in l.nodes))
    && (forall k :: k in l.nodes ==> (l.nodes[k].rawTypeId == rawTypeId <==> k in l.roots))
    && (forall i :: 0 <= i < |l.roots| ==> l.roots[i] in l.nodes)
    && Increasing(l.roots)
  }

  /** Some node of the table sits directly inside node `k`. */
  ghost predicate HasChildren(nodes: NodeTable, k: int)
  {
    exists j :: j in nodes && nodes[j].rawTypeId == k
  }

  /**
   * Node `k` is the node of a class or parameterized-type property: the class it names, its
   * owner type, its privacy and array flag; it has children exactly when the type has type
   * arguments.
   */
  ghost predicate HeadFor(l: Linear, k: int, tp: TypeProperty, ct: ClassTable)
    requires tp.t.Class? || tp.t.Param?
  {
    && k in l.nodes
    && l.nodes[k].cls == RawClassOf(tp.t)
    && l.nodes[k].ownerType == (if tp.t.Param? then tp.t.owner else None)
    && l.nodes[k].isPrivate == IsPrivate(ct, RawClassOf(tp.t))
    && l.nodes[k].isArray == tp.isArray
    && (HasChildren(l.nodes, k) <==> tp.t.Param? && |tp.t.args| > 0)
  }

  /**
   * The walk `l` of one property: it draws at least one id; its first id holds a node exactly
   * when the property's type is a class or a parameterized type, and that node is then the
   * property's node, carrying the property's array flag and the class the type names; otherwise
   * the resolved type is walked with a fresh id, from the same enclosing generic. Under a
   * generic array the property's node is marked as an array. A plain class yields a childless
   * node.
   */
  ghost predicate WalkShape(ct: ClassTable, tp: TypeProperty, start: int, rawTypeId: int, l: Linear)
  {
    && Tagged(l, start, rawTypeId)
    && start < l.next
    && |l.roots| == 1
    && ((tp.t.Class? || tp.t.Param?) <==> start + 1 in l.nodes)
    && ((tp.t.Class? || tp.t.Param?) ==> l.roots == [start + 1] && HeadFor(l, start + 1, tp, ct))
    && (tp.isArray || tp.t.GenericArray? ==> l.nodes[l.roots[0]].isArray)
  }

  /** Every successful walk of one property has the shape WalkShape describes. */
  lemma {:induction false} LinearizedShape(ct: ClassTable, tp: TypeProperty, start: int, rawTypeId: int,
                                           bindings: GenericTypeMap, fuel: nat)
    requires rawTypeId <= start
    requires Linearized(ct, tp, start, rawTypeId, bindings, fuel).Ok?
    ensures WalkShape(ct, tp, start, rawTypeId, Linearized(ct, tp, start, rawTypeId, bindings, fuel).value)
    decreases fuel, 0, 1
  {
    match tp.t {
      case Class(c) => ClassShape(ct, tp, start, rawTypeId, bindings, fuel);
      case Param(raw, owner, args) => ParamShape(ct, tp, start, rawTypeId, bindings, fuel);
      case TypeVar(name, decl) => ResolvedCaseShape(ct, tp, start, rawTypeId, bindings, fuel);
      case Wildcard(lower, upper) => ResolvedCaseShape(ct, tp, start, rawTypeId, bindings, fuel);
      case GenericArray(comp) => ResolvedCaseShape(ct, tp, start, rawTypeId, bindings, fuel);
    }
  }

  lemma ClassShape(ct: ClassTable, tp: TypeProperty, start: int, rawTypeId: int, bindings: GenericTypeMap, fuel: nat)
    requires rawTypeId <= start && tp.t.Class?
    ensures WalkShape(ct, tp, start, rawTypeId, Linearized(ct, tp, start, rawTypeId, bindings, fuel).value)
  {
    var l := Linearized(ct, tp, start, rawTypeId, bindings, fuel).value;
    assert l.nodes.Keys == {start + 1};
  }

  lemma {:induction false} ParamShape(ct: ClassTable, tp: TypeProperty, start: int, rawTypeId: int,
                                      bindings: GenericTypeMap, fuel: nat)
    requires rawTypeId <= start && tp.t.Param?
    requires Linearized(ct, tp, start, rawTypeId, bindings, fuel).Ok?
    ensures WalkShape(ct, tp, start, rawTypeId, Linearized(ct, tp, start, rawTypeId, bindings, fuel).value)
    decreases fuel, 0, 0
  {
    var l := Linearized(ct, tp, start, rawTypeId, bindings, fuel).value;
    var currentId := start + 1;
    var props := PlainProperties(tp.t.args);
    var sub := LinearizedAll(ct, props, currentId, currentId, bindings, fuel - 1).value;
    LinearizedAllTagged(ct, props, currentId, currentId, bindings, fuel - 1);
    ParameterizedNodeShape(l, sub, l.nodes[currentId], start, rawTypeId);
  }

  lemma {:induction false} ResolvedCaseShape(ct: ClassTable, tp: TypeProperty, start: int, rawTypeId: int,
                                             bindings: GenericTypeMap, fuel: nat)
    requires rawTypeId <= start && (tp.t.TypeVar? || tp.t.Wildcard? || tp.t.GenericArray?)
    requires Linearized(ct, tp, start, rawTypeId, bindings, fuel).Ok?
    ensures WalkShape(ct, tp, start, rawTypeId, Linearized(ct, tp, start, rawTypeId, bindings, fuel).value)
    decreases fuel, 0, 0
  {
    var currentId := start + 1;
    var resolved := match tp.t
      case TypeVar(name, decl) => TypeProperty(TypeVariableBinding(ct, name, decl, bindings).value, tp.isArray)
      case Wildcard(lower, upper) => TypeProperty(WildcardBound(lower, upper), tp.isArray)
      case GenericArray(comp) => TypeProperty(comp, true);
    assert Linearized(ct, tp, start, rawTypeId, bindings, fuel)
        == LinearizedAll(ct, [resolved], currentId, rawTypeId, bindings, fuel - 1);
    ResolvedShape(ct, resolved, currentId, rawTypeId, bindings, fuel - 1);
  }

  /** The node of a parameterized type followed by the walk of its type arguments. */
  lemma ParameterizedNodeShape(l: Linear, sub: Linear, node: ParameterType, start: int, rawTypeId: int)
    requires rawTypeId <= start
    requires node.id == start + 1 && node.rawTypeId == rawTypeId
    requires Tagged(sub, start + 1, start + 1)
    requires l == Linear(map[start + 1 := node] + sub.nodes, sub.next, [start + 1])
    ensures Tagged(l, start, rawTypeId) && start < l.next
    ensures start + 1 in l.nodes && l.nodes[start + 1] == node
    ensures HasChildren(l.nodes, start + 1) <==> |sub.roots| > 0
  {
    ParameterizedNodeTagged(l, sub, node, start, rawTypeId);
    ParameterizedNodeChildren(l, sub, node, start, rawTypeId);
  }

  lemma ParameterizedNodeTagged(l: Linear, sub: Linear, node: ParameterType, start: int, rawTypeId: int)
    requires rawTypeId <= start
    requires node.id == start + 1 && node.rawTypeId == rawTypeId
    requires Tagged(sub, start + 1, start + 1)
    requires l == Linear(map[start + 1 := node] + sub.nodes, sub.next, [start + 1])
    ensures Tagged(l, start, rawTypeId) && start < l.next
  {
    var currentId := start + 1;
    assert currentId !in sub.nodes;
    assert forall k :: k in l.nodes <==> k == currentId || k in sub.nodes;
    forall k | k in l.nodes
      ensures l.nodes[k].rawTypeId == rawTypeId <==> k in l.roots
    {
      if k != currentId {
        assert sub.nodes[k].rawTypeId >= currentId;
      }
    }
  }

  lemma ParameterizedNodeChildren(l: Linear, sub: Linear, node: ParameterType, start: int, rawTypeId: int)
    requires rawTypeId <= start
    requires node.id == start + 1 && node.rawTypeId == rawTypeId
    requires Tagged(sub, start + 1, start + 1)
    requires l == Linear(map[start + 1 := node] + sub.nodes, sub.next, [start + 1])
    ensures start + 1 in l.nodes && l.nodes[start + 1] == node
    ensures HasChildren(l.nodes, start + 1) <==> |sub.roots| > 0
  {
    var currentId := start + 1;
    assert currentId !in sub.nodes;
    if |sub.roots| > 0 {
      var k := sub.roots[0];
      assert k in sub.roots && k in sub.nodes && k != currentId;
      assert l.nodes[k] == sub.nodes[k];
      assert l.nodes[k].rawTypeId == currentId;
    }
    if HasChildren(l.nodes, currentId) {
      var j :| j in l.nodes && l.nodes[j].rawTypeId == currentId;
      assert j in sub.roots;
    }
  }

  /** A resolved type walked as a one-property list, from a counter one past the start. */
  lemma {:induction false} ResolvedShape(ct: ClassTable, tp: TypeProperty, currentId: int, rawTypeId: int,
                                         bindings: GenericTypeMap, fuel: nat)
    requires rawTypeId < currentId
    requires LinearizedAll(ct, [tp], currentId, rawTypeId, bindings, fuel).Ok?
    ensures var l := LinearizedAll(ct, [tp], currentId, rawTypeId, bindings, fuel).value;
      && Tagged(l, currentId, rawTypeId)
      && currentId < l.next
      && |l.roots| == 1
      && currentId !in l.nodes
      && (tp.isArray ==> l.nodes[l.roots[0]].isArray)
    decreases fuel, 1
  {
    var one := Linearized(ct, tp, currentId, rawTypeId, bindings, fuel).value;
    LinearizedShape(ct, tp, currentId, rawTypeId, bindings, fuel);
    assert [tp][1..] == [];
    EmptyUnion(one.nodes);
    assert one.roots + [] == one.roots;
  }

  /** Two consecutive walks inside the same generic make one. */
  lemma TaggedConcat(first: Linear, rest: Linear, start: int, rawTypeId: int)
    requires rawTypeId <= start
    requires Tagged(first, start, rawTypeId) && Tagged(rest, first.next, rawTypeId)
    ensures Tagged(Linear(first.nodes + rest.nodes, rest.next, first.roots + rest.roots), start, rawTypeId)
  {
    var l := Linear(first.nodes + rest.nodes, rest.next, first.roots + rest.roots);
    assert forall k :: k in first.nodes ==> k !in rest.nodes;
    assert forall k :: k in l.nodes <==> k in first.nodes || k in rest.nodes;
    forall i, j | 0 <= i < j < |l.roots| ensures l.roots[i] < l.roots[j] {
      if i >= |first.roots| {
        assert l.roots[i] == rest.roots[i - |first.roots|] && l.roots[j] == rest.roots[j - |first.roots|];
      } else if j >= |first.roots| {
        assert l.roots[i] == first.roots[i] && first.roots[i] in first.nodes;
        assert l.roots[j] == rest.roots[j - |first.roots|] && rest.roots[j - |first.roots|] in rest.nodes;
      } else {
        assert l.roots[i] == first.roots[i] && l.roots[j] == first.roots[j];
      }
    }
    forall k | k in l.nodes
      ensures l.nodes[k].rawTypeId == rawTypeId <==> k in l.roots
    {
      assert k in l.roots <==> k in first.roots || k in rest.roots;
    }
    forall i | 0 <= i < |l.roots| ensures l.roots[i] in l.nodes {
      if i < |first.roots| {
        assert l.roots[i] == first.roots[i];
      } else {
        assert l.roots[i] == rest.roots[i - |first.roots|];
      }
    }
  }

  /** The node of a property in the first of two consecutive walks keeps its children in the joint walk. */
  lemma HeadConcatFirst(first: Linear, rest: Linear, k: int, tp: TypeProperty, ct: ClassTable,
                        start: int, rawTypeId: int)
    requires tp.t.Class? || tp.t.Param?
    requires rawTypeId <= start
    requires Tagged(first, start, rawTypeId) && Tagged(rest, first.next, rawTypeId)
    requires HeadFor(first, k, tp, ct)
    ensures HeadFor(Linear(first.nodes + rest.nodes, rest.next, first.roots + rest.roots), k, tp, ct)
  {
    var l := Linear(first.nodes + rest.nodes, rest.next, first.roots + rest.roots);
    assert forall j :: j in first.nodes ==> j !in rest.nodes;
    if HasChildren(l.nodes, k) {
      var j :| j in l.nodes && l.nodes[j].rawTypeId == k;
      assert j in first.nodes;
    }
    if HasChildren(first.nodes, k) {
      var j :| j in first.nodes && first.nodes[j].rawTypeId == k;
      assert l.nodes[j].rawTypeId == k;
    }
  }

  /** The node of a property in the second of two consecutive walks keeps its children in the joint walk. */
  lemma HeadConcatRest(first: Linear, rest: Linear, k: int, tp: TypeProperty, ct: ClassTable,
                       start: int, rawTypeId: int)
    requires tp.t.Class? || tp.t.Param?
    requires rawTypeId <= start
    requires Tagged(first, start, rawTypeId) && Tagged(rest, first.next, rawTypeId)
    requires HeadFor(rest, k, tp, ct)
    ensures HeadFor(Linear(first.nodes + rest.nodes, rest.next, first.roots + rest.roots), k, tp, ct)
  {
    var l := Linear(first.nodes + rest.nodes, rest.next, first.roots + rest.roots);
    assert forall j :: j in first.nodes ==> j !in rest.nodes;
    if HasChildren(l.nodes, k) {
      var j :| j in l.nodes && l.nodes[j].rawTypeId == k;
      assert j in rest.nodes;
    }
    if HasChildren(rest.nodes, k) {
      var j :| j in rest.nodes && rest.nodes[j].rawTypeId == k;
      assert l.nodes[j].rawTypeId == k;
    }
  }

  /** The walk of several properties: one property node per property, with increasing ids in property order. */
  lemma {:induction false} LinearizedAllTagged(ct: ClassTable, props: seq<TypeProperty>, start: int, rawTypeId: int,
                                               bindings: GenericTypeMap, fuel: nat)
    requires rawTypeId <= start
    requires LinearizedAll(ct, props, start, rawTypeId, bindings, fuel).Ok?
    ensures var l := LinearizedAll(ct, props, start, rawTypeId, bindings, fuel).value;
      Tagged(l, start, rawTypeId) && |l.roots| == |props|
    decreases fuel, |props| + 1
  {
    var l := LinearizedAll(ct, props, start, rawTypeId, bindings, fuel).value;
    if |props| > 0 {
      var first := Linearized(ct, props[0], start, rawTypeId, bindings, fuel).value;
      var rest := LinearizedAll(ct, props[1..], first.next, rawTypeId, bindings, fuel).value;
      LinearizedShape(ct, props[0], start, rawTypeId, bindings, fuel);
      LinearizedAllTagged(ct, props[1..], first.next, rawTypeId, bindings, fuel);
      TaggedConcat(first, rest, start, rawTypeId);
    } else {
      assert Tagged(l, start, rawTypeId);
    }
  }

  /**
   * The walk of several properties: one property node per property, with increasing ids in
   * property order; the node of a class or parameterized-type property describes that type.
   */
  lemma {:induction false} LinearizedAllShape(ct: ClassTable, props: seq<TypeProperty>, start: int, rawTypeId: int,
                                              bindings: GenericTypeMap, fuel: nat)
    requires rawTypeId <= start
    requires LinearizedAll(ct, props, start, rawTypeId, bindings, fuel).Ok?
    ensures var l := LinearizedAll(ct, props, start, rawTypeId, bindings, fuel).value;
      && Tagged(l, start, rawTypeId)
      && |l.roots| == |props|
      && (forall i :: 0 <= i < |props| && (props[i].t.Class? || props[i].t.Param?) ==> HeadFor(l, l.roots[i], props[i], ct))
    decreases |props|
  {
    LinearizedAllTagged(ct, props, start, rawTypeId, bindings, fuel);
    if |props| > 0 {
      var l := LinearizedAll(ct, props, start, rawTypeId, bindings, fuel).value;
      var first := Linearized(ct, props[0], start, rawTypeId, bindings, fuel).value;
      var rest := LinearizedAll(ct, props[1..], first.next, rawTypeId, bindings, fuel).value;
      LinearizedShape(ct, props[0], start, rawTypeId, bindings, fuel);
      LinearizedAllShape(ct, props[1..], first.next, rawTypeId, bindings, fuel);
      HeadsConcat(first, rest, props, ct, start, rawTypeId);
    }
  }

  /** The property nodes of two consecutive walks, the first of one property, keep describing their properties. */
  lemma HeadsConcat(first: Linear, rest: Linear, props: seq<TypeProperty>, ct: ClassTable, start: int, rawTypeId: int)
    requires |props| > 0
    requires rawTypeId <= start
    requires Tagged(first, start, rawTypeId) && Tagged(rest, first.next, rawTypeId)
    requires |first.roots| == 1 && |rest.roots| == |props| - 1
    requires props[0].t.Class? || props[0].t.Param? ==> HeadFor(first, first.roots[0], props[0], ct)
    requires forall i :: 0 <= i < |props[1..]| && (props[1..][i].t.Class? || props[1..][i].t.Param?) ==>
      HeadFor(rest, rest.roots[i], props[1..][i], ct)
    ensures var l := Linear(first.nodes + rest.nodes, rest.next, first.roots + rest.roots);
      forall i :: 0 <= i < |props| && (props[i].t.Class? || props[i].t.Param?) ==> HeadFor(l, l.roots[i], props[i], ct)
  {
    var l := Linear(first.nodes + rest.nodes, rest.next, first.roots + rest.roots);
    forall i | 0 <= i < |props| && (props[i].t.Class? || props[i].t.Param?)
      ensures HeadFor(l, l.roots[i], props[i], ct)
    {
      if i == 0 {
        HeadConcatFirst(first, rest, first.roots[0], props[0], ct, start, rawTypeId);
      } else {
        assert props[1..][i - 1] == props[i];
        assert l.roots[i] == rest.roots[i - 1];
        HeadConcatRest(first, rest, rest.roots[i - 1], props[i], ct, start, rawTypeId);
      }
    }
  }

  // ----- preparedGenericBeforeBuildClass and buildGeneric -----

  /** The nodes directly inside one generic, by id (groupingBy followed by the sort on id). */
  type Group = map<int, ParameterType>

  /** The groups, by the id of the enclosing generic. */
  type Grouping = map<int, Group>

  /** The nodes directly inside the generic with id `r`. */
  function GroupOf(nodes: NodeTable, r: int): (g: Group)
    ensures forall k :: k in g <==> k in nodes && nodes[k].rawTypeId == r
    ensures forall k :: k in g ==> g[k] == nodes[k]
  {
    map k | k in nodes && nodes[k].rawTypeId == r :: nodes[k]
  }

  /** groupingBy(ParameterType::getRawTypeId): one group per enclosing id, holding exactly the nodes directly inside it. */
  function GroupByRawTypeId(nodes: NodeTable): (g: Grouping)
    ensures forall r :: r in g <==> exists k :: k in nodes && nodes[k].rawTypeId == r
    ensures forall r :: r in g ==> g[r] == GroupOf(nodes, r)
  {
    var ids := set k | k in nodes :: nodes[k].rawTypeId;
    map r | r in ids :: GroupOf(nodes, r)
  }

  /** The largest group key other than NON_RAW_TYPE, if there is one. */
  function MaxRawTypeId(keys: set<int>): (r: Option<int>)
    ensures r.None? <==> forall k :: k in keys ==> k == NON_RAW_TYPE
    ensures r.Some? ==> r.value in keys && r.value != NON_RAW_TYPE
                        && forall k :: k in keys && k != NON_RAW_TYPE ==> k <= r.value
  {
    if forall k :: k in keys ==> k == NON_RAW_TYPE then None
    else
      var rest := set k | k in keys && k != NON_RAW_TYPE;
      OtherKeyPresent(keys, rest);
      var m := Max(rest);
      Some(m)
  }

  lemma OtherKeyPresent(keys: set<int>, rest: set<int>)
    requires rest == set k | k in keys && k != NON_RAW_TYPE
    requires exists k :: k in keys && k != NON_RAW_TYPE
    ensures rest != {}
    ensures forall k :: k in keys && k != NON_RAW_TYPE ==> k in rest
  {
    var k :| k in keys && k != NON_RAW_TYPE;
    assert k in rest;
  }

  /** `d` describes the raw class, owner type and array flag of `head`, or is Object for a private head. */
  predicate DescribesHead(head: ParameterType, d: TypeDesc)
  {
    if head.isPrivate then d == ForLoadedType(OBJECT)
    else if head.isArray then
      d.ArrayDesc? && d.component.Parameterized? && d.component.raw == head.cls && d.component.owner == head.ownerType
    else
      d.Parameterized? && d.raw == head.cls && d.owner == head.ownerType
  }

  /** The type arguments of a description `DescribesHead` accepts for a visible head. */
  function ArgsOf(d: TypeDesc): seq<TypeDesc>
  {
    match d
    case Parameterized(_, _, args) => args
    case ArrayDesc(Parameterized(_, _, args)) => args
    case _ => []
  }

  /** The keys of a map in ascending order are keys of the map. */
  lemma SortedKeysInMap(m: map<int, TypeDesc>)
    ensures forall i :: 0 <= i < |SortedKeys(m.Keys)| ==> SortedKeys(m.Keys)[i] in m
  {
    var keys := SortedKeys(m.Keys);
    forall i | 0 <= i < |keys| ensures keys[i] in m {
      assert keys[i] in keys;
    }
  }

  /** The values of `m` in ascending key order (the values of a TreeMap). */
  function ValuesInKeyOrder(m: map<int, TypeDesc>): (vs: seq<TypeDesc>)
    ensures |vs| == |m.Keys|
  {
    var keys := SortedKeys(m.Keys);
    SortedKeysInMap(m);
    seq(|keys|, i requires 0 <= i < |keys| => m[keys[i]])
  }

  /** The i-th value in key order is the value under the i-th smallest key. */
  lemma ValuesInKeyOrderAt(m: map<int, TypeDesc>)
    ensures |SortedKeys(m.Keys)| == |ValuesInKeyOrder(m)|
    ensures forall i :: 0 <= i < |SortedKeys(m.Keys)| ==>
      SortedKeys(m.Keys)[i] in m && ValuesInKeyOrder(m)[i] == m[SortedKeys(m.Keys)[i]]
  {
    SortedKeysInMap(m);
  }

  /**
   * The type definitions of one group by id: each member loaded as its class, the child already
   * assembled (recorded in typeMaps under this group's id) in its place.
   */
  function ArgumentDefinitions(group: Group, currentRawTypeId: int, typeMaps: map<int, GenericType>)
    : (defs: map<int, TypeDesc>)
    ensures forall k :: k in defs <==>
      k in group || (currentRawTypeId in typeMaps && k == typeMaps[currentRawTypeId].id)
    ensures forall k :: k in defs ==>
      defs[k] == (if currentRawTypeId in typeMaps && typeMaps[currentRawTypeId].id == k
                  then typeMaps[currentRawTypeId].generic
                  else ForLoadedType(group[k].cls))
  {
    var loaded := map k | k in group :: ForLoadedType(group[k].cls);
    if currentRawTypeId in typeMaps
    then loaded[typeMaps[currentRawTypeId].id := typeMaps[currentRawTypeId].generic]
    else loaded
  }

  /**
   * The generic of one group: Object for a private head; otherwise the head's raw class and
   * owner type applied to the group's definitions in id order, as an array under a generic
   * array.
   */
  function GroupGeneric(head: ParameterType, group: Group, currentRawTypeId: int,
                        typeMaps: map<int, GenericType>): (d: TypeDesc)
    ensures DescribesHead(head, d)
  {
    if head.isPrivate then ForLoadedType(OBJECT)
    else
      var p := Parameterized(head.cls, head.ownerType, ValuesInKeyOrder(ArgumentDefinitions(group, currentRawTypeId, typeMaps)));
      if head.isArray then ArrayDesc(p) else p
  }

  /** The definition a member of the group contributes: its loaded class, or the assembled child recorded under the group. */
  function MemberDefinition(group: Group, currentRawTypeId: int, typeMaps: map<int, GenericType>, k: int): TypeDesc
    requires k in group
  {
    if currentRawTypeId in typeMaps && typeMaps[currentRawTypeId].id == k
    then typeMaps[currentRawTypeId].generic
    else ForLoadedType(group[k].cls)
  }

  /**
   * The arguments of a visible head's generic follow the group in id order, one per member, the
   * assembled child (when it belongs to the group) in its place: the order of the
   * arguments is the order of the ids.
   */
  lemma GroupGenericArguments(head: ParameterType, group: Group, currentRawTypeId: int,
                              typeMaps: map<int, GenericType>)
    requires !head.isPrivate
    requires currentRawTypeId in typeMaps ==> typeMaps[currentRawTypeId].id in group
    ensures var keys := SortedKeys(group.Keys);
      var args := ArgsOf(GroupGeneric(head, group, currentRawTypeId, typeMaps));
      && |args| == |keys|
      && forall i :: 0 <= i < |keys| ==> keys[i] in group && args[i] == MemberDefinition(group, currentRawTypeId, typeMaps, keys[i])
  {
    var keys := SortedKeys(group.Keys);
    var args := ArgsOf(GroupGeneric(head, group, currentRawTypeId, typeMaps));
    ArgsOfGroupGeneric(head, group, currentRawTypeId, typeMaps);
    DefinitionsInGroupOrder(group, currentRawTypeId, typeMaps);
    forall i | 0 <= i < |keys|
      ensures keys[i] in group && args[i] == MemberDefinition(group, currentRawTypeId, typeMaps, keys[i])
    {
      ArgumentAt(group, currentRawTypeId, typeMaps, i);
    }
  }

  /** The i-th definition in id order is the i-th member of the group, or the child in its place. */
  lemma ArgumentAt(group: Group, currentRawTypeId: int, typeMaps: map<int, GenericType>, i: int)
    requires currentRawTypeId in typeMaps ==> typeMaps[currentRawTypeId].id in group
    requires 0 <= i < |SortedKeys(group.Keys)|
    ensures var k := SortedKeys(group.Keys)[i];
      var vs := ValuesInKeyOrder(ArgumentDefinitions(group, currentRawTypeId, typeMaps));
      k in group && |vs| == |SortedKeys(group.Keys)| && vs[i] == MemberDefinition(group, currentRawTypeId, typeMaps, k)
  {
    DefinitionsInGroupOrder(group, currentRawTypeId, typeMaps);
    ValuesInKeyOrderAt(ArgumentDefinitions(group, currentRawTypeId, typeMaps));
    var k := SortedKeys(group.Keys)[i];
    assert k in group;
  }

  lemma ArgsOfGroupGeneric(head: ParameterType, group: Group, currentRawTypeId: int,
                           typeMaps: map<int, GenericType>)
    requires !head.isPrivate
    ensures ArgsOf(GroupGeneric(head, group, currentRawTypeId, typeMaps))
         == ValuesInKeyOrder(ArgumentDefinitions(group, currentRawTypeId, typeMaps))
  {
  }

  /** When the assembled child belongs to the group, the definitions have the group's ids. */
  lemma DefinitionsInGroupOrder(group: Group, currentRawTypeId: int, typeMaps: map<int, GenericType>)
    requires currentRawTypeId in typeMaps ==> typeMaps[currentRawTypeId].id in group
    ensures SortedKeys(ArgumentDefinitions(group, currentRawTypeId, typeMaps).Keys) == SortedKeys(group.Keys)
  {
    var defs := ArgumentDefinitions(group, currentRawTypeId, typeMaps);
    var keys := SortedKeys(group.Keys);
    var defKeys := SortedKeys(defs.Keys);
    forall x ensures x in defKeys <==> x in keys {
      assert x in defKeys <==> x in defs;
      assert x in keys <==> x in group;
    }
    IncreasingUnique(defKeys, keys);
  }

  /** What a run of buildGeneric leaves: the generics it finished, and the groups still to do. */
  datatype Assembly = Assembly(prepared: map<int, TypeDesc>, groups: Grouping)

  /** Removing a present key shrinks a map. */
  lemma RemoveShrinks<V>(m: map<int, V>, k: int)
    requires k in m
    ensures |(m - {k}).Keys| < |m.Keys|
  {
    assert (m - {k}).Keys == m.Keys - {k} by {
      assert forall j :: j in (m - {k}).Keys <==> j in m.Keys - {k};
    }
  }

  /** Removing a key leaves the other entries as they were. */
  lemma RemoveLeavesOthers<V>(m: map<int, V>, c: int)
    ensures c !in m - {c}
    ensures forall k :: k in m - {c} <==> k in m && k != c
    ensures forall k :: k in m - {c} ==> (m - {c})[k] == m[k]
  {
  }

  /** Every group holds a node (as every group of groupingBy does). */
  ghost predicate NonEmptyGroups(groups: Grouping)
  {
    forall k :: k in groups ==> |groups[k]| > 0
  }

  /**
   * buildGeneric: assembles the generic of group `currentRawTypeId`, removing the group, and,
   * when its head is itself inside a generic, records it in typeMaps for that enclosing group
   * and goes on with that group. It fails with a NullPointerException when a group it reaches
   * has been removed already or its head is not a node. On success it has consumed at least a
   * group.
   */
  function BuildGenericOf(nodes: NodeTable, groups: Grouping, currentRawTypeId: int,
                          typeMaps: map<int, GenericType>): (r: Result<Assembly>)
    ensures r.Ok? ==> |r.value.groups.Keys| < |groups.Keys|
    ensures currentRawTypeId !in groups ==> r == Err(NullPointer)
    decreases |groups.Keys|
  {
    if currentRawTypeId !in groups then Err(NullPointer)
    else
      var parameterTypes := groups[currentRawTypeId];
      var remaining := groups - {currentRawTypeId};
      RemoveShrinks(groups, currentRawTypeId);
      if |parameterTypes| == 0 then Ok(Assembly(map[], remaining))
      else if currentRawTypeId !in nodes then Err(NullPointer)
      else
        var parameterType := nodes[currentRawTypeId];
        var generic := GroupGeneric(parameterType, parameterTypes, currentRawTypeId, typeMaps);
        var parent := parameterType.rawTypeId;
        if parent == NON_RAW_TYPE then Ok(Assembly(map[currentRawTypeId := generic], remaining))
        else
          BuildGenericOf(nodes, remaining, parent, typeMaps[parent := GenericType(currentRawTypeId, parent, generic)])
  }

  /**
   * The groups a successful buildGeneric leaves: the group it started from is gone, every group
   * left is an untouched group it was given, and NON_RAW_TYPE's group stays unless it started
   * there.
   */
  lemma {:induction false} BuildGenericOfGroups(nodes: NodeTable, groups: Grouping, currentRawTypeId: int,
                                                typeMaps: map<int, GenericType>)
    ensures var r := BuildGenericOf(nodes, groups, currentRawTypeId, typeMaps);
      r.Ok? ==>
        && currentRawTypeId !in r.value.groups
        && (forall k :: k in r.value.groups ==> k in groups && r.value.groups[k] == groups[k])
        && (currentRawTypeId != NON_RAW_TYPE && NON_RAW_TYPE in groups ==> NON_RAW_TYPE in r.value.groups)
    decreases |groups.Keys|
  {
    if currentRawTypeId in groups {
      RemoveLeavesOthers(groups, currentRawTypeId);
      if |groups[currentRawTypeId]| > 0 && currentRawTypeId in nodes && nodes[currentRawTypeId].rawTypeId != NON_RAW_TYPE {
        var remaining := groups - {currentRawTypeId};
        RemoveShrinks(groups, currentRawTypeId);
        var parameterType := nodes[currentRawTypeId];
        var generic := GroupGeneric(parameterType, groups[currentRawTypeId], currentRawTypeId, typeMaps);
        var parent := parameterType.rawTypeId;
        var tm := typeMaps[parent := GenericType(currentRawTypeId, parent, generic)];
        BuildGenericOfGroups(nodes, remaining, parent, tm);
      }
    }
  }

  /**
   * What a successful buildGeneric finishes is the generic of a parameter node whose group it
   * consumed, described by that node.
   */
  lemma {:induction false} BuildGenericOfPrepared(nodes: NodeTable, groups: Grouping, currentRawTypeId: int,
                                                  typeMaps: map<int, GenericType>)
    ensures var r := BuildGenericOf(nodes, groups, currentRawTypeId, typeMaps);
      r.Ok? ==>
        forall k :: k in r.value.prepared ==>
          k in groups && k in nodes && nodes[k].rawTypeId == NON_RAW_TYPE && DescribesHead(nodes[k], r.value.prepared[k])
    decreases |groups.Keys|
  {
    if currentRawTypeId in groups {
      RemoveLeavesOthers(groups, currentRawTypeId);
      if |groups[currentRawTypeId]| > 0 && currentRawTypeId in nodes && nodes[currentRawTypeId].rawTypeId != NON_RAW_TYPE {
        var remaining := groups - {currentRawTypeId};
        RemoveShrinks(groups, currentRawTypeId);
        var parameterType := nodes[currentRawTypeId];
        var generic := GroupGeneric(parameterType, groups[currentRawTypeId], currentRawTypeId, typeMaps);
        var parent := parameterType.rawTypeId;
        var tm := typeMaps[parent := GenericType(currentRawTypeId, parent, generic)];
        BuildGenericOfPrepared(nodes, remaining, parent, tm);
      }
    }
  }

  /** With nonempty groups, a successful buildGeneric finishes every parameter node whose group it consumed. */
  lemma {:induction false} BuildGenericOfFinishes(nodes: NodeTable, groups: Grouping, currentRawTypeId: int,
                                                  typeMaps: map<int, GenericType>)
    requires NonEmptyGroups(groups)
    ensures var r := BuildGenericOf(nodes, groups, currentRawTypeId, typeMaps);
      r.Ok? ==>
        forall k :: k in groups && k !in r.value.groups && k in nodes && nodes[k].rawTypeId == NON_RAW_TYPE ==>
          k in r.value.prepared
    decreases |groups.Keys|
  {
    if currentRawTypeId in groups {
      RemoveLeavesOthers(groups, currentRawTypeId);
      if |groups[currentRawTypeId]| > 0 && currentRawTypeId in nodes && nodes[currentRawTypeId].rawTypeId != NON_RAW_TYPE {
        var remaining := groups - {currentRawTypeId};
        RemoveShrinks(groups, currentRawTypeId);
        var parameterType := nodes[currentRawTypeId];
        var generic := GroupGeneric(parameterType, groups[currentRawTypeId], currentRawTypeId, typeMaps);
        var parent := parameterType.rawTypeId;
        var tm := typeMaps[parent := GenericType(currentRawTypeId, parent, generic)];
        assert NonEmptyGroups(remaining);
        BuildGenericOfFinishes(nodes, remaining, parent, tm);
      }
    }
  }

  /**
   * The loop of preparedGenericBeforeBuildClass from a given state: while a group other than
   * NON_RAW_TYPE's is left, buildGeneric runs on the largest, and what it finished is added to
   * `prepared`.
   */
  function AssembleFrom(nodes: NodeTable, groups: Grouping, prepared: map<int, TypeDesc>): (r: Result<Assembly>)
    decreases |groups.Keys|
  {
    match MaxRawTypeId(groups.Keys)
    case None => Ok(Assembly(prepared, groups))
    case Some(currentRawTypeId) =>
      var a :- BuildGenericOf(nodes, groups, currentRawTypeId, map[]);
      AssembleFrom(nodes, a.groups, prepared + a.prepared)
  }

  /**
   * What the loop finishes comes from the groups it started with or was there before; it
   * leaves only NON_RAW_TYPE's group, which it never consumes, and with nonempty groups every
   * other parameter node's group has been finished.
   */
  lemma {:induction false} AssembleFromFacts(nodes: NodeTable, groups: Grouping, prepared: map<int, TypeDesc>)
    ensures var r := AssembleFrom(nodes, groups, prepared);
      r.Ok? ==>
        && (forall k :: k in r.value.groups ==> k == NON_RAW_TYPE && k in groups && r.value.groups[k] == groups[k])
        && (NON_RAW_TYPE in groups ==> NON_RAW_TYPE in r.value.groups && r.value.groups[NON_RAW_TYPE] == groups[NON_RAW_TYPE])
        && (forall k :: k in r.value.prepared ==> k in prepared || k in groups)
        && (forall k :: k in prepared ==> k in r.value.prepared)
        && (NonEmptyGroups(groups) ==>
              forall k :: k in groups && k != NON_RAW_TYPE && k in nodes && nodes[k].rawTypeId == NON_RAW_TYPE ==>
                k in r.value.prepared)
        && (forall k :: k in r.value.prepared ==>
              (k in prepared && r.value.prepared[k] == prepared[k]) ||
              (k in nodes && nodes[k].rawTypeId == NON_RAW_TYPE && DescribesHead(nodes[k], r.value.prepared[k])))
    decreases |groups.Keys|
  {
    match MaxRawTypeId(groups.Keys)
    case None =>
    case Some(currentRawTypeId) =>
      var built := BuildGenericOf(nodes, groups, currentRawTypeId, map[]);
      if built.Ok? {
        var a := built.value;
        BuildGenericOfGroups(nodes, groups, currentRawTypeId, map[]);
        BuildGenericOfPrepared(nodes, groups, currentRawTypeId, map[]);
        if NonEmptyGroups(groups) {
          BuildGenericOfFinishes(nodes, groups, currentRawTypeId, map[]);
        }
        AssembleFromFacts(nodes, a.groups, prepared + a.prepared);
        if NonEmptyGroups(groups) {
          assert NonEmptyGroups(a.groups);
        }
      }
  }

  /** processRemainParameterType: a private node stands for Object, with no owner type. */
  function ProcessRemainParameterType(p: ParameterType): (q: ParameterType)
    ensures q.id == p.id && q.rawTypeId == p.rawTypeId && q.isPrivate == p.isPrivate && q.isArray == p.isArray
    ensures q.cls == (if p.isPrivate then OBJECT else p.cls)
    ensures !p.isPrivate ==> q == p
  {
    if p.isPrivate then ParameterType(p.id, p.rawTypeId, OBJECT, None, p.isPrivate, p.isArray) else p
  }

  /** The remaining parameters not finished by buildGeneric, each loaded as its processed class. */
  function RemainGeneric(remainParameterType: Group, prepared: map<int, TypeDesc>): (m: map<int, TypeDesc>)
    ensures forall k :: k in m <==> k in remainParameterType && k !in prepared
    ensures forall k :: k in m ==> m[k] == ForLoadedType(ProcessRemainParameterType(remainParameterType[k]).cls)
  {
    map k | k in remainParameterType && k !in prepared ::
      ForLoadedType(ProcessRemainParameterType(remainParameterType[k]).cls)
  }

  /** The parameters' generics are keyed by the ids of parameter nodes. */
  lemma PreparedFromParameters(nodes: NodeTable, a: Assembly, remainGeneric: map<int, TypeDesc>)
    requires NON_RAW_TYPE in a.groups
    requires forall k :: k in a.groups[NON_RAW_TYPE] <==> k in nodes && nodes[k].rawTypeId == NON_RAW_TYPE
    requires forall k :: k in a.prepared ==> k in nodes && nodes[k].rawTypeId == NON_RAW_TYPE
    requires forall k :: k in remainGeneric ==> k in a.groups[NON_RAW_TYPE]
    ensures forall k :: k in a.prepared + remainGeneric ==> k in nodes && nodes[k].rawTypeId == NON_RAW_TYPE
  {
  }

  /**
   * preparedGenericBeforeBuildClass: the generics of the parameters, by the id of each
   * parameter's node. The parameters whose generic buildGeneric did not finish (plain classes,
   * in effect) are loaded as their class, Object for a private one. Without a group for
   * NON_RAW_TYPE (no parameters at all) it fails with a NullPointerException.
   */
  function PreparedGenericOf(nodes: NodeTable): (r: Result<map<int, TypeDesc>>)
    ensures r.Ok? ==> forall k :: k in r.value ==> k in nodes && nodes[k].rawTypeId == NON_RAW_TYPE
  {
    var groups := GroupByRawTypeId(nodes);
    AssembleFromFacts(nodes, groups, map[]);
    var a :- AssembleFrom(nodes, groups, map[]);
    if NON_RAW_TYPE !in a.groups then Err(NullPointer)
    else
      var remainParameterType := a.groups[NON_RAW_TYPE];
      var remainGeneric := RemainGeneric(remainParameterType, a.prepared);
      assert NON_RAW_TYPE in groups;
      PreparedFromParameters(nodes, a, remainGeneric);
      Ok(a.prepared + remainGeneric)
  }

  /** What a successful preparedGenericBeforeBuildClass is made of. */
  lemma PreparedGenericParts(nodes: NodeTable, preparedGeneric: map<int, TypeDesc>)
    requires PreparedGenericOf(nodes) == Ok(preparedGeneric)
    ensures var a := AssembleFrom(nodes, GroupByRawTypeId(nodes), map[]);
      && a.Ok? && NON_RAW_TYPE in a.value.groups
      && preparedGeneric == a.value.prepared + RemainGeneric(a.value.groups[NON_RAW_TYPE], a.value.prepared)
  {
  }

  /** The groups of any node table are nonempty. */
  lemma GroupsNonEmpty(nodes: NodeTable)
    ensures NonEmptyGroups(GroupByRawTypeId(nodes))
  {
    var groups := GroupByRawTypeId(nodes);
    forall r | r in groups ensures |groups[r]| > 0 {
      var k :| k in nodes && nodes[k].rawTypeId == r;
      assert k in groups[r];
    }
  }

  /**
   * On the node table of a walk of the parameters, the prepared generics are keyed by exactly
   * the parameters' nodes; a parameter node without children is loaded as its processed class,
   * and one with children gets the generic buildGeneric assembled for it.
   */
  lemma PreparedGenericCoversParameters(l: Linear, preparedGeneric: map<int, TypeDesc>)
    requires Tagged(l, 0, NON_RAW_TYPE)
    requires PreparedGenericOf(l.nodes) == Ok(preparedGeneric)
    ensures SortedKeys(preparedGeneric.Keys) == l.roots
    ensures forall k :: k in preparedGeneric && !HasChildren(l.nodes, k) ==>
      preparedGeneric[k] == ForLoadedType(ProcessRemainParameterType(l.nodes[k]).cls)
    ensures forall k :: k in preparedGeneric && HasChildren(l.nodes, k) ==>
      DescribesHead(l.nodes[k], preparedGeneric[k])
  {
    var nodes := l.nodes;
    var groups := GroupByRawTypeId(nodes);
    GroupsNonEmpty(nodes);
    AssembleFromFacts(nodes, groups, map[]);
    PreparedGenericParts(nodes, preparedGeneric);
    var a := AssembleFrom(nodes, groups, map[]).value;
    var remainParameterType := a.groups[NON_RAW_TYPE];
    var remainGeneric := RemainGeneric(remainParameterType, a.prepared);
    assert NON_RAW_TYPE in groups;
    assert remainParameterType == GroupOf(nodes, NON_RAW_TYPE);
    forall x ensures x in SortedKeys(preparedGeneric.Keys) <==> x in l.roots {
      if x in l.roots {
        var i :| 0 <= i < |l.roots| && l.roots[i] == x;
        assert x in nodes;
        assert x in remainParameterType;
      }
      if x in a.prepared {
        assert x in nodes && nodes[x].rawTypeId == NON_RAW_TYPE;
      }
    }
    IncreasingUnique(SortedKeys(preparedGeneric.Keys), l.roots);
    forall k | k in preparedGeneric && !HasChildren(nodes, k)
      ensures preparedGeneric[k] == ForLoadedType(ProcessRemainParameterType(nodes[k]).cls)
    {
      assert k !in groups;
      assert k !in a.prepared;
    }
    forall k | k in preparedGeneric && HasChildren(nodes, k)
      ensures DescribesHead(nodes[k], preparedGeneric[k])
    {
      var j :| j in nodes && nodes[j].rawTypeId == k;
      assert k in groups;
      assert k in nodes && nodes[k].rawTypeId == NON_RAW_TYPE;
      assert k in a.prepared;
    }
  }

  /** The rawTypeIdGroupingMap of preparedGenericBeforeBuildClass, from which buildGeneric removes groups. */
  class RawTypeIdGroupingMap {
    var groups: Grouping

    constructor (parameterTypeMap: NodeTable)
      ensures groups == GroupByRawTypeId(parameterTypeMap)
    {
      groups := GroupByRawTypeId(parameterTypeMap);
    }
  }

  /**
   * buildGeneric, removing from the grouping map every group it consumes. The typeMaps it
   * threads through its recursion is passed by value: each recursive call reads only the entry
   * put just before it.
   */
  method BuildGeneric(parameterTypeMap: NodeTable, rawTypeIdGroupingMap: RawTypeIdGroupingMap,
                      currentRawTypeId: int, typeMaps: map<int, GenericType>)
    returns (r: Result<map<int, TypeDesc>>)
    modifies rawTypeIdGroupingMap
    ensures var spec := BuildGenericOf(parameterTypeMap, old(rawTypeIdGroupingMap.groups), currentRawTypeId, typeMaps);
      && (spec.Ok? ==> r == Ok(spec.value.prepared) && rawTypeIdGroupingMap.groups == spec.value.groups)
      && (spec.Err? ==> r == Err(spec.error))
    decreases |rawTypeIdGroupingMap.groups.Keys|
  {
    var preparedGeneric: map<int, TypeDesc> := map[];
    if currentRawTypeId !in rawTypeIdGroupingMap.groups {
      return Err(NullPointer);
    }
    var parameterTypes := rawTypeIdGroupingMap.groups[currentRawTypeId];
    RemoveShrinks(rawTypeIdGroupingMap.groups, currentRawTypeId);
    rawTypeIdGroupingMap.groups := rawTypeIdGroupingMap.groups - {currentRawTypeId};
    if |parameterTypes| > 0 {
      if currentRawTypeId !in parameterTypeMap {
        return Err(NullPointer);
      }
      var parameterType := parameterTypeMap[currentRawTypeId];
      var generic := GroupGeneric(parameterType, parameterTypes, currentRawTypeId, typeMaps);
      var parentRowTypeId := parameterType.rawTypeId;
      if parentRowTypeId == NON_RAW_TYPE {
        preparedGeneric := preparedGeneric[currentRawTypeId := generic];
      } else {
        var built := BuildGeneric(parameterTypeMap, rawTypeIdGroupingMap, parentRowTypeId,
                                  typeMaps[parentRowTypeId := GenericType(currentRawTypeId, parentRowTypeId, generic)]);
        if built.Err? {
          return built;
        }
        EmptyUnion(built.value);
        preparedGeneric := preparedGeneric + built.value;
      }
    }
    return Ok(preparedGeneric);
  }

  /**
   * preparedGenericBeforeBuildClass: groups the nodes, runs buildGeneric on the largest group
   * left until only NON_RAW_TYPE's group remains, then loads the parameters not finished.
   */
  method PreparedGenericBeforeBuildClass(parameterTypeMap: NodeTable) returns (r: Result<map<int, TypeDesc>>)
    ensures r == PreparedGenericOf(parameterTypeMap)
  {
    var rawTypeIdGroupingMap := new RawTypeIdGroupingMap(parameterTypeMap);
    var preparedGeneric: map<int, TypeDesc> := map[];
    ghost var spec := AssembleFrom(parameterTypeMap, rawTypeIdGroupingMap.groups, preparedGeneric);
    var currentRawTypeId := MaxRawTypeId(rawTypeIdGroupingMap.groups.Keys);
    while currentRawTypeId.Some?
      invariant spec == AssembleFrom(parameterTypeMap, rawTypeIdGroupingMap.groups, preparedGeneric)
      invariant currentRawTypeId == MaxRawTypeId(rawTypeIdGroupingMap.groups.Keys)
      decreases |rawTypeIdGroupingMap.groups.Keys|
    {
      ghost var groups := rawTypeIdGroupingMap.groups;
      var built := BuildGeneric(parameterTypeMap, rawTypeIdGroupingMap, currentRawTypeId.value, map[]);
      AssembleStep(parameterTypeMap, groups, preparedGeneric, currentRawTypeId.value);
      if built.Err? {
        return Err(built.error);
      }
      preparedGeneric := preparedGeneric + built.value;
      currentRawTypeId := MaxRawTypeId(rawTypeIdGroupingMap.groups.Keys);
    }
    PreparedGenericFrom(parameterTypeMap, rawTypeIdGroupingMap.groups, preparedGeneric);
    if NON_RAW_TYPE !in rawTypeIdGroupingMap.groups {
      return Err(NullPointer);
    }
    var remainParameterType := rawTypeIdGroupingMap.groups[NON_RAW_TYPE];
    var remainGeneric := RemainGeneric(remainParameterType, preparedGeneric);
    return Ok(preparedGeneric + remainGeneric);
  }

  /** One turn of the loop of preparedGenericBeforeBuildClass. */
  lemma AssembleStep(nodes: NodeTable, groups: Grouping, prepared: map<int, TypeDesc>, currentRawTypeId: int)
    requires MaxRawTypeId(groups.Keys) == Some(currentRawTypeId)
    ensures var built := BuildGenericOf(nodes, groups, currentRawTypeId, map[]);
      AssembleFrom(nodes, groups, prepared)
        == if built.Err? then Err(built.error) else AssembleFrom(nodes, built.value.groups, prepared + built.value.prepared)
  {
  }

  /** What preparedGenericBeforeBuildClass does once the loop has left only NON_RAW_TYPE's group. */
  lemma PreparedGenericFrom(nodes: NodeTable, groups: Grouping, prepared: map<int, TypeDesc>)
    requires MaxRawTypeId(groups.Keys).None?
    requires AssembleFrom(nodes, GroupByRawTypeId(nodes), map[]) == AssembleFrom(nodes, groups, prepared)
    ensures PreparedGenericOf(nodes)
         == if NON_RAW_TYPE !in groups then Err(NullPointer)
            else Ok(prepared + RemainGeneric(groups[NON_RAW_TYPE], prepared))
  {
    assert AssembleFrom(nodes, groups, prepared) == Ok(Assembly(prepared, groups));
  }

  // ----- buildClass and build -----

  /**
   * buildClass: one property per prepared generic, in id order, named by the parameter name at
   * the same position; an ArrayIndexOutOfBoundsException when there are fewer names than generics.
   */
  function CarrierOf(parameterNames: seq<string>, preparedGeneric: map<int, TypeDesc>): (r: Result<Carrier>)
    ensures r.Err? <==> |parameterNames| < |preparedGeneric.Keys|
    ensures r.Err? ==> r.error == IndexOutOfBounds
    ensures r.Ok? ==> r.value.Synthesized? && |r.value.fields| == |preparedGeneric.Keys|
  {
    var generics := ValuesInKeyOrder(preparedGeneric);
    if |parameterNames| < |generics| then Err(IndexOutOfBounds)
    else Ok(Synthesized(FieldsFor(parameterNames, generics)))
  }

  /** The i-th property of the built class carries the i-th name and the generic under the i-th smallest id. */
  lemma CarrierInIdOrder(parameterNames: seq<string>, preparedGeneric: map<int, TypeDesc>)
    requires CarrierOf(parameterNames, preparedGeneric).Ok?
    ensures var keys := SortedKeys(preparedGeneric.Keys);
      var fields := CarrierOf(parameterNames, preparedGeneric).value.fields;
      && |fields| == |keys|
      && forall i :: 0 <= i < |keys| ==>
           keys[i] in preparedGeneric && fields[i] == CarrierField(parameterNames[i], preparedGeneric[keys[i]])
  {
    ValuesInKeyOrderAt(preparedGeneric);
  }

  /** The properties of the built class: the i-th generic under the i-th name. */
  function FieldsFor(parameterNames: seq<string>, generics: seq<TypeDesc>): (fields: seq<CarrierField>)
    requires |generics| <= |parameterNames|
    ensures |fields| == |generics|
    ensures forall i :: 0 <= i < |generics| ==> fields[i] == CarrierField(parameterNames[i], generics[i])
  {
    seq(|generics|, i requires 0 <= i < |generics| => CarrierField(parameterNames[i], generics[i]))
  }

  lemma FieldsAppend(fields: seq<CarrierField>, f: CarrierField)
    ensures |fields + [f]| == |fields| + 1 && (fields + [f])[|fields|] == f
    ensures forall i :: 0 <= i < |fields| ==> (fields + [f])[i] == fields[i]
  {
  }

  lemma CarrierOfValues(parameterNames: seq<string>, preparedGeneric: map<int, TypeDesc>)
    ensures var generics := ValuesInKeyOrder(preparedGeneric);
      CarrierOf(parameterNames, preparedGeneric)
        == if |parameterNames| < |generics| then Err(IndexOutOfBounds) else Ok(Synthesized(FieldsFor(parameterNames, generics)))
  {
  }

  /** buildClass, defining the properties one entry of the prepared generics at a time, in id order. */
  method BuildClass(parameterNames: seq<string>, preparedGeneric: map<int, TypeDesc>) returns (r: Result<Carrier>)
    ensures r == CarrierOf(parameterNames, preparedGeneric)
  {
    var generics := ValuesInKeyOrder(preparedGeneric);
    var fields := DefineProperties(parameterNames, generics);
    CarrierOfValues(parameterNames, preparedGeneric);
    if fields.Err? {
      return Err(fields.error);
    }
    return Ok(Synthesized(fields.value));
  }

  /** The loop of buildClass over the generics in id order, the name index running alongside. */
  method DefineProperties(parameterNames: seq<string>, generics: seq<TypeDesc>) returns (r: Result<seq<CarrierField>>)
    ensures r == if |parameterNames| < |generics| then Err(IndexOutOfBounds) else Ok(FieldsFor(parameterNames, generics))
  {
    var dynamicBuilder: seq<CarrierField> := [];
    var index := 0;
    for j := 0 to |generics|
      invariant index == j <= |parameterNames|
      invariant |dynamicBuilder| == j
      invariant forall i :: 0 <= i < j ==> dynamicBuilder[i] == CarrierField(parameterNames[i], generics[i])
    {
      var currentIndex := index;
      index := index + 1;
      if currentIndex >= |parameterNames| {
        return Err(IndexOutOfBounds);
      }
      FieldsAppend(dynamicBuilder, CarrierField(parameterNames[currentIndex], generics[j]));
      dynamicBuilder := dynamicBuilder + [CarrierField(parameterNames[currentIndex], generics[j])];
    }
    assert dynamicBuilder == FieldsFor(parameterNames, generics);
    return Ok(dynamicBuilder);
  }

  /**
   * The class built for parameters of these types, named by `parameterNames`, under these
   * type-variable bindings: the walk, the assembly, then buildClass.
   */
  function ExampleCarrier(ct: ClassTable, parameterTypes: seq<JType>, parameterNames: seq<string>,
                          genericTypeMap: GenericTypeMap, fuel: nat): Result<Carrier>
  {
    var walk :- LinearizedAll(ct, PlainProperties(parameterTypes), 0, NON_RAW_TYPE, genericTypeMap, fuel);
    var preparedGeneric :- PreparedGenericOf(walk.nodes);
    CarrierOf(parameterNames, preparedGeneric)
  }

  /**
   * The parameter names build uses: those the local-variable-table discoverer found, or else the
   * names reflection gives the parameters.
   */
  function ParameterNamesOf(discovered: Option<seq<string>>, m: MethodRef): (names: seq<string>)
    ensures discovered.Some? && |discovered.value| > 0 ==> names == discovered.value
    ensures discovered.None? || |discovered.value| == 0 ==> names == m.parameterNames
  {
    if discovered.None? || |discovered.value| == 0 then m.parameterNames else discovered.value
  }

  /** build(Method, Class): the example class of a method invoked on a bean of class `clazz`. */
  function ExampleClassOf(ct: ClassTable, m: MethodRef, clazz: ClassRef, discovered: Option<seq<string>>,
                          fuel: nat): (r: Result<Carrier>)
    requires WellFormed(ct)
    ensures |ParameterNamesOf(discovered, m)| == 0 ==> r == Ok(SwaggerExample)
  {
    var parameterNames := ParameterNamesOf(discovered, m);
    if |parameterNames| == 0 then Ok(SwaggerExample)
    else ExampleCarrier(ct, m.genericParameterTypes, parameterNames, GenericTypeMapOf(ct, Class(clazz)), fuel)
  }

  /** Wraps each type as a TypeProperty that is not under an array, into a fresh array. */
  method TypeProperties(parameterTypes: seq<JType>) returns (typeProperties: array<TypeProperty>)
    ensures fresh(typeProperties) && typeProperties[..] == PlainProperties(parameterTypes)
  {
    var size := |parameterTypes|;
    typeProperties := new TypeProperty[size](i => TypeProperty(Class(OBJECT), false));
    for i := 0 to size
      invariant forall j :: 0 <= j < i ==> typeProperties[j] == TypeProperty(parameterTypes[j], false)
    {
      typeProperties[i] := TypeProperty(parameterTypes[i], false);
    }
  }

  /**
   * build(Method, Class). The discoverer's answer is a parameter; with no parameter names the
   * class is SwaggerExample itself.
   */
  method Build(ct: ClassTable, m: MethodRef, clazz: ClassRef, discovered: Option<seq<string>>, fuel: nat)
    returns (r: Result<Carrier>)
    requires WellFormed(ct)
    ensures r == ExampleClassOf(ct, m, clazz, discovered, fuel)
  {
    var parameterNames := ParameterNamesOf(discovered, m);
    if |parameterNames| == 0 {
      return Ok(SwaggerExample);
    }
    var typeProperties := TypeProperties(m.genericParameterTypes);
    var genericTypeMap := GetGenericTypeMap(ct, Class(clazz));
    var id := new AtomicInteger(0);
    var parameterTypeMap := ProcessParameterTypes(ct, typeProperties[..], id, NON_RAW_TYPE, genericTypeMap, fuel);
    if parameterTypeMap.Err? {
      return Err(parameterTypeMap.error);
    }
    var preparedGeneric := PreparedGenericBeforeBuildClass(parameterTypeMap.value);
    if preparedGeneric.Err? {
      return Err(preparedGeneric.error);
    }
    r := BuildClass(parameterNames, preparedGeneric.value);
  }

  /** The names build(Type[]) gives its parameters: arg0, arg1, ... */
  function ArgNames(n: nat): (names: seq<string>)
    ensures |names| == n && forall i :: 0 <= i < n ==> names[i] == "arg" + NatToString(i)
  {
    seq(n, i requires 0 <= i < n => "arg" + NatToString(i))
  }

  /** The loop of build(Type[]) that names the parameters. */
  method NameArguments(parameterNum: nat) returns (parameterNames: array<string>)
    ensures fresh(parameterNames) && parameterNames[..] == ArgNames(parameterNum)
  {
    parameterNames := new string[parameterNum](i => "");
    for i := 0 to parameterNum
      invariant forall j :: 0 <= j < i ==> parameterNames[j] == "arg" + NatToString(j)
    {
      parameterNames[i] := "arg" + NatToString(i);
    }
  }

  /** build(Type[]): no type-variable bindings, the parameters named arg0, arg1, ... */
  method BuildFromTypes(ct: ClassTable, parameterTypes: seq<JType>, fuel: nat) returns (r: Result<Carrier>)
    ensures r == ExampleCarrier(ct, parameterTypes, ArgNames(|parameterTypes|), map[], fuel)
  {
    var parameterNum := |parameterTypes|;
    var typeProperties := TypeProperties(parameterTypes);
    var id := new AtomicInteger(0);
    var parameterTypeMap := ProcessParameterTypes(ct, typeProperties[..], id, NON_RAW_TYPE, map[], fuel);
    if parameterTypeMap.Err? {
      return Err(parameterTypeMap.error);
    }
    var preparedGeneric := PreparedGenericBeforeBuildClass(parameterTypeMap.value);
    if preparedGeneric.Err? {
      return Err(preparedGeneric.error);
    }
    var parameterNames := NameArguments(parameterNum);
    r := BuildClass(parameterNames[..], preparedGeneric.value);
  }

  // ----- two behaviours of the code as written -----

  /** build(Type[]) with no types: the walk yields no node, so there is no NON_RAW_TYPE group to read. */
  lemma NoParametersFail(ct: ClassTable, parameterNames: seq<string>, genericTypeMap: GenericTypeMap, fuel: nat)
    ensures ExampleCarrier(ct, [], parameterNames, genericTypeMap, fuel) == Err(NullPointer)
  {
    assert PlainProperties([]) == [];
    var nodes: NodeTable := map[];
    var groups := GroupByRawTypeId(nodes);
    assert NON_RAW_TYPE !in groups;
    assert MaxRawTypeId(groups.Keys) == None;
  }

  /** A class table in which the classes A and B are plain, visible classes. */
  const PLAIN_TABLE: ClassTable := ClassTable(map[], (a: ClassRef, b: ClassRef) => a == b)

  const LIST_OF_A: JType := Param("java.util.List", None, [Class(Named("A"))])
  const LIST_OF_B: JType := Param("java.util.List", None, [Class(Named("B"))])

  /** Map<List<A>, List<B>>. */
  const MAP_OF_LISTS: JType := Param("java.util.Map", None, [LIST_OF_A, LIST_OF_B])

  /**
   * A parameter of type Map<List<A>, List<B>> ends in a NullPointerException. The walk numbers
   * Map 1, List 2, A 3, List 4, B 5. The first buildGeneric starts at group 4 (B), finishes
   * List<B> and goes on to group 1, which it consumes, finishing Map<List, List<B>> for the
   * parameter. The next one starts at group 2 (A), finishes List<A> and goes on to group 1,
   * which is no longer there.
   */
  lemma SiblingGenericsFail(parameterNames: seq<string>)
    ensures ExampleCarrier(PLAIN_TABLE, [MAP_OF_LISTS], parameterNames, map[], 2) == Err(NullPointer)
  {
    MapOfListsWalk();
    var walk := LinearizedAll(PLAIN_TABLE, PlainProperties([MAP_OF_LISTS]), 0, NON_RAW_TYPE, map[], 2).value;
    assert MapOfListsNodes(walk.nodes);
    MapOfListsAssemblyFails(walk.nodes);
  }

  /** The nodes of the walk of List<C> inside generic `rawTypeId`, the counter at `start`. */
  function ListNodes(c: ClassName, start: int, rawTypeId: int): NodeTable
  {
    map[start + 1 := ParameterType(start + 1, rawTypeId, Named("java.util.List"), None, false, false)]
    + (map[start + 2 := ParameterType(start + 2, start + 1, Named(c), None, false, false)] + map[])
  }

  /** The walk of List<C> inside generic `rawTypeId`, the counter at `start`: List, then C. */
  lemma ListWalk(c: ClassName, start: int, rawTypeId: int)
    ensures Linearized(PLAIN_TABLE, TypeProperty(Param("java.util.List", None, [Class(Named(c))]), false),
                       start, rawTypeId, map[], 1)
         == Ok(Linear(ListNodes(c, start, rawTypeId), start + 2, [start + 1]))
  {
    var props := PlainProperties([Class(Named(c))]);
    assert props[1..] == [];
    assert LinearizedAll(PLAIN_TABLE, props, start + 1, start + 1, map[], 0)
        == Ok(Linear(map[start + 2 := ParameterType(start + 2, start + 1, Named(c), None, false, false)] + map[],
                     start + 2, [start + 2] + []));
  }

  /** The walk of the type arguments List<A>, List<B> of the Map, as the union of the two list walks. */
  lemma MapArgumentsUnion()
    ensures LinearizedAll(PLAIN_TABLE, PlainProperties([LIST_OF_A, LIST_OF_B]), 1, 1, map[], 1)
         == Ok(Linear(ListNodes("A", 1, 1) + (ListNodes("B", 3, 1) + map[]), 5, [2] + ([4] + [])))
  {
    var ct := PLAIN_TABLE;
    ListWalk("A", 1, 1);
    ListWalk("B", 3, 1);
    var args := PlainProperties([LIST_OF_A, LIST_OF_B]);
    assert args[0] == TypeProperty(LIST_OF_A, false);
    assert args[1..] == [TypeProperty(LIST_OF_B, false)];
    assert args[1..][1..] == [];
    assert LinearizedAll(ct, args[1..], 3, 1, map[], 1) == Ok(Linear(ListNodes("B", 3, 1) + map[], 5, [4] + []));
  }

  /** The walk of the type arguments List<A>, List<B> of the Map, inside its node 1. */
  lemma MapArgumentsWalk()
    ensures var w := LinearizedAll(PLAIN_TABLE, PlainProperties([LIST_OF_A, LIST_OF_B]), 1, 1, map[], 1);
      && w.Ok? && w.value.next == 5
      && (forall k :: k in w.value.nodes <==> 2 <= k <= 5)
      && w.value.nodes[2] == ParameterType(2, 1, Named("java.util.List"), None, false, false)
      && w.value.nodes[3] == ParameterType(3, 2, Named("A"), None, false, false)
      && w.value.nodes[4] == ParameterType(4, 1, Named("java.util.List"), None, false, false)
      && w.value.nodes[5] == ParameterType(5, 4, Named("B"), None, false, false)
  {
    MapArgumentsUnion();
    var nodes := ListNodes("A", 1, 1) + (ListNodes("B", 3, 1) + map[]);
    assert forall k :: k in nodes <==> 2 <= k <= 5;
  }

  /** The node table of the walk of Map<List<A>, List<B>>. */
  lemma MapOfListsWalk()
    ensures var w := LinearizedAll(PLAIN_TABLE, PlainProperties([MAP_OF_LISTS]), 0, NON_RAW_TYPE, map[], 2);
      && w.Ok?
      && (forall k :: k in w.value.nodes <==> 1 <= k <= 5)
      && w.value.nodes[1] == ParameterType(1, -1, Named("java.util.Map"), None, false, false)
      && w.value.nodes[2] == ParameterType(2, 1, Named("java.util.List"), None, false, false)
      && w.value.nodes[3] == ParameterType(3, 2, Named("A"), None, false, false)
      && w.value.nodes[4] == ParameterType(4, 1, Named("java.util.List"), None, false, false)
      && w.value.nodes[5] == ParameterType(5, 4, Named("B"), None, false, false)
  {
    var ct := PLAIN_TABLE;
    MapArgumentsWalk();
    var wArgs := LinearizedAll(ct, PlainProperties([LIST_OF_A, LIST_OF_B]), 1, 1, map[], 1).value;
    var wMap := Linear(map[1 := ParameterType(1, -1, Named("java.util.Map"), None, false, false)] + wArgs.nodes, 5, [1]);
    assert Linearized(ct, TypeProperty(MAP_OF_LISTS, false), 0, -1, map[], 2) == Ok(wMap);
    var top := PlainProperties([MAP_OF_LISTS]);
    assert top[1..] == [];
    assert LinearizedAll(ct, top, 0, NON_RAW_TYPE, map[], 2) == Ok(Linear(wMap.nodes + map[], 5, [1] + []));
  }

  /** The nodes the walk of Map<List<A>, List<B>> yields. */
  ghost predicate MapOfListsNodes(nodes: NodeTable)
  {
    && (forall k :: k in nodes <==> 1 <= k <= 5)
    && nodes[1] == ParameterType(1, -1, Named("java.util.Map"), None, false, false)
    && nodes[2] == ParameterType(2, 1, Named("java.util.List"), None, false, false)
    && nodes[3] == ParameterType(3, 2, Named("A"), None, false, false)
    && nodes[4] == ParameterType(4, 1, Named("java.util.List"), None, false, false)
    && nodes[5] == ParameterType(5, 4, Named("B"), None, false, false)
  }

  /** The assembly of the Map<List<A>, List<B>> walk reaches the consumed group 1 a second time. */
  lemma MapOfListsAssemblyFails(nodes: NodeTable)
    requires MapOfListsNodes(nodes)
    ensures PreparedGenericOf(nodes) == Err(NullPointer)
  {
    var groups := GroupByRawTypeId(nodes);
    MapOfListsGroups(nodes, groups);
    var first := FirstRoundConsumes(nodes, groups);
    AfterFirstRound(groups, first.groups);
    SecondRoundFails(nodes, first.groups, first.prepared);
    FirstRoundThenSecond(nodes, groups, first);
  }

  /** The loop: its first round starts at the largest group, 4. */
  lemma FirstRoundThenSecond(nodes: NodeTable, groups: Grouping, first: Assembly)
    requires forall r :: r in groups <==> r == -1 || r == 1 || r == 2 || r == 4
    requires BuildGenericOf(nodes, groups, 4, map[]) == Ok(first)
    requires AssembleFrom(nodes, first.groups, map[] + first.prepared) == Err(NullPointer)
    ensures AssembleFrom(nodes, groups, map[]) == Err(NullPointer)
  {
    var m := MaxRawTypeId(groups.Keys);
    assert 4 in groups.Keys;
    assert m.value in groups && m.value >= 4;
  }

  /** The groups of the Map<List<A>, List<B>> walk, as far as the assembly looks at them. */
  lemma MapOfListsGroups(nodes: NodeTable, groups: Grouping)
    requires MapOfListsNodes(nodes)
    requires groups == GroupByRawTypeId(nodes)
    ensures forall r :: r in groups <==> r == -1 || r == 1 || r == 2 || r == 4
    ensures |groups[4]| > 0 && |groups[1]| > 0 && |groups[2]| > 0
  {
    GroupKeys(nodes, groups, nodes[1], nodes[2], nodes[3], nodes[4], nodes[5]);
    assert 5 in groups[4] && 2 in groups[1] && 3 in groups[2];
  }

  /** After the first round, groups -1 and 2 remain. */
  lemma AfterFirstRound(groups: Grouping, g2: Grouping)
    requires forall r :: r in groups <==> r == -1 || r == 1 || r == 2 || r == 4
    requires |groups[2]| > 0
    requires g2 == (groups - {4}) - {1}
    ensures forall k :: k in g2 <==> k == -1 || k == 2
    ensures |g2[2]| > 0
  {
    RemoveKeeps(groups, 4, 2);
    RemoveKeeps(groups - {4}, 1, 2);
  }

  /** The first buildGeneric, from group 4, consumes groups 4 and 1. */
  lemma FirstRoundConsumes(nodes: NodeTable, groups: Grouping) returns (first: Assembly)
    requires MapOfListsNodes(nodes)
    requires 4 in groups && |groups[4]| > 0 && 1 in groups && |groups[1]| > 0
    ensures BuildGenericOf(nodes, groups, 4, map[]) == Ok(first)
    ensures first.groups == (groups - {4}) - {1}
  {
    var tm := map[1 := GenericType(4, 1, GroupGeneric(nodes[4], groups[4], 4, map[]))];
    FromGroupFour(nodes, groups, tm);
    RemoveKeeps(groups, 4, 1);
    first := OnToGroupOne(nodes, groups - {4}, tm);
  }

  /** Removing one key keeps another. */
  lemma RemoveKeeps<V>(m: map<int, V>, k: int, j: int)
    requires j in m && j != k
    ensures j in m - {k} && (m - {k})[j] == m[j]
  {
  }

  lemma FromGroupFour(nodes: NodeTable, groups: Grouping, tm: map<int, GenericType>)
    requires MapOfListsNodes(nodes)
    requires 4 in groups && |groups[4]| > 0
    requires tm == map[1 := GenericType(4, 1, GroupGeneric(nodes[4], groups[4], 4, map[]))]
    ensures BuildGenericOf(nodes, groups, 4, map[]) == BuildGenericOf(nodes, groups - {4}, 1, tm)
  {
  }

  lemma OnToGroupOne(nodes: NodeTable, g1: Grouping, tm: map<int, GenericType>) returns (first: Assembly)
    requires MapOfListsNodes(nodes)
    requires 1 in g1 && |g1[1]| > 0
    ensures BuildGenericOf(nodes, g1, 1, tm) == Ok(first) && first.groups == g1 - {1}
  {
    first := Assembly(map[1 := GroupGeneric(nodes[1], g1[1], 1, tm)], g1 - {1});
  }

  /** The second buildGeneric, from group 2, goes on to group 1, which the first one removed. */
  lemma SecondRoundFails(nodes: NodeTable, g2: Grouping, prepared: map<int, TypeDesc>)
    requires MapOfListsNodes(nodes)
    requires forall k :: k in g2 <==> k == -1 || k == 2
    requires |g2[2]| > 0
    ensures AssembleFrom(nodes, g2, map[] + prepared) == Err(NullPointer)
  {
    var m2 := MaxRawTypeId(g2.Keys);
    assert 2 in g2.Keys;
    assert m2.value in g2 && m2.value >= 2;
    assert 1 !in g2 - {2};
    assert BuildGenericOf(nodes, g2, 2, map[]) == Err(NullPointer);
  }

  /** The groups of the Map<List<A>, List<B>> walk: Map's (-1), List<A>'s and List<B>'s (1), A's (2), B's (4). */
  lemma GroupKeys(nodes: NodeTable, groups: Grouping, n1: ParameterType, n2: ParameterType,
                  n3: ParameterType, n4: ParameterType, n5: ParameterType)
    requires forall k :: k in nodes <==> 1 <= k <= 5
    requires nodes[1] == n1 && nodes[2] == n2 && nodes[3] == n3 && nodes[4] == n4 && nodes[5] == n5
    requires n1.rawTypeId == -1 && n2.rawTypeId == 1 && n3.rawTypeId == 2 && n4.rawTypeId == 1 && n5.rawTypeId == 4
    requires groups == GroupByRawTypeId(nodes)
    ensures forall r :: r in groups <==> r == -1 || r == 1 || r == 2 || r == 4
  {
    forall r ensures r in groups <==> r == -1 || r == 1 || r == 2 || r == 4 {
      if r in groups {
        var k :| k in nodes && nodes[k].rawTypeId == r;
        assert k == 1 || k == 2 || k == 3 || k == 4 || k == 5;
      }
      if r == -1 { assert nodes[1].rawTypeId == r; }
      if r == 1 { assert nodes[2].rawTypeId == r; }
      if r == 2 { assert nodes[3].rawTypeId == r; }
      if r == 4 { assert nodes[5].rawTypeId == r; }
    }
  }
}
