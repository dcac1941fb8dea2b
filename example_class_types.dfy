/**
 * What the example class builder makes of a type, said on the type itself rather than on the
 * walk's node table: the class or parameterized type it resolves to, how many ids its walk
 * draws, and the type description its field gets. The lemmas here tie each of these to the
 * walk (processParameterTypes) and, for parameter lists in which no parameterized type has
 * two parameterized type arguments, to the assembly (preparedGenericBeforeBuildClass,
 * buildGeneric) and the carrier buildClass defines.
 */
module ExampleClassTypes {
  import opened JavaTypes
  import opened IntSets
  import opened ReflectUtils
  import opened ExampleClassBuilder

  // ----- The types, followed as the walk follows them -----

  /** The type variables, wildcards and generic arrays: the forms the walk resolves before going on. */
  predicate Resolving(t: JType)
  {
    t.TypeVar? || t.Wildcard? || t.GenericArray?
  }

  /**
   * One step of resolution: a type variable becomes its binding, a wildcard its bound, and a
   * generic array its component type, under the array flag.
   */
  function ResolveStep(ct: ClassTable, tp: TypeProperty, bindings: GenericTypeMap): Result<TypeProperty>
    requires Resolving(tp.t)
  {
    match tp.t
    case TypeVar(name, decl) =>
      var g :- TypeVariableBinding(ct, name, decl, bindings);
      Ok(TypeProperty(g, tp.isArray))
    case Wildcard(lower, upper) => Ok(TypeProperty(WildcardBound(lower, upper), tp.isArray))
    case GenericArray(comp) => Ok(TypeProperty(comp, true))
  }

  /** Following type variables, wildcards and generic arrays from the property passes through a generic array. */
  predicate MeetsGenericArray(ct: ClassTable, tp: TypeProperty, bindings: GenericTypeMap, fuel: nat)
    decreases fuel
  {
    Resolving(tp.t) &&
      (tp.t.GenericArray? ||
       var next := ResolveStep(ct, tp, bindings);
       next.Ok? && fuel > 0 && MeetsGenericArray(ct, next.value, bindings, fuel - 1))
  }

  /**
   * The class or parameterized type a property comes to once type variables, wildcards and
   * generic arrays are followed as the walk follows them, with the array flag a generic
   * array sets on the way.
   */
  function Resolved(ct: ClassTable, tp: TypeProperty, bindings: GenericTypeMap, fuel: nat): (r: Result<TypeProperty>)
    ensures r.Ok? ==> r.value.t.Class? || r.value.t.Param?
    ensures r.Ok? && !Resolving(tp.t) ==> r.value == tp
    ensures r.Ok? ==> (r.value.isArray <==> tp.isArray || MeetsGenericArray(ct, tp, bindings, fuel))
    decreases fuel
  {
    if !Resolving(tp.t) then Ok(tp)
    else
      var next :- ResolveStep(ct, tp, bindings);
      if fuel == 0 then Err(StackOverflow) else Resolved(ct, next, bindings, fuel - 1)
  }

  /** The property resolves to a parameterized type with type arguments, which the assembly builds as a generic. */
  predicate IsGenericArgument(ct: ClassTable, tp: TypeProperty, bindings: GenericTypeMap, fuel: nat)
  {
    var r := Resolved(ct, tp, bindings, fuel);
    r.Ok? && r.value.t.Param? && |r.value.t.args| > 0
  }

  /** The number of entries the walk of a property visits, one id each: the property, what it resolves to, and the type arguments. */
  function EntryCount(ct: ClassTable, tp: TypeProperty, bindings: GenericTypeMap, fuel: nat): (r: Result<nat>)
    ensures r.Ok? ==> r.value >= 1
    ensures r.Ok? && tp.t.Class? ==> r.value == 1
    decreases fuel, 0
  {
    if tp.t.Class? then Ok(1)
    else if tp.t.Param? then
      if fuel == 0 then Err(StackOverflow)
      else
        var n :- EntryCountAll(ct, PlainProperties(tp.t.args), bindings, fuel - 1);
        Ok(1 + n)
    else
      var next :- ResolveStep(ct, tp, bindings);
      if fuel == 0 then Err(StackOverflow)
      else
        var n :- EntryCount(ct, next, bindings, fuel - 1);
        Ok(1 + n)
  }

  /** The entries the walks of several properties visit, together. */
  function EntryCountAll(ct: ClassTable, props: seq<TypeProperty>, bindings: GenericTypeMap, fuel: nat): (r: Result<nat>)
    ensures r.Ok? ==> r.value >= |props|
    decreases fuel, |props| + 1
  {
    if |props| == 0 then Ok(0)
    else
      var n :- EntryCount(ct, props[0], bindings, fuel);
      var m :- EntryCountAll(ct, props[1..], bindings, fuel);
      Ok(n + m)
  }

  /** A parameterized description, as an array under a generic array. */
  function Arrayed(isArray: bool, d: TypeDesc): (r: TypeDesc)
    ensures isArray ==> r == ArrayDesc(d)
    ensures !isArray ==> r == d
  {
    if isArray then ArrayDesc(d) else d
  }

  /**
   * The description a property gets as a type argument inside a generic: a class, or a
   * parameterized type without type arguments, is loaded as its class, private or not and
   * array flag or not; a parameterized type with type arguments is Object when its raw class is
   * private, and otherwise its raw class and owner type over the descriptions of its arguments
   * in order, as an array under a generic array; type variables, wildcards and generic arrays
   * are described as what they resolve to.
   */
  function ArgumentDesc(ct: ClassTable, tp: TypeProperty, bindings: GenericTypeMap, fuel: nat): Result<TypeDesc>
    decreases fuel, 0
  {
    match tp.t
    case Class(c) => Ok(ForLoadedType(c))
    case Param(raw, owner, args) =>
      if fuel == 0 then Err(StackOverflow)
      else
        var descs :- ArgumentDescs(ct, PlainProperties(args), bindings, fuel - 1);
        Ok(if |args| == 0 then ForLoadedType(Named(raw))
           else if IsPrivate(ct, Named(raw)) then ForLoadedType(OBJECT)
           else Arrayed(tp.isArray, Parameterized(Named(raw), owner, descs)))
    case _ =>
      var next :- ResolveStep(ct, tp, bindings);
      if fuel == 0 then Err(StackOverflow) else ArgumentDesc(ct, next, bindings, fuel - 1)
  }

  /** The descriptions of several type arguments, in order. */
  function ArgumentDescs(ct: ClassTable, props: seq<TypeProperty>, bindings: GenericTypeMap, fuel: nat)
    : (r: Result<seq<TypeDesc>>)
    ensures r.Ok? ==> |r.value| == |props|
    decreases fuel, |props| + 1
  {
    if |props| == 0 then Ok([])
    else
      var d :- ArgumentDesc(ct, props[0], bindings, fuel);
      var ds :- ArgumentDescs(ct, props[1..], bindings, fuel);
      Ok([d] + ds)
  }

  /**
   * The description the field of a parameter gets: as a type argument would, except that a
   * parameter resolving to a class, or to a parameterized type without type arguments, is
   * loaded as Object when that class is private.
   */
  function ParameterDesc(ct: ClassTable, tp: TypeProperty, bindings: GenericTypeMap, fuel: nat): Result<TypeDesc>
  {
    var d :- ArgumentDesc(ct, tp, bindings, fuel);
    var r :- Resolved(ct, tp, bindings, fuel);
    Ok(if r.t.Param? && |r.t.args| > 0 then d
       else ForLoadedType(if IsPrivate(ct, RawClassOf(r.t)) then OBJECT else RawClassOf(r.t)))
  }

  /**
   * No parameterized type met in the walk of the property has two type arguments that are
   * themselves generic (see `IsGenericArgument`).
   */
  predicate NoSiblingGenerics(ct: ClassTable, tp: TypeProperty, bindings: GenericTypeMap, fuel: nat)
    decreases fuel, 0
  {
    match tp.t
    case Class(_) => true
    case Param(_, _, args) =>
      fuel > 0 ==>
        && AtMostOneGeneric(ct, PlainProperties(args), bindings, fuel - 1)
        && AllNoSiblingGenerics(ct, PlainProperties(args), bindings, fuel - 1)
    case _ =>
      var next := ResolveStep(ct, tp, bindings);
      next.Ok? && fuel > 0 ==> NoSiblingGenerics(ct, next.value, bindings, fuel - 1)
  }

  /** At most one of the properties is a generic type argument. */
  predicate AtMostOneGeneric(ct: ClassTable, props: seq<TypeProperty>, bindings: GenericTypeMap, fuel: nat)
  {
    forall i, j :: 0 <= i < j < |props| && IsGenericArgument(ct, props[i], bindings, fuel) ==>
      !IsGenericArgument(ct, props[j], bindings, fuel)
  }

  /** NoSiblingGenerics holds for each of the properties. */
  predicate AllNoSiblingGenerics(ct: ClassTable, props: seq<TypeProperty>, bindings: GenericTypeMap, fuel: nat)
    decreases fuel, |props| + 1
  {
    |props| > 0 ==> NoSiblingGenerics(ct, props[0], bindings, fuel) && AllNoSiblingGenerics(ct, props[1..], bindings, fuel)
  }

  // ----- What the walk of a property is made of -----

  /** The walk of one property as a walk of a one-property list. */
  lemma SingletonWalk(ct: ClassTable, tp: TypeProperty, start: int, rawTypeId: int, bindings: GenericTypeMap, fuel: nat)
    ensures LinearizedAll(ct, [tp], start, rawTypeId, bindings, fuel) == Linearized(ct, tp, start, rawTypeId, bindings, fuel)
  {
    assert [tp][0] == tp && [tp][1..] == [];
    var one := Linearized(ct, tp, start, rawTypeId, bindings, fuel);
    if one.Ok? {
      EmptyUnion(one.value.nodes);
      assert one.value.roots + [] == one.value.roots;
    }
  }

  /**
   * A type variable, a wildcard or a generic array takes the id after `start` and no node; its
   * walk is the walk of what it resolves to, from that id.
   */
  lemma ResolvingWalk(ct: ClassTable, tp: TypeProperty, start: int, rawTypeId: int, bindings: GenericTypeMap, fuel: nat)
    requires Resolving(tp.t)
    requires Linearized(ct, tp, start, rawTypeId, bindings, fuel).Ok?
    ensures fuel > 0 && ResolveStep(ct, tp, bindings).Ok?
    ensures Linearized(ct, tp, start, rawTypeId, bindings, fuel)
         == Linearized(ct, ResolveStep(ct, tp, bindings).value, start + 1, rawTypeId, bindings, fuel - 1)
  {
    var next := ResolveStep(ct, tp, bindings).value;
    SingletonWalk(ct, next, start + 1, rawTypeId, bindings, fuel - 1);
  }

  /**
   * The node the walk of a property records for it is the node of the class or parameterized
   * type the property resolves to: its class, owner type, privacy and array flag, with children
   * exactly when it has type arguments.
   */
  lemma {:induction false} WalkResolves(ct: ClassTable, tp: TypeProperty, start: int, rawTypeId: int,
                                        bindings: GenericTypeMap, fuel: nat)
    requires rawTypeId <= start
    requires Linearized(ct, tp, start, rawTypeId, bindings, fuel).Ok?
    ensures var l := Linearized(ct, tp, start, rawTypeId, bindings, fuel).value;
      && Resolved(ct, tp, bindings, fuel).Ok?
      && |l.roots| == 1
      && HeadFor(l, l.roots[0], Resolved(ct, tp, bindings, fuel).value, ct)
    decreases fuel
  {
    if Resolving(tp.t) {
      ResolvingWalk(ct, tp, start, rawTypeId, bindings, fuel);
      WalkResolves(ct, ResolveStep(ct, tp, bindings).value, start + 1, rawTypeId, bindings, fuel - 1);
    } else {
      LinearizedShape(ct, tp, start, rawTypeId, bindings, fuel);
    }
  }

  /** The walk of several properties records, for each in order, the node of what it resolves to. */
  lemma {:induction false} WalkAllResolves(ct: ClassTable, props: seq<TypeProperty>, start: int, rawTypeId: int,
                                           bindings: GenericTypeMap, fuel: nat)
    requires rawTypeId <= start
    requires LinearizedAll(ct, props, start, rawTypeId, bindings, fuel).Ok?
    ensures var l := LinearizedAll(ct, props, start, rawTypeId, bindings, fuel).value;
      && |l.roots| == |props|
      && forall i :: 0 <= i < |props| ==>
           Resolved(ct, props[i], bindings, fuel).Ok? && HeadFor(l, l.roots[i], Resolved(ct, props[i], bindings, fuel).value, ct)
    decreases |props|
  {
    LinearizedAllTagged(ct, props, start, rawTypeId, bindings, fuel);
    if |props| > 0 {
      var first := Linearized(ct, props[0], start, rawTypeId, bindings, fuel).value;
      var rest := LinearizedAll(ct, props[1..], first.next, rawTypeId, bindings, fuel).value;
      LinearizedShape(ct, props[0], start, rawTypeId, bindings, fuel);
      LinearizedAllTagged(ct, props[1..], first.next, rawTypeId, bindings, fuel);
      WalkResolves(ct, props[0], start, rawTypeId, bindings, fuel);
      WalkAllResolves(ct, props[1..], first.next, rawTypeId, bindings, fuel);
      ResolvedHeadsConcat(ct, first, rest, props, bindings, fuel, start, rawTypeId);
    }
  }

  /** The resolved nodes of two consecutive walks, the first of one property, stay in the joint walk. */
  lemma ResolvedHeadsConcat(ct: ClassTable, first: Linear, rest: Linear, props: seq<TypeProperty>,
                            bindings: GenericTypeMap, fuel: nat, start: int, rawTypeId: int)
    requires |props| > 0
    requires rawTypeId <= start
    requires Tagged(first, start, rawTypeId) && Tagged(rest, first.next, rawTypeId)
    requires |first.roots| == 1 && |rest.roots| == |props| - 1
    requires Resolved(ct, props[0], bindings, fuel).Ok?
    requires HeadFor(first, first.roots[0], Resolved(ct, props[0], bindings, fuel).value, ct)
    requires forall i :: 0 <= i < |props[1..]| ==>
      Resolved(ct, props[1..][i], bindings, fuel).Ok? && HeadFor(rest, rest.roots[i], Resolved(ct, props[1..][i], bindings, fuel).value, ct)
    ensures var l := Linear(first.nodes + rest.nodes, rest.next, first.roots + rest.roots);
      forall i :: 0 <= i < |props| ==>
        Resolved(ct, props[i], bindings, fuel).Ok? && HeadFor(l, l.roots[i], Resolved(ct, props[i], bindings, fuel).value, ct)
  {
    var l := Linear(first.nodes + rest.nodes, rest.next, first.roots + rest.roots);
    forall i | 0 <= i < |props|
      ensures Resolved(ct, props[i], bindings, fuel).Ok? && HeadFor(l, l.roots[i], Resolved(ct, props[i], bindings, fuel).value, ct)
    {
      if i == 0 {
        HeadConcatFirst(first, rest, first.roots[0], Resolved(ct, props[0], bindings, fuel).value, ct, start, rawTypeId);
      } else {
        assert props[1..][i - 1] == props[i];
        assert l.roots[i] == rest.roots[i - 1];
        HeadConcatRest(first, rest, rest.roots[i - 1], Resolved(ct, props[i], bindings, fuel).value, ct, start, rawTypeId);
      }
    }
  }

  /** The walk of a property draws exactly one id per entry it visits. */
  lemma {:induction false} WalkCounts(ct: ClassTable, tp: TypeProperty, start: int, rawTypeId: int,
                                      bindings: GenericTypeMap, fuel: nat)
    requires Linearized(ct, tp, start, rawTypeId, bindings, fuel).Ok?
    ensures EntryCount(ct, tp, bindings, fuel) == Ok(Linearized(ct, tp, start, rawTypeId, bindings, fuel).value.next - start)
    decreases fuel, 0
  {
    if tp.t.Param? {
      WalkAllCounts(ct, PlainProperties(tp.t.args), start + 1, start + 1, bindings, fuel - 1);
    } else if Resolving(tp.t) {
      ResolvingWalk(ct, tp, start, rawTypeId, bindings, fuel);
      WalkCounts(ct, ResolveStep(ct, tp, bindings).value, start + 1, rawTypeId, bindings, fuel - 1);
    }
  }

  /** The walk of several properties draws exactly one id per entry the walks of the properties visit. */
  lemma {:induction false} WalkAllCounts(ct: ClassTable, props: seq<TypeProperty>, start: int, rawTypeId: int,
                                         bindings: GenericTypeMap, fuel: nat)
    requires LinearizedAll(ct, props, start, rawTypeId, bindings, fuel).Ok?
    ensures EntryCountAll(ct, props, bindings, fuel) == Ok(LinearizedAll(ct, props, start, rawTypeId, bindings, fuel).value.next - start)
    decreases fuel, |props| + 1
  {
    if |props| > 0 {
      var first := Linearized(ct, props[0], start, rawTypeId, bindings, fuel).value;
      WalkCounts(ct, props[0], start, rawTypeId, bindings, fuel);
      WalkAllCounts(ct, props[1..], first.next, rawTypeId, bindings, fuel);
    }
  }

  // ----- What the assembly should make of a node table -----

  /** Every node sits inside a node with a smaller id, or inside no node of the table. */
  ghost predicate Ordered(nodes: NodeTable)
  {
    forall j :: j in nodes ==> nodes[j].rawTypeId < j
  }

  /** The walk's node tables are ordered. */
  lemma TaggedOrdered(l: Linear, start: int, rawTypeId: int)
    requires rawTypeId <= start && Tagged(l, start, rawTypeId)
    ensures Ordered(l.nodes)
  {
  }

  /** The members of the group of node `k`, in id order, come after `k`. */
  lemma ChildrenLater(nodes: NodeTable, k: int)
    requires Ordered(nodes) && k in nodes
    ensures nodes.Keys != {}
    ensures var keys := SortedKeys(GroupOf(nodes, k).Keys);
      forall i :: 0 <= i < |keys| ==> keys[i] in nodes && k < keys[i] <= Max(nodes.Keys)
  {
    assert k in nodes.Keys;
    var keys := SortedKeys(GroupOf(nodes, k).Keys);
    forall i | 0 <= i < |keys| ensures keys[i] in nodes && k < keys[i] <= Max(nodes.Keys) {
      assert keys[i] in keys;
      assert keys[i] in nodes.Keys;
    }
  }

  /** The descriptions of the nodes directly inside node `k`, in id order, under its class and owner type. */
  ghost function ChildDescs(nodes: NodeTable, k: int): TypeDesc
    requires Ordered(nodes) && k in nodes
    decreases Max(nodes.Keys) - k, 1, 0
  {
    ChildrenLater(nodes, k);
    Parameterized(nodes[k].cls, nodes[k].ownerType, DescsOf(nodes, SortedKeys(GroupOf(nodes, k).Keys), k))
  }

  /** The descriptions of the nodes `keys`, all after node `k`, in order. */
  ghost function DescsOf(nodes: NodeTable, keys: seq<int>, k: int): seq<TypeDesc>
    requires Ordered(nodes) && k in nodes
    requires forall i :: 0 <= i < |keys| ==> keys[i] in nodes && k < keys[i] <= Max(nodes.Keys)
    decreases Max(nodes.Keys) - k, 0, |keys|
  {
    if |keys| == 0 then [] else [NodeDesc(nodes, keys[0])] + DescsOf(nodes, keys[1..], k)
  }

  /**
   * The generic a node with children stands for: Object for a private raw class, otherwise the
   * raw class and owner type over the descriptions of the node's children in id order, as an
   * array when the node is marked so.
   */
  ghost function HeadDesc(nodes: NodeTable, k: int): TypeDesc
    requires Ordered(nodes) && k in nodes
    decreases Max(nodes.Keys) - k, 2, 0
  {
    if nodes[k].isPrivate then ForLoadedType(OBJECT) else Arrayed(nodes[k].isArray, ChildDescs(nodes, k))
  }

  /** The description of a node inside a generic: its generic when it has children, else its class. */
  ghost function NodeDesc(nodes: NodeTable, k: int): TypeDesc
    requires Ordered(nodes) && k in nodes
    decreases Max(nodes.Keys) - k, 3, 0
  {
    if HasChildren(nodes, k) then HeadDesc(nodes, k) else ForLoadedType(nodes[k].cls)
  }

  /** The description of a parameter's node: its generic when it has children, else its processed class. */
  ghost function ParameterNodeDesc(nodes: NodeTable, k: int): TypeDesc
    requires Ordered(nodes) && k in nodes
  {
    if HasChildren(nodes, k) then HeadDesc(nodes, k) else ForLoadedType(ProcessRemainParameterType(nodes[k]).cls)
  }

  /** `small` is part of `big`, and every node of `big` inside a node of `small` belongs to `small`. */
  ghost predicate Within(small: NodeTable, big: NodeTable)
  {
    && (forall j :: j in small ==> j in big && big[j] == small[j])
    && (forall j :: j in big && big[j].rawTypeId in small ==> j in small)
  }

  /** A node of a closed part of a table has the same group, and so the same children, in both. */
  lemma GroupWithin(small: NodeTable, big: NodeTable, k: int)
    requires Within(small, big) && k in small
    ensures GroupOf(big, k) == GroupOf(small, k)
    ensures HasChildren(big, k) <==> HasChildren(small, k)
  {
    forall j ensures j in GroupOf(big, k) <==> j in GroupOf(small, k) {
      if j in GroupOf(big, k) {
        assert j in big && big[j].rawTypeId in small;
      }
    }
    forall j | j in GroupOf(small, k) ensures GroupOf(big, k)[j] == GroupOf(small, k)[j] {
    }
    assert GroupOf(big, k) == GroupOf(small, k);
    if HasChildren(big, k) {
      var j :| j in big && big[j].rawTypeId == k;
      assert j in small;
    }
    if HasChildren(small, k) {
      var j :| j in small && small[j].rawTypeId == k;
      assert j in big;
    }
  }

  /** A node gathers, under its class and owner type, the descriptions of its children listed in id order. */
  lemma ChildDescsOf(nodes: NodeTable, k: int, keys: seq<int>, descs: seq<TypeDesc>)
    requires Ordered(nodes) && k in nodes
    requires keys == SortedKeys(GroupOf(nodes, k).Keys) && |descs| == |keys|
    requires forall i :: 0 <= i < |keys| ==> keys[i] in nodes && descs[i] == NodeDesc(nodes, keys[i])
    ensures ChildDescs(nodes, k) == Parameterized(nodes[k].cls, nodes[k].ownerType, descs)
  {
    ChildrenLater(nodes, k);
    DescsOfIs(nodes, keys, k, descs);
  }

  /** Descriptions listed one for one for the nodes `keys` are their descriptions. */
  lemma {:induction false} DescsOfIs(nodes: NodeTable, keys: seq<int>, k: int, descs: seq<TypeDesc>)
    requires Ordered(nodes) && k in nodes
    requires forall i :: 0 <= i < |keys| ==> keys[i] in nodes && k < keys[i] <= Max(nodes.Keys)
    requires |descs| == |keys| && forall i :: 0 <= i < |keys| ==> descs[i] == NodeDesc(nodes, keys[i])
    ensures DescsOf(nodes, keys, k) == descs
  {
    if |keys| > 0 {
      assert forall i :: 0 <= i < |keys| - 1 ==> keys[1..][i] == keys[i + 1] && descs[1..][i] == descs[i + 1];
      DescsOfIs(nodes, keys[1..], k, descs[1..]);
      assert descs == [descs[0]] + descs[1..];
    }
  }

  /** The descriptions of the nodes `keys` are listed one for one. */
  lemma {:induction false} DescsOfElements(nodes: NodeTable, keys: seq<int>, k: int)
    requires Ordered(nodes) && k in nodes
    requires forall i :: 0 <= i < |keys| ==> keys[i] in nodes && k < keys[i] <= Max(nodes.Keys)
    ensures |DescsOf(nodes, keys, k)| == |keys|
    ensures forall i :: 0 <= i < |keys| ==> DescsOf(nodes, keys, k)[i] == NodeDesc(nodes, keys[i])
  {
    if |keys| > 0 {
      DescsOfElements(nodes, keys[1..], k);
      var ds := DescsOf(nodes, keys, k);
      forall i | 0 <= i < |keys| ensures ds[i] == NodeDesc(nodes, keys[i]) {
        if i > 0 {
          assert keys[1..][i - 1] == keys[i];
        }
      }
    }
  }

  /** Two nodes with the same head, group and child descriptions gather their children alike. */
  lemma ChildDescsAlike(small: NodeTable, big: NodeTable, k: int)
    requires Ordered(small) && Ordered(big) && k in small && k in big && big[k] == small[k]
    requires GroupOf(big, k) == GroupOf(small, k)
    requires forall j :: j in GroupOf(small, k) ==> NodeDesc(big, j) == NodeDesc(small, j)
    ensures ChildDescs(big, k) == ChildDescs(small, k)
  {
    var keys := SortedKeys(GroupOf(small, k).Keys);
    ChildrenLater(small, k);
    DescsOfElements(small, keys, k);
    var descs := DescsOf(small, keys, k);
    forall i | 0 <= i < |keys| ensures keys[i] in big && descs[i] == NodeDesc(big, keys[i]) {
      assert keys[i] in GroupOf(small, k);
    }
    ChildDescsOf(small, k, keys, descs);
    ChildDescsOf(big, k, keys, descs);
  }

  /** A node of a closed part of a table has the same description in both. */
  lemma {:induction false} NodeDescWithin(small: NodeTable, big: NodeTable, k: int)
    requires Ordered(small) && Ordered(big) && Within(small, big) && k in small
    ensures NodeDesc(big, k) == NodeDesc(small, k)
    ensures HeadDesc(big, k) == HeadDesc(small, k)
    decreases Max(small.Keys) - k
  {
    GroupWithin(small, big, k);
    var keys := SortedKeys(GroupOf(small, k).Keys);
    ChildrenLater(small, k);
    forall j | j in GroupOf(small, k) ensures NodeDesc(big, j) == NodeDesc(small, j) {
      assert j in keys;
      NodeDescWithin(small, big, j);
    }
    ChildDescsAlike(small, big, k);
  }

  /** Both walks of two consecutive ones are closed parts of the joint walk. */
  lemma ConcatWithin(first: Linear, rest: Linear, start: int, rawTypeId: int)
    requires rawTypeId <= start
    requires Tagged(first, start, rawTypeId) && Tagged(rest, first.next, rawTypeId)
    ensures Within(first.nodes, first.nodes + rest.nodes)
    ensures Within(rest.nodes, first.nodes + rest.nodes)
  {
    assert forall j :: j in first.nodes ==> j !in rest.nodes;
  }

  /** The walk of the type arguments is a closed part of the walk of a parameterized type. */
  lemma ArgumentsWithin(nodes: NodeTable, sub: Linear, node: ParameterType, cur: int)
    requires node.rawTypeId < cur && Tagged(sub, cur, cur)
    requires nodes == map[cur := node] + sub.nodes
    ensures Ordered(nodes) && Ordered(sub.nodes) && cur in nodes
    ensures Within(sub.nodes, nodes)
  {
    TaggedOrdered(sub, cur, cur);
    assert cur !in sub.nodes;
  }

  /** The nodes directly inside a parameterized type's node are the roots of the walk of its arguments. */
  lemma ArgumentsGroup(nodes: NodeTable, sub: Linear, node: ParameterType, cur: int)
    requires node.rawTypeId < cur && Tagged(sub, cur, cur)
    requires nodes == map[cur := node] + sub.nodes
    ensures SortedKeys(GroupOf(nodes, cur).Keys) == sub.roots
    ensures HasChildren(nodes, cur) <==> |sub.roots| > 0
  {
    var g := GroupOf(nodes, cur);
    assert cur !in sub.nodes;
    forall x ensures x in SortedKeys(g.Keys) <==> x in sub.roots {
      if x in sub.roots {
        var i :| 0 <= i < |sub.roots| && sub.roots[i] == x;
        assert x in sub.nodes;
      }
    }
    IncreasingUnique(SortedKeys(g.Keys), sub.roots);
    if |sub.roots| > 0 {
      assert sub.roots[0] in sub.nodes && nodes[sub.roots[0]].rawTypeId == cur;
    }
    if HasChildren(nodes, cur) {
      var j :| j in nodes && nodes[j].rawTypeId == cur;
      assert j in g;
    }
  }

  /** A parameterized type's node gathers the descriptions of its arguments' nodes, in order. */
  lemma ParamNodeDesc(nodes: NodeTable, sub: Linear, node: ParameterType, cur: int, descs: seq<TypeDesc>)
    requires node.rawTypeId < cur && Tagged(sub, cur, cur)
    requires nodes == map[cur := node] + sub.nodes
    requires Ordered(sub.nodes) && |descs| == |sub.roots|
    requires forall i :: 0 <= i < |descs| ==> descs[i] == NodeDesc(sub.nodes, sub.roots[i])
    ensures Ordered(nodes) && cur in nodes
    ensures ChildDescs(nodes, cur) == Parameterized(node.cls, node.ownerType, descs)
  {
    ArgumentsWithin(nodes, sub, node, cur);
    ArgumentsGroup(nodes, sub, node, cur);
    forall i | 0 <= i < |sub.roots| ensures sub.roots[i] in nodes && descs[i] == NodeDesc(nodes, sub.roots[i]) {
      NodeDescWithin(sub.nodes, nodes, sub.roots[i]);
    }
    ChildDescsOf(nodes, cur, sub.roots, descs);
  }

  /** Two consecutive walks are ordered, and closed parts of their joint walk. */
  lemma ConcatOrdered(first: Linear, rest: Linear, start: int, rawTypeId: int)
    requires rawTypeId <= start
    requires Tagged(first, start, rawTypeId) && Tagged(rest, first.next, rawTypeId)
    ensures Ordered(first.nodes) && Ordered(rest.nodes) && Ordered(first.nodes + rest.nodes)
    ensures Within(first.nodes, first.nodes + rest.nodes) && Within(rest.nodes, first.nodes + rest.nodes)
    ensures forall i :: 0 <= i < |first.roots| ==> first.roots[i] in first.nodes
    ensures forall i :: 0 <= i < |rest.roots| ==> rest.roots[i] in rest.nodes
  {
    TaggedConcat(first, rest, start, rawTypeId);
    TaggedOrdered(Linear(first.nodes + rest.nodes, rest.next, first.roots + rest.roots), start, rawTypeId);
    TaggedOrdered(first, start, rawTypeId);
    TaggedOrdered(rest, first.next, rawTypeId);
    ConcatWithin(first, rest, start, rawTypeId);
  }

  /** The nodes two consecutive walks record for their properties keep their descriptions in the joint walk. */
  lemma ConcatDescribes(first: NodeTable, rest: NodeTable, r: int, roots: seq<int>, d: TypeDesc, ds: seq<TypeDesc>)
    requires Ordered(first) && Ordered(rest) && Ordered(first + rest)
    requires Within(first, first + rest) && Within(rest, first + rest)
    requires r in first && d == NodeDesc(first, r)
    requires |ds| == |roots| && forall i :: 0 <= i < |ds| ==> roots[i] in rest && ds[i] == NodeDesc(rest, roots[i])
    ensures forall i :: 0 <= i < |roots| + 1 ==>
      ([r] + roots)[i] in first + rest && ([d] + ds)[i] == NodeDesc(first + rest, ([r] + roots)[i])
  {
    NodeDescWithin(first, first + rest, r);
    RestDescribes(first, rest, roots, ds);
    ConsDescribes(first + rest, r, roots, d, ds);
  }

  /** Descriptions listed one for one for some nodes, preceded by one more description and node. */
  lemma ConsDescribes(nodes: NodeTable, r: int, roots: seq<int>, d: TypeDesc, ds: seq<TypeDesc>)
    requires Ordered(nodes) && r in nodes && d == NodeDesc(nodes, r)
    requires |ds| == |roots| && forall i :: 0 <= i < |ds| ==> roots[i] in nodes && ds[i] == NodeDesc(nodes, roots[i])
    ensures forall i :: 0 <= i < |roots| + 1 ==>
      ([r] + roots)[i] in nodes && ([d] + ds)[i] == NodeDesc(nodes, ([r] + roots)[i])
  {
    forall i | 0 <= i < |roots| + 1
      ensures ([r] + roots)[i] in nodes && ([d] + ds)[i] == NodeDesc(nodes, ([r] + roots)[i])
    {
      if i > 0 {
        assert ([r] + roots)[i] == roots[i - 1] && ([d] + ds)[i] == ds[i - 1];
      }
    }
  }

  /** Descriptions of nodes of a closed part of a table hold in the whole table. */
  lemma RestDescribes(other: NodeTable, nodes: NodeTable, roots: seq<int>, ds: seq<TypeDesc>)
    requires Ordered(nodes) && Ordered(other + nodes) && Within(nodes, other + nodes)
    requires |ds| == |roots| && forall i :: 0 <= i < |ds| ==> roots[i] in nodes && ds[i] == NodeDesc(nodes, roots[i])
    ensures forall i :: 0 <= i < |ds| ==> roots[i] in other + nodes && ds[i] == NodeDesc(other + nodes, roots[i])
  {
    forall i | 0 <= i < |ds| ensures roots[i] in other + nodes && ds[i] == NodeDesc(other + nodes, roots[i]) {
      NodeDescWithin(nodes, other + nodes, roots[i]);
    }
  }

  /** The node the walk of a property records for it is described as the property is as a type argument. */
  lemma {:induction false} WalkDescribes(ct: ClassTable, tp: TypeProperty, start: int, rawTypeId: int,
                                         bindings: GenericTypeMap, fuel: nat)
    requires rawTypeId <= start
    requires Linearized(ct, tp, start, rawTypeId, bindings, fuel).Ok?
    ensures var l := Linearized(ct, tp, start, rawTypeId, bindings, fuel).value;
      && Ordered(l.nodes) && |l.roots| == 1 && l.roots[0] in l.nodes
      && ArgumentDesc(ct, tp, bindings, fuel) == Ok(NodeDesc(l.nodes, l.roots[0]))
    decreases fuel, 0
  {
    var l := Linearized(ct, tp, start, rawTypeId, bindings, fuel).value;
    LinearizedShape(ct, tp, start, rawTypeId, bindings, fuel);
    TaggedOrdered(l, start, rawTypeId);
    if tp.t.Param? {
      ParamDescribes(ct, tp, start, rawTypeId, bindings, fuel);
    } else if Resolving(tp.t) {
      ResolvingWalk(ct, tp, start, rawTypeId, bindings, fuel);
      WalkDescribes(ct, ResolveStep(ct, tp, bindings).value, start + 1, rawTypeId, bindings, fuel - 1);
    } else {
      assert !HasChildren(l.nodes, start + 1);
    }
  }

  lemma {:induction false} ParamDescribes(ct: ClassTable, tp: TypeProperty, start: int, rawTypeId: int,
                                          bindings: GenericTypeMap, fuel: nat)
    requires rawTypeId <= start && tp.t.Param?
    requires Linearized(ct, tp, start, rawTypeId, bindings, fuel).Ok?
    ensures var l := Linearized(ct, tp, start, rawTypeId, bindings, fuel).value;
      Ordered(l.nodes) && start + 1 in l.nodes && ArgumentDesc(ct, tp, bindings, fuel) == Ok(NodeDesc(l.nodes, start + 1))
    decreases fuel, 0, 0
  {
    var l := Linearized(ct, tp, start, rawTypeId, bindings, fuel).value;
    var cur := start + 1;
    var props := PlainProperties(tp.t.args);
    var sub := LinearizedAll(ct, props, cur, cur, bindings, fuel - 1).value;
    var node := ParameterType(cur, rawTypeId, Named(tp.t.raw), tp.t.owner, IsPrivate(ct, Named(tp.t.raw)), tp.isArray);
    assert l.nodes == map[cur := node] + sub.nodes;
    LinearizedAllTagged(ct, props, cur, cur, bindings, fuel - 1);
    WalkAllDescribes(ct, props, cur, cur, bindings, fuel - 1);
    var descs := ArgumentDescs(ct, props, bindings, fuel - 1).value;
    ArgumentsGroup(l.nodes, sub, node, cur);
    ParamNodeDesc(l.nodes, sub, node, cur, descs);
  }


  /** The walk of several properties records, for each in order, a node described as the property is as a type argument. */
  lemma {:induction false} WalkAllDescribes(ct: ClassTable, props: seq<TypeProperty>, start: int, rawTypeId: int,
                                            bindings: GenericTypeMap, fuel: nat)
    requires rawTypeId <= start
    requires LinearizedAll(ct, props, start, rawTypeId, bindings, fuel).Ok?
    ensures var l := LinearizedAll(ct, props, start, rawTypeId, bindings, fuel).value;
      && Ordered(l.nodes) && |l.roots| == |props|
      && (forall i :: 0 <= i < |props| ==> l.roots[i] in l.nodes)
      && ArgumentDescs(ct, props, bindings, fuel).Ok?
      && forall i :: 0 <= i < |props| ==> ArgumentDescs(ct, props, bindings, fuel).value[i] == NodeDesc(l.nodes, l.roots[i])
    decreases fuel, |props| + 1
  {
    if |props| > 0 {
      var first := Linearized(ct, props[0], start, rawTypeId, bindings, fuel).value;
      LinearizedShape(ct, props[0], start, rawTypeId, bindings, fuel);
      WalkDescribes(ct, props[0], start, rawTypeId, bindings, fuel);
      WalkAllDescribes(ct, props[1..], first.next, rawTypeId, bindings, fuel);
      DescribesCons(ct, props, start, rawTypeId, bindings, fuel);
    } else {
      LinearizedAllTagged(ct, props, start, rawTypeId, bindings, fuel);
      TaggedOrdered(LinearizedAll(ct, props, start, rawTypeId, bindings, fuel).value, start, rawTypeId);
    }
  }

  /** The descriptions of a walked list follow from those of its first property and of the rest. */
  lemma DescribesCons(ct: ClassTable, props: seq<TypeProperty>, start: int, rawTypeId: int,
                      bindings: GenericTypeMap, fuel: nat)
    requires rawTypeId <= start && |props| > 0
    requires LinearizedAll(ct, props, start, rawTypeId, bindings, fuel).Ok?
    requires var first := Linearized(ct, props[0], start, rawTypeId, bindings, fuel);
      && first.Ok? && Tagged(first.value, start, rawTypeId)
      && |first.value.roots| == 1 && first.value.roots[0] in first.value.nodes
      && ArgumentDesc(ct, props[0], bindings, fuel) == Ok(NodeDesc(first.value.nodes, first.value.roots[0]))
    requires var first := Linearized(ct, props[0], start, rawTypeId, bindings, fuel).value;
      var rest := LinearizedAll(ct, props[1..], first.next, rawTypeId, bindings, fuel);
      && rest.Ok? && Ordered(rest.value.nodes) && |rest.value.roots| == |props| - 1
      && ArgumentDescs(ct, props[1..], bindings, fuel).Ok?
      && forall i :: 0 <= i < |props| - 1 ==>
           rest.value.roots[i] in rest.value.nodes
           && ArgumentDescs(ct, props[1..], bindings, fuel).value[i] == NodeDesc(rest.value.nodes, rest.value.roots[i])
    ensures var l := LinearizedAll(ct, props, start, rawTypeId, bindings, fuel).value;
      && Ordered(l.nodes) && |l.roots| == |props|
      && (forall i :: 0 <= i < |props| ==> l.roots[i] in l.nodes)
      && ArgumentDescs(ct, props, bindings, fuel).Ok?
      && forall i :: 0 <= i < |props| ==> ArgumentDescs(ct, props, bindings, fuel).value[i] == NodeDesc(l.nodes, l.roots[i])
  {
    var l := LinearizedAll(ct, props, start, rawTypeId, bindings, fuel).value;
    var first := Linearized(ct, props[0], start, rawTypeId, bindings, fuel).value;
    var rest := LinearizedAll(ct, props[1..], first.next, rawTypeId, bindings, fuel).value;
    assert l == Linear(first.nodes + rest.nodes, rest.next, first.roots + rest.roots);
    LinearizedAllTagged(ct, props[1..], first.next, rawTypeId, bindings, fuel);
    ConcatOrdered(first, rest, start, rawTypeId);
    ConcatDescribes(first.nodes, rest.nodes, first.roots[0], rest.roots,
      ArgumentDesc(ct, props[0], bindings, fuel).value, ArgumentDescs(ct, props[1..], bindings, fuel).value);
    assert l.roots == [first.roots[0]] + rest.roots;
  }

  // ----- Sibling generics in the walk -----

  /** No two nodes directly inside the same node, other than `outer`, both have children. */
  ghost predicate SiblingsApart(nodes: NodeTable, outer: int)
  {
    forall i, j ::
      (i in nodes && j in nodes && nodes[i].rawTypeId == nodes[j].rawTypeId && nodes[i].rawTypeId != outer
       && HasChildren(nodes, i) && HasChildren(nodes, j)) ==> i == j
  }

  /** Under a property without sibling generics, the walk records no two sibling nodes with children. */
  lemma {:induction false} WalkSiblings(ct: ClassTable, tp: TypeProperty, start: int, rawTypeId: int,
                                        bindings: GenericTypeMap, fuel: nat)
    requires rawTypeId <= start
    requires Linearized(ct, tp, start, rawTypeId, bindings, fuel).Ok?
    requires NoSiblingGenerics(ct, tp, bindings, fuel)
    ensures SiblingsApart(Linearized(ct, tp, start, rawTypeId, bindings, fuel).value.nodes, rawTypeId)
    decreases fuel, 0
  {
    if tp.t.Param? {
      ParamSiblings(ct, tp, start, rawTypeId, bindings, fuel);
    } else if Resolving(tp.t) {
      ResolvingWalk(ct, tp, start, rawTypeId, bindings, fuel);
      WalkSiblings(ct, ResolveStep(ct, tp, bindings).value, start + 1, rawTypeId, bindings, fuel - 1);
    }
  }

  lemma {:induction false} ParamSiblings(ct: ClassTable, tp: TypeProperty, start: int, rawTypeId: int,
                                         bindings: GenericTypeMap, fuel: nat)
    requires rawTypeId <= start && tp.t.Param?
    requires Linearized(ct, tp, start, rawTypeId, bindings, fuel).Ok?
    requires NoSiblingGenerics(ct, tp, bindings, fuel)
    ensures SiblingsApart(Linearized(ct, tp, start, rawTypeId, bindings, fuel).value.nodes, rawTypeId)
    decreases fuel, 0, 0
  {
    var l := Linearized(ct, tp, start, rawTypeId, bindings, fuel).value;
    var cur := start + 1;
    var props := PlainProperties(tp.t.args);
    var sub := LinearizedAll(ct, props, cur, cur, bindings, fuel - 1).value;
    var node := ParameterType(cur, rawTypeId, Named(tp.t.raw), tp.t.owner, IsPrivate(ct, Named(tp.t.raw)), tp.isArray);
    assert l.nodes == map[cur := node] + sub.nodes;
    LinearizedAllTagged(ct, props, cur, cur, bindings, fuel - 1);
    WalkAllSiblings(ct, props, cur, cur, bindings, fuel - 1);
    WalkAllResolves(ct, props, cur, cur, bindings, fuel - 1);
    forall a, b | 0 <= a < b < |sub.roots| && HasChildren(sub.nodes, sub.roots[a])
      ensures !HasChildren(sub.nodes, sub.roots[b])
    {
      assert IsGenericArgument(ct, props[a], bindings, fuel - 1);
    }
    ArgumentsSiblings(l.nodes, sub, node, cur);
  }

  /** A parameterized type's node over a walk of its arguments of which at most one root has children. */
  lemma ArgumentsSiblings(nodes: NodeTable, sub: Linear, node: ParameterType, cur: int)
    requires node.rawTypeId < cur && Tagged(sub, cur, cur)
    requires nodes == map[cur := node] + sub.nodes
    requires SiblingsApart(sub.nodes, cur)
    requires forall a, b :: 0 <= a < b < |sub.roots| && HasChildren(sub.nodes, sub.roots[a]) ==> !HasChildren(sub.nodes, sub.roots[b])
    ensures SiblingsApart(nodes, node.rawTypeId)
  {
    ArgumentsWithin(nodes, sub, node, cur);
    forall i, j | i in nodes && j in nodes && nodes[i].rawTypeId == nodes[j].rawTypeId && nodes[i].rawTypeId != node.rawTypeId
      && HasChildren(nodes, i) && HasChildren(nodes, j)
      ensures i == j
    {
      assert i in sub.nodes && j in sub.nodes;
      GroupWithin(sub.nodes, nodes, i);
      GroupWithin(sub.nodes, nodes, j);
      if sub.nodes[i].rawTypeId == cur {
        var a :| 0 <= a < |sub.roots| && sub.roots[a] == i;
        var b :| 0 <= b < |sub.roots| && sub.roots[b] == j;
        assert !(a < b) && !(b < a);
      }
    }
  }

  /** Under properties without sibling generics, their walk records no two sibling nodes with children. */
  lemma {:induction false} WalkAllSiblings(ct: ClassTable, props: seq<TypeProperty>, start: int, rawTypeId: int,
                                           bindings: GenericTypeMap, fuel: nat)
    requires rawTypeId <= start
    requires LinearizedAll(ct, props, start, rawTypeId, bindings, fuel).Ok?
    requires AllNoSiblingGenerics(ct, props, bindings, fuel)
    ensures SiblingsApart(LinearizedAll(ct, props, start, rawTypeId, bindings, fuel).value.nodes, rawTypeId)
    decreases fuel, |props| + 1
  {
    if |props| > 0 {
      var first := Linearized(ct, props[0], start, rawTypeId, bindings, fuel).value;
      var rest := LinearizedAll(ct, props[1..], first.next, rawTypeId, bindings, fuel).value;
      LinearizedShape(ct, props[0], start, rawTypeId, bindings, fuel);
      LinearizedAllTagged(ct, props[1..], first.next, rawTypeId, bindings, fuel);
      WalkSiblings(ct, props[0], start, rawTypeId, bindings, fuel);
      WalkAllSiblings(ct, props[1..], first.next, rawTypeId, bindings, fuel);
      ConcatSiblings(first, rest, start, rawTypeId);
    }
  }

  /** Two consecutive walks without sibling nodes with children make a joint walk without them. */
  lemma ConcatSiblings(first: Linear, rest: Linear, start: int, rawTypeId: int)
    requires rawTypeId <= start
    requires Tagged(first, start, rawTypeId) && Tagged(rest, first.next, rawTypeId)
    requires SiblingsApart(first.nodes, rawTypeId) && SiblingsApart(rest.nodes, rawTypeId)
    ensures SiblingsApart(first.nodes + rest.nodes, rawTypeId)
  {
    var nodes := first.nodes + rest.nodes;
    ConcatOrdered(first, rest, start, rawTypeId);
    forall i, j | i in nodes && j in nodes && nodes[i].rawTypeId == nodes[j].rawTypeId && nodes[i].rawTypeId != rawTypeId
      && HasChildren(nodes, i) && HasChildren(nodes, j)
      ensures i == j
    {
      if i in first.nodes {
        GroupWithin(first.nodes, nodes, i);
        assert j in first.nodes;
        GroupWithin(first.nodes, nodes, j);
      } else {
        GroupWithin(rest.nodes, nodes, i);
        assert j !in first.nodes;
        GroupWithin(rest.nodes, nodes, j);
      }
    }
  }

  // ----- The assembly, when no generic has two generic type arguments -----

  /** The node table of a walk of the parameters: ids above 0, each node a parameter's or inside an earlier node. */
  ghost predicate Rooted(nodes: NodeTable)
  {
    forall k :: k in nodes ==>
      0 < k && (nodes[k].rawTypeId == NON_RAW_TYPE || (nodes[k].rawTypeId in nodes && nodes[k].rawTypeId < k))
  }

  /** The walk of the parameters records a rooted table. */
  lemma TaggedRooted(l: Linear)
    requires Tagged(l, 0, NON_RAW_TYPE)
    ensures Rooted(l.nodes) && Ordered(l.nodes)
  {
  }

  /** Node `k` and the nodes enclosing it, up to a parameter's node. */
  ghost function Chain(nodes: NodeTable, k: int): (r: set<int>)
    requires Rooted(nodes) && k in nodes
    ensures k in r && forall x :: x in r ==> x in nodes && x <= k
    decreases k
  {
    var p := nodes[k].rawTypeId;
    if p == NON_RAW_TYPE then {k} else {k} + Chain(nodes, p)
  }

  /** The parameter's node that node `k` lies in. */
  ghost function Top(nodes: NodeTable, k: int): (t: int)
    requires Rooted(nodes) && k in nodes
    ensures t in nodes && nodes[t].rawTypeId == NON_RAW_TYPE
    decreases k
  {
    var p := nodes[k].rawTypeId;
    if p == NON_RAW_TYPE then k else Top(nodes, p)
  }

  /** A chain goes up from its node to its top, which is the only parameter's node on it. */
  lemma {:induction false} ChainFacts(nodes: NodeTable, k: int)
    requires Rooted(nodes) && k in nodes
    ensures Top(nodes, k) in Chain(nodes, k)
    ensures forall x :: x in Chain(nodes, k) && nodes[x].rawTypeId == NON_RAW_TYPE ==> x == Top(nodes, k)
    ensures forall x :: x in Chain(nodes, k) && nodes[x].rawTypeId != NON_RAW_TYPE ==> nodes[x].rawTypeId in Chain(nodes, k)
    decreases k
  {
    var p := nodes[k].rawTypeId;
    if p != NON_RAW_TYPE {
      ChainFacts(nodes, p);
    }
  }

  /** Every node on the chain of a node with children has children. */
  lemma {:induction false} ChainHeads(nodes: NodeTable, k: int)
    requires Rooted(nodes) && k in nodes && HasChildren(nodes, k)
    ensures forall x :: x in Chain(nodes, k) ==> HasChildren(nodes, x)
    decreases k
  {
    var p := nodes[k].rawTypeId;
    if p != NON_RAW_TYPE {
      assert HasChildren(nodes, p);
      ChainHeads(nodes, p);
    }
  }

  /**
   * Without sibling nodes with children, a node with children directly inside a node of the
   * chain of `k` is on the chain, unless it lies inside `k` itself.
   */
  lemma {:induction false} ChainClosedDown(nodes: NodeTable, k: int)
    requires Rooted(nodes) && SiblingsApart(nodes, NON_RAW_TYPE) && k in nodes && HasChildren(nodes, k)
    ensures forall x, y :: x in Chain(nodes, k) && y in nodes && nodes[y].rawTypeId == x && HasChildren(nodes, y) ==>
      y in Chain(nodes, k) || x == k
    decreases k
  {
    var p := nodes[k].rawTypeId;
    if p != NON_RAW_TYPE {
      assert HasChildren(nodes, p);
      ChainClosedDown(nodes, p);
      forall x, y | x in Chain(nodes, k) && y in nodes && nodes[y].rawTypeId == x && HasChildren(nodes, y)
        ensures y in Chain(nodes, k) || x == k
      {
        if x == p {
          assert y == k;
        }
      }
    }
  }

  /**
   * What typeMaps holds when buildGeneric reaches node `c`: at most the generic already assembled
   * of a node with children directly inside `c`, and that of the only such node when there is one.
   */
  ghost predicate TmFor(nodes: NodeTable, tm: map<int, GenericType>, c: int)
    requires Ordered(nodes)
  {
    && (c in tm ==>
          tm[c].id in nodes && nodes[tm[c].id].rawTypeId == c && HasChildren(nodes, tm[c].id)
          && tm[c].generic == HeadDesc(nodes, tm[c].id))
    && (forall j :: j in nodes && nodes[j].rawTypeId == c && HasChildren(nodes, j) ==> c in tm && tm[c].id == j)
  }

  /** Each member of the group of `c` contributes the description of its node. */
  lemma MemberDefinitionIsNodeDesc(nodes: NodeTable, tm: map<int, GenericType>, c: int, j: int)
    requires Ordered(nodes) && TmFor(nodes, tm, c) && j in GroupOf(nodes, c)
    ensures j in nodes && MemberDefinition(GroupOf(nodes, c), c, tm, j) == NodeDesc(nodes, j)
  {
  }

  /** A visible head's generic is its raw class and owner type over its arguments, as an array when marked so. */
  lemma GroupGenericShape(head: ParameterType, group: Group, c: int, tm: map<int, GenericType>)
    requires !head.isPrivate
    ensures var d := GroupGeneric(head, group, c, tm);
      d == Arrayed(head.isArray, Parameterized(head.cls, head.ownerType, ArgsOf(d)))
  {
  }

  /** The arguments buildGeneric gives node `c`'s generic are the descriptions of its members, in id order. */
  lemma GroupArgumentsDescribe(nodes: NodeTable, tm: map<int, GenericType>, c: int)
    requires Ordered(nodes) && c in nodes && !nodes[c].isPrivate && TmFor(nodes, tm, c)
    ensures var keys := SortedKeys(GroupOf(nodes, c).Keys);
      var args := ArgsOf(GroupGeneric(nodes[c], GroupOf(nodes, c), c, tm));
      |args| == |keys| && forall i :: 0 <= i < |keys| ==> keys[i] in nodes && args[i] == NodeDesc(nodes, keys[i])
  {
    var group := GroupOf(nodes, c);
    GroupGenericArguments(nodes[c], group, c, tm);
    var keys := SortedKeys(group.Keys);
    forall i | 0 <= i < |keys| ensures MemberDefinition(group, c, tm, keys[i]) == NodeDesc(nodes, keys[i]) {
      MemberDefinitionIsNodeDesc(nodes, tm, c, keys[i]);
    }
  }

  /** buildGeneric assembles for node `c` the generic `HeadDesc` describes. */
  lemma GroupGenericIsHeadDesc(nodes: NodeTable, tm: map<int, GenericType>, c: int)
    requires Ordered(nodes) && c in nodes && TmFor(nodes, tm, c)
    ensures GroupGeneric(nodes[c], GroupOf(nodes, c), c, tm) == HeadDesc(nodes, c)
  {
    var head, group := nodes[c], GroupOf(nodes, c);
    if !head.isPrivate {
      GroupGenericShape(head, group, c, tm);
      GroupArgumentsDescribe(nodes, tm, c);
      ChildDescsOf(nodes, c, SortedKeys(group.Keys), ArgsOf(GroupGeneric(head, group, c, tm)));
    }
  }

  /** buildGeneric at a node with children directly inside a parameter's node finishes it. */
  lemma BuildGenericOfTop(nodes: NodeTable, groups: Grouping, c: int, tm: map<int, GenericType>)
    requires c in groups && |groups[c]| > 0 && c in nodes && nodes[c].rawTypeId == NON_RAW_TYPE
    ensures BuildGenericOf(nodes, groups, c, tm)
         == Ok(Assembly(map[c := GroupGeneric(nodes[c], groups[c], c, tm)], groups - {c}))
  {
  }

  /** buildGeneric at a node with children inside another node goes on with that node. */
  lemma BuildGenericOfUp(nodes: NodeTable, groups: Grouping, c: int, tm: map<int, GenericType>)
    requires c in groups && |groups[c]| > 0 && c in nodes && nodes[c].rawTypeId != NON_RAW_TYPE
    ensures var p := nodes[c].rawTypeId;
      BuildGenericOf(nodes, groups, c, tm)
        == BuildGenericOf(nodes, groups - {c}, p, tm[p := GenericType(c, p, GroupGeneric(nodes[c], groups[c], c, tm))])
  {
  }

  /** After node `c`, buildGeneric holds in typeMaps what its enclosing node needs. */
  lemma TmForParent(nodes: NodeTable, tm: map<int, GenericType>, c: int)
    requires Rooted(nodes) && Ordered(nodes) && SiblingsApart(nodes, NON_RAW_TYPE)
    requires c in nodes && HasChildren(nodes, c) && nodes[c].rawTypeId != NON_RAW_TYPE
    ensures var p := nodes[c].rawTypeId;
      TmFor(nodes, tm[p := GenericType(c, p, HeadDesc(nodes, c))], p)
  {
  }

  /** A chain is its node followed by the chain of the enclosing node. */
  lemma ChainUp(nodes: NodeTable, groups: Grouping, c: int)
    requires Rooted(nodes) && c in nodes && nodes[c].rawTypeId != NON_RAW_TYPE
    ensures var p := nodes[c].rawTypeId;
      && Chain(nodes, c) == {c} + Chain(nodes, p) && c !in Chain(nodes, p)
      && Top(nodes, c) == Top(nodes, p)
      && (groups - {c}) - Chain(nodes, p) == groups - Chain(nodes, c)
  {
  }

  /**
   * buildGeneric started at node `c` with children, with the groups of its chain still there and
   * typeMaps as it should be, goes up the chain to its top, consuming the chain's groups, and
   * finishes the top's generic.
   */
  lemma {:induction false} BuildGenericOfChain(nodes: NodeTable, groups: Grouping, c: int, tm: map<int, GenericType>)
    requires Rooted(nodes) && Ordered(nodes) && SiblingsApart(nodes, NON_RAW_TYPE)
    requires c in nodes && HasChildren(nodes, c)
    requires forall x :: x in Chain(nodes, c) ==> x in groups && groups[x] == GroupOf(nodes, x)
    requires TmFor(nodes, tm, c)
    ensures BuildGenericOf(nodes, groups, c, tm)
         == Ok(Assembly(map[Top(nodes, c) := HeadDesc(nodes, Top(nodes, c))], groups - Chain(nodes, c)))
    decreases c
  {
    if nodes[c].rawTypeId == NON_RAW_TYPE {
      ChainAtTop(nodes, groups, c, tm);
    } else {
      var p := nodes[c].rawTypeId;
      ChainStep(nodes, groups, c, tm);
      ChainStepBuild(nodes, groups, c, tm);
      BuildGenericOfChain(nodes, groups - {c}, p, tm[p := GenericType(c, p, HeadDesc(nodes, c))]);
    }
  }

  /** At a parameter's node, buildGeneric records its generic and stops. */
  lemma ChainAtTop(nodes: NodeTable, groups: Grouping, c: int, tm: map<int, GenericType>)
    requires Rooted(nodes) && Ordered(nodes) && SiblingsApart(nodes, NON_RAW_TYPE)
    requires c in nodes && HasChildren(nodes, c) && nodes[c].rawTypeId == NON_RAW_TYPE
    requires forall x :: x in Chain(nodes, c) ==> x in groups && groups[x] == GroupOf(nodes, x)
    requires TmFor(nodes, tm, c)
    ensures BuildGenericOf(nodes, groups, c, tm)
         == Ok(Assembly(map[Top(nodes, c) := HeadDesc(nodes, Top(nodes, c))], groups - Chain(nodes, c)))
  {
    var j :| j in nodes && nodes[j].rawTypeId == c;
    assert j in groups[c];
    GroupGenericIsHeadDesc(nodes, tm, c);
    BuildGenericOfTop(nodes, groups, c, tm);
  }

  /** Below a parameter's node, buildGeneric goes on at the enclosing node, in the state that node expects. */
  lemma ChainStep(nodes: NodeTable, groups: Grouping, c: int, tm: map<int, GenericType>)
    requires Rooted(nodes) && Ordered(nodes) && SiblingsApart(nodes, NON_RAW_TYPE)
    requires c in nodes && HasChildren(nodes, c) && nodes[c].rawTypeId != NON_RAW_TYPE
    requires forall x :: x in Chain(nodes, c) ==> x in groups && groups[x] == GroupOf(nodes, x)
    requires TmFor(nodes, tm, c)
    ensures var p := nodes[c].rawTypeId;
      && p in nodes && HasChildren(nodes, p)
      && (forall x :: x in Chain(nodes, p) ==> x in groups - {c} && (groups - {c})[x] == GroupOf(nodes, x))
      && TmFor(nodes, tm[p := GenericType(c, p, HeadDesc(nodes, c))], p)
  {
    var p := nodes[c].rawTypeId;
    TmForParent(nodes, tm, c);
    ChainUp(nodes, groups, c);
    forall x | x in Chain(nodes, p) ensures x in groups - {c} && (groups - {c})[x] == GroupOf(nodes, x) {
      assert x in Chain(nodes, c) && x != c;
    }
    assert HasChildren(nodes, p);
  }

  /** What buildGeneric below a parameter's node hands on to the enclosing node. */
  lemma ChainStepBuild(nodes: NodeTable, groups: Grouping, c: int, tm: map<int, GenericType>)
    requires Rooted(nodes) && Ordered(nodes)
    requires c in nodes && HasChildren(nodes, c) && nodes[c].rawTypeId != NON_RAW_TYPE
    requires forall x :: x in Chain(nodes, c) ==> x in groups && groups[x] == GroupOf(nodes, x)
    requires TmFor(nodes, tm, c)
    ensures var p := nodes[c].rawTypeId;
      && p in nodes
      && BuildGenericOf(nodes, groups, c, tm) == BuildGenericOf(nodes, groups - {c}, p, tm[p := GenericType(c, p, HeadDesc(nodes, c))])
      && Top(nodes, c) == Top(nodes, p)
      && (groups - {c}) - Chain(nodes, p) == groups - Chain(nodes, c)
  {
    var j :| j in nodes && nodes[j].rawTypeId == c;
    assert j in groups[c];
    assert groups[c] == GroupOf(nodes, c);
    GroupGenericIsHeadDesc(nodes, tm, c);
    BuildGenericOfUp(nodes, groups, c, tm);
    ChainUp(nodes, groups, c);
  }

  /**
   * The state of preparedGenericBeforeBuildClass's loop between two buildGeneric calls: the
   * groups left are untouched groups of the table, NON_RAW_TYPE's among them; a group inside
   * another is left exactly when that one is; and the generics finished are those of the
   * parameters with children whose groups are gone, as `HeadDesc` describes them.
   */
  ghost predicate Progress(nodes: NodeTable, groups: Grouping, prepared: map<int, TypeDesc>)
    requires Ordered(nodes)
  {
    && NON_RAW_TYPE in groups
    && (forall k :: k in groups ==>
          groups[k] == GroupOf(nodes, k) && (k == NON_RAW_TYPE || (k in nodes && HasChildren(nodes, k))))
    && (forall k :: k in nodes && HasChildren(nodes, k) && nodes[k].rawTypeId != NON_RAW_TYPE ==>
          (k in groups <==> nodes[k].rawTypeId in groups))
    && (forall k :: k in prepared <==>
          k in nodes && nodes[k].rawTypeId == NON_RAW_TYPE && HasChildren(nodes, k) && k !in groups)
    && (forall k :: k in prepared ==> prepared[k] == HeadDesc(nodes, k))
  }

  /** The loop starts in a progress state when some parameter has a node. */
  lemma ProgressAtStart(nodes: NodeTable)
    requires Rooted(nodes) && Ordered(nodes)
    requires exists k :: k in nodes && nodes[k].rawTypeId == NON_RAW_TYPE
    ensures Progress(nodes, GroupByRawTypeId(nodes), map[])
  {
    var groups := GroupByRawTypeId(nodes);
    forall k | k in groups ensures k == NON_RAW_TYPE || (k in nodes && HasChildren(nodes, k)) {
      var j :| j in nodes && nodes[j].rawTypeId == k;
    }
    forall k | k in nodes && HasChildren(nodes, k) && nodes[k].rawTypeId != NON_RAW_TYPE
      ensures k in groups && nodes[k].rawTypeId in groups
    {
      var j :| j in nodes && nodes[j].rawTypeId == k;
    }
    forall k | k in nodes && nodes[k].rawTypeId == NON_RAW_TYPE && HasChildren(nodes, k) ensures k in groups {
      var j :| j in nodes && nodes[j].rawTypeId == k;
    }
  }

  /** In a progress state, the largest group's node has no node with children directly inside it. */
  lemma LargestHasNoGenericChild(nodes: NodeTable, groups: Grouping, prepared: map<int, TypeDesc>, c: int)
    requires Rooted(nodes) && Ordered(nodes) && Progress(nodes, groups, prepared)
    requires MaxRawTypeId(groups.Keys) == Some(c)
    ensures c in groups && c in nodes && HasChildren(nodes, c)
    ensures forall y :: y in nodes && nodes[y].rawTypeId == c ==> !HasChildren(nodes, y)
  {
    forall y | y in nodes && nodes[y].rawTypeId == c ensures !HasChildren(nodes, y) {
    }
  }

  /** In a progress state, the chain of a group's node is still there. */
  lemma {:induction false} ChainInGroups(nodes: NodeTable, groups: Grouping, prepared: map<int, TypeDesc>, k: int)
    requires Rooted(nodes) && Ordered(nodes) && Progress(nodes, groups, prepared)
    requires k in groups && k in nodes && HasChildren(nodes, k)
    ensures forall x :: x in Chain(nodes, k) ==> x in groups && groups[x] == GroupOf(nodes, x)
    decreases k
  {
    var p := nodes[k].rawTypeId;
    if p != NON_RAW_TYPE {
      assert HasChildren(nodes, p);
      ChainInGroups(nodes, groups, prepared, p);
    }
  }

  /** One round of the loop, from a progress state: buildGeneric at the largest group consumes its chain. */
  lemma Round(nodes: NodeTable, groups: Grouping, prepared: map<int, TypeDesc>, c: int)
    requires Rooted(nodes) && Ordered(nodes) && SiblingsApart(nodes, NON_RAW_TYPE) && Progress(nodes, groups, prepared)
    requires MaxRawTypeId(groups.Keys) == Some(c)
    ensures c in nodes
    ensures BuildGenericOf(nodes, groups, c, map[])
         == Ok(Assembly(map[Top(nodes, c) := HeadDesc(nodes, Top(nodes, c))], groups - Chain(nodes, c)))
    ensures Progress(nodes, groups - Chain(nodes, c), prepared + map[Top(nodes, c) := HeadDesc(nodes, Top(nodes, c))])
  {
    LargestHasNoGenericChild(nodes, groups, prepared, c);
    ChainInGroups(nodes, groups, prepared, c);
    BuildGenericOfChain(nodes, groups, c, map[]);
    RoundProgress(nodes, groups, prepared, c);
  }

  /** Removing the chain of the largest group's node, and finishing its top, keeps the progress state. */
  lemma RoundProgress(nodes: NodeTable, groups: Grouping, prepared: map<int, TypeDesc>, c: int)
    requires Rooted(nodes) && Ordered(nodes) && SiblingsApart(nodes, NON_RAW_TYPE) && Progress(nodes, groups, prepared)
    requires c in groups && c in nodes && HasChildren(nodes, c)
    requires forall y :: y in nodes && nodes[y].rawTypeId == c ==> !HasChildren(nodes, y)
    requires forall x :: x in Chain(nodes, c) ==> x in groups
    ensures Progress(nodes, groups - Chain(nodes, c), prepared + map[Top(nodes, c) := HeadDesc(nodes, Top(nodes, c))])
  {
    ChainFacts(nodes, c);
    ChainHeads(nodes, c);
    ChainClosedDown(nodes, c);
    var chain, t := Chain(nodes, c), Top(nodes, c);
    var groups', prepared' := groups - chain, prepared + map[t := HeadDesc(nodes, t)];
    forall k | k in nodes && HasChildren(nodes, k) && nodes[k].rawTypeId != NON_RAW_TYPE
      ensures k in chain <==> nodes[k].rawTypeId in chain
    {
    }
    forall k ensures k in prepared' <==>
      k in nodes && nodes[k].rawTypeId == NON_RAW_TYPE && HasChildren(nodes, k) && k !in groups'
    {
    }
  }

  /** The generics of all parameters with children. */
  ghost function Finished(nodes: NodeTable): map<int, TypeDesc>
    requires Ordered(nodes)
  {
    map k | k in nodes && nodes[k].rawTypeId == NON_RAW_TYPE && HasChildren(nodes, k) :: HeadDesc(nodes, k)
  }

  /**
   * From a progress state, preparedGenericBeforeBuildClass's loop finishes the generics of all
   * parameters with children and leaves only NON_RAW_TYPE's group.
   */
  lemma {:induction false} AssembleFromExact(nodes: NodeTable, groups: Grouping, prepared: map<int, TypeDesc>)
    requires Rooted(nodes) && Ordered(nodes) && SiblingsApart(nodes, NON_RAW_TYPE) && Progress(nodes, groups, prepared)
    ensures AssembleFrom(nodes, groups, prepared)
         == Ok(Assembly(Finished(nodes), map[NON_RAW_TYPE := GroupOf(nodes, NON_RAW_TYPE)]))
    decreases |groups.Keys|
  {
    match MaxRawTypeId(groups.Keys)
    case None =>
      LoopDone(nodes, groups, prepared);
    case Some(c) =>
      Round(nodes, groups, prepared, c);
      var t := Top(nodes, c);
      var a := Assembly(map[t := HeadDesc(nodes, t)], groups - Chain(nodes, c));
      AssembleFromStep(nodes, groups, prepared, c, a);
      AssembleFromExact(nodes, a.groups, prepared + a.prepared);
  }

  /** One round of preparedGenericBeforeBuildClass's loop. */
  lemma AssembleFromStep(nodes: NodeTable, groups: Grouping, prepared: map<int, TypeDesc>, c: int, a: Assembly)
    requires MaxRawTypeId(groups.Keys) == Some(c) && BuildGenericOf(nodes, groups, c, map[]) == Ok(a)
    ensures |a.groups.Keys| < |groups.Keys|
    ensures AssembleFrom(nodes, groups, prepared) == AssembleFrom(nodes, a.groups, prepared + a.prepared)
  {
  }

  /** A progress state with no group but NON_RAW_TYPE's has finished every parameter with children. */
  lemma LoopDone(nodes: NodeTable, groups: Grouping, prepared: map<int, TypeDesc>)
    requires Rooted(nodes) && Ordered(nodes) && Progress(nodes, groups, prepared)
    requires MaxRawTypeId(groups.Keys) == None
    ensures prepared == Finished(nodes) && groups == map[NON_RAW_TYPE := GroupOf(nodes, NON_RAW_TYPE)]
  {
    assert forall k :: k in groups <==> k == NON_RAW_TYPE;
    assert forall k :: k in prepared <==> k in Finished(nodes);
  }

  /** The description of each parameter's node. */
  ghost function ParameterDescs(nodes: NodeTable): map<int, TypeDesc>
    requires Ordered(nodes)
  {
    map k | k in nodes && nodes[k].rawTypeId == NON_RAW_TYPE :: ParameterNodeDesc(nodes, k)
  }

  /**
   * On a rooted table with a parameter and without sibling nodes with children,
   * preparedGenericBeforeBuildClass gives every parameter's node its description: the generic
   * `HeadDesc` describes for one with children, its processed class otherwise.
   */
  lemma PreparedGenericExact(nodes: NodeTable)
    requires Rooted(nodes) && Ordered(nodes) && SiblingsApart(nodes, NON_RAW_TYPE)
    requires exists k :: k in nodes && nodes[k].rawTypeId == NON_RAW_TYPE
    ensures PreparedGenericOf(nodes) == Ok(ParameterDescs(nodes))
  {
    ProgressAtStart(nodes);
    var a := Assembly(Finished(nodes), map[NON_RAW_TYPE := GroupOf(nodes, NON_RAW_TYPE)]);
    AssembleFromExact(nodes, GroupByRawTypeId(nodes), map[]);
    PreparedGenericOfAssembly(nodes, a);
    FinishedAndRemaining(nodes);
  }

  /** preparedGenericBeforeBuildClass after its loop. */
  lemma PreparedGenericOfAssembly(nodes: NodeTable, a: Assembly)
    requires AssembleFrom(nodes, GroupByRawTypeId(nodes), map[]) == Ok(a) && NON_RAW_TYPE in a.groups
    ensures PreparedGenericOf(nodes) == Ok(a.prepared + RemainGeneric(a.groups[NON_RAW_TYPE], a.prepared))
  {
  }

  /** The finished generics and the remaining parameters, loaded as their classes, describe all parameters. */
  lemma FinishedAndRemaining(nodes: NodeTable)
    requires Ordered(nodes)
    ensures Finished(nodes) + RemainGeneric(GroupOf(nodes, NON_RAW_TYPE), Finished(nodes)) == ParameterDescs(nodes)
  {
    var finished := Finished(nodes);
    var all := finished + RemainGeneric(GroupOf(nodes, NON_RAW_TYPE), finished);
    forall k ensures k in all <==> k in ParameterDescs(nodes) {
    }
    forall k | k in all ensures all[k] == ParameterDescs(nodes)[k] {
    }
  }

  // ----- The carrier -----

  /** The descriptions of several type arguments are those of each, in order. */
  lemma {:induction false} ArgumentDescsAt(ct: ClassTable, props: seq<TypeProperty>, bindings: GenericTypeMap, fuel: nat)
    requires ArgumentDescs(ct, props, bindings, fuel).Ok?
    ensures forall i :: 0 <= i < |props| ==>
      ArgumentDesc(ct, props[i], bindings, fuel).Ok? && ArgumentDescs(ct, props, bindings, fuel).value[i] == ArgumentDesc(ct, props[i], bindings, fuel).value
    decreases |props|
  {
    if |props| > 0 {
      ArgumentDescsAt(ct, props[1..], bindings, fuel);
      forall i | 0 <= i < |props| ensures
        ArgumentDesc(ct, props[i], bindings, fuel).Ok? && ArgumentDescs(ct, props, bindings, fuel).value[i] == ArgumentDesc(ct, props[i], bindings, fuel).value
      {
        if i > 0 {
          assert props[1..][i - 1] == props[i];
        }
      }
    }
  }

  /** A parameter's node, described as a type argument and resolved as the walk resolves it, is described as a parameter. */
  lemma ParameterDescAt(ct: ClassTable, tp: TypeProperty, bindings: GenericTypeMap, fuel: nat, l: Linear, k: int)
    requires Ordered(l.nodes) && k in l.nodes
    requires ArgumentDesc(ct, tp, bindings, fuel) == Ok(NodeDesc(l.nodes, k))
    requires Resolved(ct, tp, bindings, fuel).Ok? && HeadFor(l, k, Resolved(ct, tp, bindings, fuel).value, ct)
    ensures ParameterDesc(ct, tp, bindings, fuel) == Ok(ParameterNodeDesc(l.nodes, k))
  {
  }

  /** The walk of the parameters records for each a node described as the parameter is. */
  lemma WalkParameterDescs(ct: ClassTable, props: seq<TypeProperty>, bindings: GenericTypeMap, fuel: nat)
    requires LinearizedAll(ct, props, 0, NON_RAW_TYPE, bindings, fuel).Ok?
    ensures var l := LinearizedAll(ct, props, 0, NON_RAW_TYPE, bindings, fuel).value;
      && Ordered(l.nodes) && |l.roots| == |props|
      && forall i :: 0 <= i < |props| ==>
           l.roots[i] in l.nodes && ParameterDesc(ct, props[i], bindings, fuel) == Ok(ParameterNodeDesc(l.nodes, l.roots[i]))
  {
    var l := LinearizedAll(ct, props, 0, NON_RAW_TYPE, bindings, fuel).value;
    WalkAllDescribes(ct, props, 0, NON_RAW_TYPE, bindings, fuel);
    WalkAllResolves(ct, props, 0, NON_RAW_TYPE, bindings, fuel);
    ArgumentDescsAt(ct, props, bindings, fuel);
    forall i | 0 <= i < |props|
      ensures ParameterDesc(ct, props[i], bindings, fuel) == Ok(ParameterNodeDesc(l.nodes, l.roots[i]))
    {
      ParameterDescAt(ct, props[i], bindings, fuel, l, l.roots[i]);
    }
  }

  /** The parameters' descriptions are keyed by the parameters' nodes, in walk order. */
  lemma ParameterDescsKeys(l: Linear)
    requires Tagged(l, 0, NON_RAW_TYPE)
    ensures Rooted(l.nodes) && Ordered(l.nodes)
    ensures SortedKeys(ParameterDescs(l.nodes).Keys) == l.roots
  {
    TaggedRooted(l);
    var keys := SortedKeys(ParameterDescs(l.nodes).Keys);
    forall x ensures x in keys <==> x in l.roots {
      if x in l.roots {
        var i :| 0 <= i < |l.roots| && l.roots[i] == x;
      }
    }
    IncreasingUnique(keys, l.roots);
  }

  /**
   * For parameters none of which meets a generic with two generic type arguments, once the walk
   * succeeds: without parameters the build fails with a NullPointerException; otherwise it fails
   * exactly when there are fewer names than parameters, and then with an
   * IndexOutOfBoundsException; and the class it builds has one property per parameter, in
   * parameter order, named by the parameter's name and described as `ParameterDesc` says.
   */
  lemma CarrierDescribesParameters(ct: ClassTable, parameterTypes: seq<JType>, parameterNames: seq<string>,
                                   genericTypeMap: GenericTypeMap, fuel: nat)
    requires LinearizedAll(ct, PlainProperties(parameterTypes), 0, NON_RAW_TYPE, genericTypeMap, fuel).Ok?
    requires AllNoSiblingGenerics(ct, PlainProperties(parameterTypes), genericTypeMap, fuel)
    ensures var r := ExampleCarrier(ct, parameterTypes, parameterNames, genericTypeMap, fuel);
      && (|parameterTypes| == 0 ==> r == Err(NullPointer))
      && (|parameterTypes| > 0 ==> (r.Ok? <==> |parameterTypes| <= |parameterNames|))
      && (|parameterTypes| > 0 && r.Err? ==> r.error == IndexOutOfBounds)
      && (r.Ok? ==>
            && r.value.Synthesized?
            && |r.value.fields| == |parameterTypes|
            && forall i :: 0 <= i < |parameterTypes| ==>
                 var d := ParameterDesc(ct, TypeProperty(parameterTypes[i], false), genericTypeMap, fuel);
                 d.Ok? && r.value.fields[i] == CarrierField(parameterNames[i], d.value))
  {
    if |parameterTypes| == 0 {
      NoParametersFail(ct, parameterNames, genericTypeMap, fuel);
    } else {
      var props := PlainProperties(parameterTypes);
      var l := LinearizedAll(ct, props, 0, NON_RAW_TYPE, genericTypeMap, fuel).value;
      LinearizedAllTagged(ct, props, 0, NON_RAW_TYPE, genericTypeMap, fuel);
      ParameterDescsKeys(l);
      WalkAllSiblings(ct, props, 0, NON_RAW_TYPE, genericTypeMap, fuel);
      WalkParameterDescs(ct, props, genericTypeMap, fuel);
      assert l.roots[0] in l.nodes && l.nodes[l.roots[0]].rawTypeId == NON_RAW_TYPE;
      PreparedGenericExact(l.nodes);
      var pg := ParameterDescs(l.nodes);
      assert ExampleCarrier(ct, parameterTypes, parameterNames, genericTypeMap, fuel) == CarrierOf(parameterNames, pg);
      var r := CarrierOf(parameterNames, pg);
      if r.Ok? {
        CarrierInIdOrder(parameterNames, pg);
        forall i | 0 <= i < |parameterTypes|
          ensures var d := ParameterDesc(ct, TypeProperty(parameterTypes[i], false), genericTypeMap, fuel);
            d.Ok? && r.value.fields[i] == CarrierField(parameterNames[i], d.value)
        {
          assert props[i] == TypeProperty(parameterTypes[i], false);
        }
      }
    }
  }

  /**
   * What the field of a parameter resolving to `tp` is: Object in place of a private class; the
   * raw class itself when the type has no type arguments; otherwise a parameterized type over the
   * raw class and owner type, inside an array type when the parameter is an array.
   */
  ghost predicate FieldDescribes(ct: ClassTable, tp: TypeProperty, d: TypeDesc)
    requires tp.t.Class? || tp.t.Param?
  {
    if IsPrivate(ct, RawClassOf(tp.t)) then d == ForLoadedType(OBJECT)
    else if !(tp.t.Param? && |tp.t.args| > 0) then d == ForLoadedType(RawClassOf(tp.t))
    else if tp.isArray then
      d.ArrayDesc? && d.component.Parameterized? && d.component.raw == RawClassOf(tp.t) && d.component.owner == tp.t.owner
    else
      d.Parameterized? && d.raw == RawClassOf(tp.t) && d.owner == tp.t.owner
  }

  /** The prepared generic of a parameter's node describes the type the node was recorded for. */
  lemma FieldOfHead(ct: ClassTable, l: Linear, preparedGeneric: map<int, TypeDesc>, k: int, tp: TypeProperty)
    requires tp.t.Class? || tp.t.Param?
    requires HeadFor(l, k, tp, ct) && k in preparedGeneric
    requires !HasChildren(l.nodes, k) ==> preparedGeneric[k] == ForLoadedType(ProcessRemainParameterType(l.nodes[k]).cls)
    requires HasChildren(l.nodes, k) ==> DescribesHead(l.nodes[k], preparedGeneric[k])
    ensures FieldDescribes(ct, tp, preparedGeneric[k])
  {
  }

  /**
   * Once the walk and the assembly succeed, buildClass fails exactly when there are fewer names
   * than parameters; otherwise the class has one property per parameter, in parameter order,
   * named by the parameter's name and typed as the type the parameter resolves to dictates.
   */
  lemma {:induction false} CarrierFollowsParameters(ct: ClassTable, parameterTypes: seq<JType>,
                                                    parameterNames: seq<string>, genericTypeMap: GenericTypeMap, fuel: nat)
    requires LinearizedAll(ct, PlainProperties(parameterTypes), 0, NON_RAW_TYPE, genericTypeMap, fuel).Ok?
    requires PreparedGenericOf(LinearizedAll(ct, PlainProperties(parameterTypes), 0, NON_RAW_TYPE, genericTypeMap, fuel).value.nodes).Ok?
    ensures var r := ExampleCarrier(ct, parameterTypes, parameterNames, genericTypeMap, fuel);
      && (r.Ok? <==> |parameterTypes| <= |parameterNames|)
      && (r.Err? ==> r.error == IndexOutOfBounds)
      && (r.Ok? ==>
            && r.value.Synthesized?
            && |r.value.fields| == |parameterTypes|
            && forall i :: 0 <= i < |parameterTypes| ==>
                 var tp := Resolved(ct, TypeProperty(parameterTypes[i], false), genericTypeMap, fuel);
                 && r.value.fields[i].name == parameterNames[i]
                 && tp.Ok? && FieldDescribes(ct, tp.value, r.value.fields[i].desc))
  {
    var props := PlainProperties(parameterTypes);
    var l := LinearizedAll(ct, props, 0, NON_RAW_TYPE, genericTypeMap, fuel).value;
    var preparedGeneric := PreparedGenericOf(l.nodes).value;
    WalkAllResolves(ct, props, 0, NON_RAW_TYPE, genericTypeMap, fuel);
    LinearizedAllTagged(ct, props, 0, NON_RAW_TYPE, genericTypeMap, fuel);
    PreparedGenericCoversParameters(l, preparedGeneric);
    assert |preparedGeneric.Keys| == |parameterTypes|;
    var r := CarrierOf(parameterNames, preparedGeneric);
    assert ExampleCarrier(ct, parameterTypes, parameterNames, genericTypeMap, fuel) == r;
    if r.Ok? {
      CarrierInIdOrder(parameterNames, preparedGeneric);
      forall i | 0 <= i < |parameterTypes|
        ensures var tp := Resolved(ct, TypeProperty(parameterTypes[i], false), genericTypeMap, fuel);
          tp.Ok? && FieldDescribes(ct, tp.value, r.value.fields[i].desc)
      {
        assert props[i] == TypeProperty(parameterTypes[i], false);
        var k := l.roots[i];
        assert r.value.fields[i].desc == preparedGeneric[k];
        FieldOfHead(ct, l, preparedGeneric, k, Resolved(ct, props[i], genericTypeMap, fuel).value);
      }
    }
  }
}
