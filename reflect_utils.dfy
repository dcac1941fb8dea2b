/**
 * The type-resolution helpers of SwaggerReflectUtils: the binding map read off a superclass
 * chain, resolution of type variables and wildcards, the class a type stands for, the
 * flattening of a type into its classes, the field lookup up the hierarchy, and the pass that
 * replaces top-level JSON nulls.
 *
 * Recursion over type expressions carries `fuel`, the call depth still available: a chain of
 * type variables can loop (a binding map can send a variable to itself), and the source then
 * ends in a StackOverflowError.
 */
module ReflectUtils {
  import opened JavaTypes
  import opened JsonTrees

  /** For each class, the generic type expression through which it is parameterized. */
  type GenericTypeMap = map<ClassRef, JType>

  /** A Class or ParameterizedType expression: something that names a class. */
  predicate IsClassExpr(t: JType)
  {
    t.Class? || t.Param?
  }

  // ----- getGenericTypeMap -----

  /** The measure of the superclass walk, starting at the generic superclass `sup`. */
  function ChainMeasure(ct: ClassTable, sup: Option<JType>): nat
  {
    match sup
    case None => 0
    case Some(g) => if IsClassExpr(g) && RawClassOf(g) != OBJECT then Info(ct, RawClassOf(g)).depth + 1 else 0
  }

  /**
   * The entries the superclass walk adds when it starts at the generic superclass `sup`:
   * each class up to, but excluding, Object maps to the expression by which it was reached.
   */
  function SuperclassBindings(ct: ClassTable, sup: Option<JType>): GenericTypeMap
    requires WellFormed(ct)
    requires sup.Some? ==> IsClassExpr(sup.value)
    decreases ChainMeasure(ct, sup)
  {
    if sup.None? || RawClassOf(sup.value) == OBJECT then map[]
    else
      var c := RawClassOf(sup.value);
      assert SuperclassOk(ct, c);
      map[c := sup.value] + SuperclassBindings(ct, Info(ct, c).genericSuperclass)
  }

  /** The map getGenericTypeMap returns for a Class or ParameterizedType. */
  function GenericTypeMapOf(ct: ClassTable, t: JType): GenericTypeMap
    requires WellFormed(ct) && IsClassExpr(t)
  {
    var c := RawClassOf(t);
    assert SuperclassOk(ct, c);
    var chain := SuperclassBindings(ct, Info(ct, c).genericSuperclass);
    if t.Param? then map[c := t] + chain else chain
  }

  /** getGenericTypeMap: walk the generic superclasses until null or Object. */
  method GetGenericTypeMap(ct: ClassTable, t: JType) returns (genericTypeMap: GenericTypeMap)
    requires WellFormed(ct) && IsClassExpr(t)
    ensures genericTypeMap == GenericTypeMapOf(ct, t)
  {
    genericTypeMap := map[];
    var genericSuperclass: Option<JType>;
    if t.Param? {
      var actualClazz := Named(t.raw);
      genericTypeMap := genericTypeMap[actualClazz := t];
      assert SuperclassOk(ct, actualClazz);
      genericSuperclass := Info(ct, actualClazz).genericSuperclass;
    } else {
      assert SuperclassOk(ct, t.cls);
      genericSuperclass := Info(ct, t.cls).genericSuperclass;
    }
    while true
      invariant genericSuperclass.Some? ==> IsClassExpr(genericSuperclass.value)
      invariant GenericTypeMapOf(ct, t) == genericTypeMap + SuperclassBindings(ct, genericSuperclass)
      decreases ChainMeasure(ct, genericSuperclass)
    {
      if genericSuperclass.None? {
        break;
      }
      var actualSuperClazz := RawClassOf(genericSuperclass.value);
      if actualSuperClazz == OBJECT {
        break;
      }
      assert SuperclassOk(ct, actualSuperClazz);
      UpdateThenUnion(genericTypeMap, actualSuperClazz, genericSuperclass.value,
                      SuperclassBindings(ct, Info(ct, actualSuperClazz).genericSuperclass));
      genericTypeMap := genericTypeMap[actualSuperClazz := genericSuperclass.value];
      genericSuperclass := Info(ct, actualSuperClazz).genericSuperclass;
    }
  }

  lemma UpdateThenUnion<K, V>(m: map<K, V>, k: K, v: V, rest: map<K, V>)
    ensures m + (map[k := v] + rest) == m[k := v] + rest
  {
    assert forall x :: x in m + (map[k := v] + rest) <==> x in m[k := v] + rest;
  }

  /** Class `k` extends the class named by `g`, through the expression `g`, and that class is not Object. */
  ghost predicate ExtendsVia(ct: ClassTable, k: ClassRef, g: JType)
  {
    Info(ct, k).genericSuperclass == Some(g) && IsClassExpr(g) && RawClassOf(g) != OBJECT
  }

  /** What the walk from `sup` adds: keyed by the class each expression names, closed upward, nothing else. */
  lemma {:induction false} SuperclassBindingsShape(ct: ClassTable, sup: Option<JType>)
    requires WellFormed(ct)
    requires sup.Some? ==> IsClassExpr(sup.value)
    ensures var m := SuperclassBindings(ct, sup);
      && (forall k :: k in m ==>
            k != OBJECT && IsClassExpr(m[k]) && RawClassOf(m[k]) == k && Info(ct, k).depth < ChainMeasure(ct, sup))
      && (sup.Some? && RawClassOf(sup.value) != OBJECT ==>
            RawClassOf(sup.value) in m && m[RawClassOf(sup.value)] == sup.value)
      && (forall k, g :: k in m && ExtendsVia(ct, k, g) ==> RawClassOf(g) in m && m[RawClassOf(g)] == g)
      && (forall k :: k in m ==>
            (sup.Some? && k == RawClassOf(sup.value)) || exists k' :: k' in m && ExtendsVia(ct, k', m[k]))
    decreases ChainMeasure(ct, sup)
  {
    if sup.Some? && RawClassOf(sup.value) != OBJECT {
      var c := RawClassOf(sup.value);
      assert SuperclassOk(ct, c);
      var next := Info(ct, c).genericSuperclass;
      var rest := SuperclassBindings(ct, next);
      SuperclassBindingsShape(ct, next);
      var m := SuperclassBindings(ct, sup);
      assert m == map[c := sup.value] + rest;
      assert c !in rest;
      forall k, g | k in m && ExtendsVia(ct, k, g)
        ensures RawClassOf(g) in m && m[RawClassOf(g)] == g
      {
        assert k == c || k in rest;
        if k == c {
          assert next == Some(g);
        }
      }
      forall k | k in m
        ensures k == c || exists k' :: k' in m && ExtendsVia(ct, k', m[k])
      {
        if k != c {
          assert k in rest;
          if k == RawClassOf(next.value) {
            assert m[k] == next.value;
            assert ExtendsVia(ct, c, m[k]);
          } else {
            var k' :| k' in rest && ExtendsVia(ct, k', rest[k]);
            assert k' in m && m[k] == rest[k];
          }
        }
      }
    }
  }

  /**
   * getGenericTypeMap: a parameterized input maps its raw class to itself; a plain class input
   * is not a key; every other key is a superclass other than Object, mapped to an expression
   * naming it; the map is closed under taking the superclass (up to Object), each reached
   * superclass mapped to the expression by which it was reached; and every other key was
   * reached that way from the input class or from another key.
   */
  lemma GenericTypeMapShape(ct: ClassTable, t: JType)
    requires WellFormed(ct) && IsClassExpr(t)
    ensures var m := GenericTypeMapOf(ct, t); var c := RawClassOf(t);
      && (t.Param? ==> c in m && m[c] == t)
      && (t.Class? ==> c !in m)
      && (forall k :: k in m && k != c ==> k != OBJECT && IsClassExpr(m[k]) && RawClassOf(m[k]) == k)
      && (forall k, g :: (k == c || k in m) && ExtendsVia(ct, k, g) ==> RawClassOf(g) in m && m[RawClassOf(g)] == g)
      && (forall k :: k in m && k != c ==> exists k' :: (k' == c || k' in m) && ExtendsVia(ct, k', m[k]))
  {
    var c := RawClassOf(t);
    assert SuperclassOk(ct, c);
    var sup := Info(ct, c).genericSuperclass;
    var chain := SuperclassBindings(ct, sup);
    SuperclassBindingsShape(ct, sup);
    assert c !in chain;
    var m := GenericTypeMapOf(ct, t);
    assert forall k :: k in m && k != c ==> k in chain && m[k] == chain[k];
    forall k, g | (k == c || k in m) && ExtendsVia(ct, k, g)
      ensures RawClassOf(g) in m && m[RawClassOf(g)] == g
    {
      if k == c {
        assert sup == Some(g);
      } else {
        assert k in chain;
      }
    }
    forall k | k in m && k != c
      ensures exists k' :: (k' == c || k' in m) && ExtendsVia(ct, k', m[k])
    {
      assert k in chain;
      if sup.Some? && k == RawClassOf(sup.value) {
        assert ExtendsVia(ct, c, m[k]);
      } else {
        var k' :| k' in chain && ExtendsVia(ct, k', chain[k]);
        assert k' in m;
      }
    }
  }

  // ----- getActualTypeByTypeVariable -----

  /** The position of the first element equal to `x`. */
  function FirstIndexOf(xs: seq<string>, x: string): (r: Option<nat>)
    ensures r.Some? ==> r.value < |xs| && xs[r.value] == x && forall j :: 0 <= j < r.value ==> xs[j] != x
    ensures r.None? ==> forall j :: 0 <= j < |xs| ==> xs[j] != x
  {
    if |xs| == 0 then None
    else if xs[0] == x then Some(0)
    else match FirstIndexOf(xs[1..], x)
      case None => None
      case Some(i) => Some(i + 1)
  }

  /** The position the source's search settles on: the first parameter with that name, else 0. */
  function TypeParameterIndex(names: seq<string>, name: string): nat
  {
    match FirstIndexOf(names, name)
    case Some(i) => i
    case None => 0
  }

  /**
   * The type a type variable stands for: the argument at the variable's position in the
   * parameterized type the map holds for its declaring class, or Object when the map holds no
   * parameterized type for it. A variable declared by a method fails the cast to Class.
   */
  function TypeVariableBinding(ct: ClassTable, name: string, decl: GenericDeclaration, bindings: GenericTypeMap): Result<JType>
  {
    match decl
    case MethodDecl(_) => Err(ClassCast)
    case ClassDecl(c) =>
      var index := TypeParameterIndex(Info(ct, Named(c)).typeParameters, name);
      if Named(c) in bindings && bindings[Named(c)].Param? then
        var args := bindings[Named(c)].args;
        if index < |args| then Ok(args[index]) else Err(IndexOutOfBounds)
      else Ok(Class(OBJECT))
  }

  /** getActualTypeByTypeVariable, with its search loop over the declared type parameters. */
  method GetActualTypeByTypeVariable(ct: ClassTable, v: JType, bindings: GenericTypeMap) returns (r: Result<JType>)
    requires v.TypeVar?
    ensures r == TypeVariableBinding(ct, v.name, v.decl, bindings)
  {
    var typeName := v.name;
    if v.decl.MethodDecl? {
      return Err(ClassCast);
    }
    var genericDeclarationClazz := Named(v.decl.cls);
    var typeVariables := Info(ct, genericDeclarationClazz).typeParameters;
    var index := 0;
    var i := 0;
    while i < |typeVariables|
      invariant 0 <= i <= |typeVariables|
      invariant forall j :: 0 <= j < i ==> typeVariables[j] != typeName
      invariant index == 0
    {
      if typeName == typeVariables[i] {
        index := i;
        break;
      }
      i := i + 1;
    }
    assert index == TypeParameterIndex(typeVariables, typeName);
    if genericDeclarationClazz in bindings && bindings[genericDeclarationClazz].Param? {
      var actualTypeArguments := bindings[genericDeclarationClazz].args;
      if index >= |actualTypeArguments| {
        return Err(IndexOutOfBounds);
      }
      r := Ok(actualTypeArguments[index]);
    } else {
      r := Ok(Class(OBJECT));
    }
  }

  /**
   * A class that extends `Base<A1, ..., An>`: resolving Base's i-th type variable against the
   * binding map of the subclass yields Ai.
   */
  lemma SubclassFixesTypeArgument(ct: ClassTable, sub: ClassRef, base: ClassName, owner: Option<JType>,
                                  args: seq<JType>, i: nat)
    requires WellFormed(ct)
    requires Info(ct, sub).genericSuperclass == Some(Param(base, owner, args))
    requires Named(base) != OBJECT
    requires i < |Info(ct, Named(base)).typeParameters| && i < |args|
    requires forall j :: 0 <= j < i ==> Info(ct, Named(base)).typeParameters[j] != Info(ct, Named(base)).typeParameters[i]
    ensures TypeVariableBinding(ct, Info(ct, Named(base)).typeParameters[i], ClassDecl(base),
                                GenericTypeMapOf(ct, Class(sub))) == Ok(args[i])
  {
    GenericTypeMapShape(ct, Class(sub));
    var params := Info(ct, Named(base)).typeParameters;
    assert ExtendsVia(ct, sub, Param(base, owner, args));
    assert FirstIndexOf(params, params[i]) == Some(i);
  }

  // ----- getActualTypeByWildcardType -----

  /** The bound a wildcard resolves to: its only lower bound, else its only upper bound, else Object. */
  function WildcardBound(lower: seq<JType>, upper: seq<JType>): (r: JType)
    ensures |lower| == 1 ==> r == lower[0]
    ensures |lower| != 1 && |upper| == 1 ==> r == upper[0]
    ensures |lower| != 1 && |upper| != 1 ==> r == Class(OBJECT)
  {
    if |lower| == 1 then lower[0]
    else if |upper| == 1 then upper[0]
    else Class(OBJECT)
  }

  // ----- getActualType -----

  /**
   * The class a type stands for. A class array yields its component class, a parameterized
   * type its raw class, a generic array the array class of its resolved component; variables
   * and wildcards are resolved and, unless that gives a class, resolved again.
   */
  function ActualType(ct: ClassTable, t: JType, bindings: GenericTypeMap, fuel: nat): (r: Result<ClassRef>)
    ensures t.Class? ==> r == Ok(if t.cls.ArrayOf? then t.cls.component else t.cls)
    ensures t.Param? ==> r == Ok(Named(t.raw))
    ensures t.GenericArray? && r.Ok? ==>
      exists c :: r.value == ArrayOf(c) && (fuel > 0 && ActualType(ct, t.comp, bindings, fuel - 1) == Ok(c))
    decreases fuel
  {
    match t
    case Class(c) => Ok(if c.ArrayOf? then c.component else c)
    case Param(raw, _, _) => Ok(Named(raw))
    case TypeVar(name, decl) =>
      var a :- TypeVariableBinding(ct, name, decl, bindings);
      ActualTypeAgain(ct, a, bindings, fuel)
    case Wildcard(lower, upper) =>
      ActualTypeAgain(ct, WildcardBound(lower, upper), bindings, fuel)
    case GenericArray(comp) =>
      if fuel == 0 then Err(StackOverflow)
      else
        var c :- ActualType(ct, comp, bindings, fuel - 1);
        Ok(ArrayOf(c))
  }

  /** A resolved type that is a class is the answer; otherwise it is resolved once more. */
  function ActualTypeAgain(ct: ClassTable, a: JType, bindings: GenericTypeMap, fuel: nat): Result<ClassRef>
    decreases fuel, 0
  {
    if a.Class? then Ok(a.cls)
    else if fuel == 0 then Err(StackOverflow)
    else ActualType(ct, a, bindings, fuel - 1)
  }

  // ----- findDeclaredField -----

  /** The first field of `fs` with the given name. */
  function FirstFieldNamed(fs: seq<Field>, name: string): (r: Option<Field>)
    ensures r.Some? ==> exists i :: 0 <= i < |fs| && fs[i] == r.value && r.value.name == name
                          && forall j :: 0 <= j < i ==> fs[j].name != name
    ensures r.None? ==> forall f :: f in fs ==> f.name != name
  {
    if |fs| == 0 then None
    else if fs[0].name == name then Some(fs[0])
    else FirstFieldNamed(fs[1..], name)
  }

  /**
   * findDeclaredField: the first same-named field declared by the class, else the result of
   * searching its superclass; Object's fields are never searched, and a missing superclass
   * (null) is dereferenced.
   */
  function FindDeclaredField(ct: ClassTable, c: ClassRef, name: string): (r: Result<Option<Field>>)
    requires WellFormed(ct)
    ensures r.Ok? && r.value.Some? ==> r.value.value.name == name
    decreases Info(ct, c).depth
  {
    match FirstFieldNamed(Info(ct, c).declaredFields, name)
    case Some(f) => Ok(Some(f))
    case None =>
      assert SuperclassOk(ct, c);
      match Info(ct, c).genericSuperclass
      case None => Err(NullPointer)
      case Some(g) =>
        var superClazz := RawClassOf(g);
        if superClazz == OBJECT then Ok(None) else FindDeclaredField(ct, superClazz, name)
  }

  /** The class and its superclasses, up to but excluding Object, or up to a class with no superclass. */
  ghost function Lineage(ct: ClassTable, c: ClassRef): seq<ClassRef>
    requires WellFormed(ct)
    decreases Info(ct, c).depth
  {
    assert SuperclassOk(ct, c);
    match Info(ct, c).genericSuperclass
    case None => [c]
    case Some(g) => if RawClassOf(g) == OBJECT then [c] else [c] + Lineage(ct, RawClassOf(g))
  }

  /** Whether the walk up from `c` reaches Object (rather than a class with no superclass). */
  ghost predicate ReachesObject(ct: ClassTable, c: ClassRef)
    requires WellFormed(ct)
    decreases Info(ct, c).depth
  {
    assert SuperclassOk(ct, c);
    match Info(ct, c).genericSuperclass
    case None => false
    case Some(g) => RawClassOf(g) == OBJECT || ReachesObject(ct, RawClassOf(g))
  }

  ghost predicate NoFieldNamed(ct: ClassTable, k: ClassRef, name: string)
  {
    FirstFieldNamed(Info(ct, k).declaredFields, name).None?
  }

  /** A linear search down a list of classes: the first same-named field of the first class declaring one. */
  ghost function SearchClasses(ct: ClassTable, l: seq<ClassRef>, name: string): (r: Option<Field>)
    ensures r.None? <==> forall k :: k in l ==> NoFieldNamed(ct, k, name)
    ensures r.Some? ==>
      exists i :: 0 <= i < |l| && FirstFieldNamed(Info(ct, l[i]).declaredFields, name) == r
                  && forall j :: 0 <= j < i ==> NoFieldNamed(ct, l[j], name)
  {
    if |l| == 0 then None
    else match FirstFieldNamed(Info(ct, l[0]).declaredFields, name)
      case Some(f) =>
        assert l[0] in l && !NoFieldNamed(ct, l[0], name);
        Some(f)
      case None =>
        var r := SearchClasses(ct, l[1..], name);
        assert forall k :: k in l ==> k == l[0] || k in l[1..];
        if r.Some? then
          var i :| 0 <= i < |l[1..]| && FirstFieldNamed(Info(ct, l[1..][i]).declaredFields, name) == r
                    && forall j :: 0 <= j < i ==> NoFieldNamed(ct, l[1..][j], name);
          assert FirstFieldNamed(Info(ct, l[i + 1]).declaredFields, name) == r;
          assert forall j :: 0 <= j < i + 1 ==> NoFieldNamed(ct, l[j], name) by {
            forall j | 0 <= j < i + 1 ensures NoFieldNamed(ct, l[j], name) {
              if j > 0 { assert l[j] == l[1..][j - 1]; }
            }
          }
          r
        else r
  }

  /** Past the starting class, the lineage never contains Object. */
  lemma {:induction false} LineageAvoidsObject(ct: ClassTable, c: ClassRef)
    requires WellFormed(ct)
    ensures var l := Lineage(ct, c); |l| > 0 && l[0] == c && forall i :: 1 <= i < |l| ==> l[i] != OBJECT
    decreases Info(ct, c).depth
  {
    assert SuperclassOk(ct, c);
    match Info(ct, c).genericSuperclass {
      case None =>
      case Some(g) =>
        if RawClassOf(g) != OBJECT {
          LineageAvoidsObject(ct, RawClassOf(g));
        }
    }
  }

  /**
   * findDeclaredField is the linear search down the lineage of the class: a field if some
   * class of the lineage declares the name, else null when the walk reached Object, else a
   * NullPointerException from passing on a missing superclass.
   */
  lemma {:induction false} FindDeclaredFieldSearchesLineage(ct: ClassTable, c: ClassRef, name: string)
    requires WellFormed(ct)
    ensures FindDeclaredField(ct, c, name) ==
      match SearchClasses(ct, Lineage(ct, c), name)
      case Some(f) => Ok(Some(f))
      case None => if ReachesObject(ct, c) then Ok(None) else Err(NullPointer)
    decreases Info(ct, c).depth
  {
    assert SuperclassOk(ct, c);
    var l := Lineage(ct, c);
    LineageAvoidsObject(ct, c);
    if FirstFieldNamed(Info(ct, c).declaredFields, name).None? {
      match Info(ct, c).genericSuperclass {
        case None =>
          assert l == [c];
        case Some(g) =>
          var s := RawClassOf(g);
          if s == OBJECT {
            assert l == [c];
          } else {
            FindDeclaredFieldSearchesLineage(ct, s, name);
            assert l[1..] == Lineage(ct, s);
          }
      }
    }
  }

  // ----- findAllTypeFromType -----

  /**
   * findAllTypeFromType: the classes a type is made of. A parameterized type contributes its
   * raw class, then the flattening of each argument in order; variables, wildcards and generic
   * arrays contribute what they resolve to; a class array contributes its innermost component.
   */
  function FindAllTypes(ct: ClassTable, t: JType, bindings: GenericTypeMap, fuel: nat): (r: Result<seq<ClassRef>>)
    ensures r.Ok? ==> |r.value| > 0 && forall c :: c in r.value ==> c.Named?
    ensures r.Ok? && t.Param? ==> r.value[0] == Named(t.raw)
    decreases fuel, 0
  {
    match t
    case Param(raw, _, args) =>
      if fuel == 0 then Err(StackOverflow)
      else
        var rest :- FindAllTypesOfAll(ct, args, bindings, fuel - 1);
        Ok([Named(raw)] + rest)
    case TypeVar(name, decl) =>
      var a :- TypeVariableBinding(ct, name, decl, bindings);
      if fuel == 0 then Err(StackOverflow) else FindAllTypes(ct, a, bindings, fuel - 1)
    case Wildcard(lower, upper) =>
      if fuel == 0 then Err(StackOverflow) else FindAllTypes(ct, WildcardBound(lower, upper), bindings, fuel - 1)
    case GenericArray(comp) =>
      if fuel == 0 then Err(StackOverflow) else FindAllTypes(ct, comp, bindings, fuel - 1)
    case Class(c) =>
      if c.Named? then Ok([c])
      else if fuel == 0 then Err(StackOverflow)
      else FindAllTypes(ct, Class(c.component), bindings, fuel - 1)
  }

  /** The flattenings of several types, concatenated in order. */
  function FindAllTypesOfAll(ct: ClassTable, ts: seq<JType>, bindings: GenericTypeMap, fuel: nat): (r: Result<seq<ClassRef>>)
    ensures r.Ok? ==> forall c :: c in r.value ==> c.Named?
    ensures r.Ok? ==> |r.value| >= |ts|
    decreases fuel, |ts| + 1
  {
    if |ts| == 0 then Ok([])
    else
      var first :- FindAllTypes(ct, ts[0], bindings, fuel);
      var rest :- FindAllTypesOfAll(ct, ts[1..], bindings, fuel);
      Ok(first + rest)
  }

  /** A flattening as it continues with the flattening `r` of further types. */
  function ThenFlattening(first: Result<seq<ClassRef>>, r: Result<seq<ClassRef>>): Result<seq<ClassRef>>
  {
    match first
    case Err(e) => Err(e)
    case Ok(a) => match r
      case Err(e) => Err(e)
      case Ok(b) => Ok(a + b)
  }

  /**
   * The flattening of one list of types followed by another is the flattening of the first,
   * then that of the second; the first failure is the list's failure.
   */
  lemma {:induction false} FindAllTypesOfAllAppend(ct: ClassTable, ts: seq<JType>, us: seq<JType>,
                                                   bindings: GenericTypeMap, fuel: nat)
    ensures FindAllTypesOfAll(ct, ts + us, bindings, fuel)
         == ThenFlattening(FindAllTypesOfAll(ct, ts, bindings, fuel), FindAllTypesOfAll(ct, us, bindings, fuel))
    decreases |ts|
  {
    if |ts| == 0 {
      assert ts + us == us;
      var r := FindAllTypesOfAll(ct, us, bindings, fuel);
      if r.Ok? {
        assert [] + r.value == r.value;
      }
    } else {
      assert (ts + us)[0] == ts[0];
      assert (ts + us)[1..] == ts[1..] + us;
      FindAllTypesOfAllAppend(ct, ts[1..], us, bindings, fuel);
      var first := FindAllTypes(ct, ts[0], bindings, fuel);
      var mid := FindAllTypesOfAll(ct, ts[1..], bindings, fuel);
      var last := FindAllTypesOfAll(ct, us, bindings, fuel);
      if first.Ok? && mid.Ok? && last.Ok? {
        assert first.value + (mid.value + last.value) == (first.value + mid.value) + last.value;
      }
    }
  }

  /** The flattening of a one-type list is the flattening of that type. */
  lemma FindAllTypesOfOne(ct: ClassTable, t: JType, bindings: GenericTypeMap, fuel: nat)
    ensures FindAllTypesOfAll(ct, [t], bindings, fuel) == FindAllTypes(ct, t, bindings, fuel)
  {
    assert [t][0] == t && [t][1..] == [];
    var r := FindAllTypes(ct, t, bindings, fuel);
    if r.Ok? {
      assert r.value + [] == r.value;
    }
  }

  /**
   * A parameterized type flattens to its raw class followed by the flattenings of its arguments
   * in argument order: the flattening of the first arguments, then that of the last.
   */
  lemma FindAllTypesOfParam(ct: ClassTable, raw: ClassName, owner: Option<JType>, args: seq<JType>, last: JType,
                            bindings: GenericTypeMap, fuel: nat)
    requires fuel > 0
    ensures FindAllTypes(ct, Param(raw, owner, args + [last]), bindings, fuel)
         == ThenFlattening(Ok([Named(raw)]),
                           ThenFlattening(FindAllTypesOfAll(ct, args, bindings, fuel - 1),
                                          FindAllTypes(ct, last, bindings, fuel - 1)))
  {
    FindAllTypesOfAllAppend(ct, args, [last], bindings, fuel - 1);
    FindAllTypesOfOne(ct, last, bindings, fuel - 1);
  }

  /** A class flattens to its innermost component alone. */
  lemma {:induction false} FlattenClass(ct: ClassTable, c: ClassRef, bindings: GenericTypeMap, fuel: nat)
    requires FindAllTypes(ct, Class(c), bindings, fuel).Ok?
    ensures FindAllTypes(ct, Class(c), bindings, fuel).value == [Innermost(c)]
    decreases c
  {
    if c.ArrayOf? {
      FlattenClass(ct, c.component, bindings, fuel - 1);
    }
  }

  /**
   * The two ways of reading a type agree: the first class of the flattening is the innermost
   * component of the class getActualType returns.
   */
  lemma {:induction false} ActualTypeHeadsFlattening(ct: ClassTable, t: JType, bindings: GenericTypeMap, fuel: nat)
    requires ActualType(ct, t, bindings, fuel).Ok?
    requires FindAllTypes(ct, t, bindings, fuel).Ok?
    ensures Innermost(ActualType(ct, t, bindings, fuel).value) == FindAllTypes(ct, t, bindings, fuel).value[0]
    decreases fuel
  {
    match t {
      case Class(c) =>
        FlattenClass(ct, c, bindings, fuel);
      case Param(_, _, _) =>
      case TypeVar(name, decl) =>
        var a := TypeVariableBinding(ct, name, decl, bindings).value;
        if a.Class? {
          FlattenClass(ct, a.cls, bindings, fuel - 1);
        } else {
          ActualTypeHeadsFlattening(ct, a, bindings, fuel - 1);
        }
      case Wildcard(lower, upper) =>
        var a := WildcardBound(lower, upper);
        if a.Class? {
          FlattenClass(ct, a.cls, bindings, fuel - 1);
        } else {
          ActualTypeHeadsFlattening(ct, a, bindings, fuel - 1);
        }
      case GenericArray(comp) =>
        ActualTypeHeadsFlattening(ct, comp, bindings, fuel - 1);
    }
  }

  // ----- convertToJsonElementWithoutNull -----

  /**
   * The null-replacement pass over the tree Gson produced (serializing nulls): each top-level
   * null member of an object, or null element of an array, becomes an empty object. Keys,
   * order, length and every other value stay; nested nulls are not visited.
   */
  method ConvertToJsonElementWithoutNull(jsonElement: Json) returns (r: Json)
    ensures jsonElement.JObject? ==>
      r.JObject? && |r.members| == |jsonElement.members| &&
      forall i :: 0 <= i < |r.members| ==>
        r.members[i].key == jsonElement.members[i].key && r.members[i].value == EmptyIfNull(jsonElement.members[i].value)
    ensures jsonElement.JArray? ==>
      r.JArray? && |r.elements| == |jsonElement.elements| &&
      forall i :: 0 <= i < |r.elements| ==> r.elements[i] == EmptyIfNull(jsonElement.elements[i])
    ensures !jsonElement.JObject? && !jsonElement.JArray? ==> r == jsonElement
  {
    if jsonElement.JObject? {
      var entries := jsonElement.members;
      for i := 0 to |entries|
        invariant |entries| == |jsonElement.members|
        invariant forall j :: 0 <= j < i ==>
          entries[j].key == jsonElement.members[j].key && entries[j].value == EmptyIfNull(jsonElement.members[j].value)
        invariant forall j :: i <= j < |entries| ==> entries[j] == jsonElement.members[j]
      {
        if entries[i].value.JNull? {
          entries := entries[i := JsonMember(entries[i].key, JObject([]))];
        }
      }
      r := JObject(entries);
    } else if jsonElement.JArray? {
      var jsonArray := jsonElement.elements;
      for i := 0 to |jsonArray|
        invariant |jsonArray| == |jsonElement.elements|
        invariant forall j :: 0 <= j < i ==> jsonArray[j] == EmptyIfNull(jsonElement.elements[j])
        invariant forall j :: i <= j < |jsonArray| ==> jsonArray[j] == jsonElement.elements[j]
      {
        if jsonArray[i].JNull? {
          jsonArray := jsonArray[i := JObject([])];
        }
      }
      r := JArray(jsonArray);
    } else {
      r := jsonElement;
    }
  }
}
