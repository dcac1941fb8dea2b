/**
 * SimpleSwaggerApiRegistry: the store the scanners fill and the servlet reads. Api properties
 * and descriptions are kept in registration order, models by name, tags as a set, and the
 * methods the page can trigger by their allocated name. The springfox api descriptions and
 * models, and the scanner's api properties, are kept abstract as type parameters.
 */
module ApiRegistry {
  import opened JavaTypes
  import opened IntSets

  /** A springfox tag, compared by value. */
  datatype Tag = Tag(name: string, description: string, order: int)

  /** The object a registered method is invoked on, by identity. */
  datatype Instance = Instance(id: nat)

  /** A method the page can trigger: its bean, the object, the method, and the class its arguments are decoded into. */
  datatype MethodProperty = MethodProperty(
    beanName: string,
    instance: Instance,
    reflectedMethod: MethodRef,
    compositeParameterClazz: ClassRef)

  // ----- allocateMethodName -----

  /** The methods of `methods` named `name`, in order. */
  function SameNameMethods(methods: seq<MethodRef>, name: string): (r: seq<MethodRef>)
    ensures forall m :: m in r <==> m in methods && m.name == name
  {
    if |methods| == 0 then []
    else if methods[0].name == name then [methods[0]] + SameNameMethods(methods[1..], name)
    else SameNameMethods(methods[1..], name)
  }

  /** The position of the first element equal to `x`. */
  function FirstPosition<T(==)>(xs: seq<T>, x: T): (r: Option<nat>)
    ensures r.Some? ==> r.value < |xs| && xs[r.value] == x && forall j :: 0 <= j < r.value ==> xs[j] != x
    ensures r.None? <==> x !in xs
  {
    if |xs| == 0 then None
    else if xs[0] == x then Some(0)
    else match FirstPosition(xs[1..], x)
      case None => None
      case Some(i) => Some(i + 1)
  }

  /** The bare name of a bean's method. */
  function BareName(beanName: string, targetMethod: MethodRef): string
  {
    beanName + "." + targetMethod.name
  }

  /**
   * The name allocated to `method` of bean `beanName`, where `methods` are the methods its
   * declaring class reports: the bare name for the first method of that name, or one not
   * reported; the bare name and "(i+1)" for the method at position i >= 1 among those of that name.
   */
  function AllocatedName(beanName: string, targetMethod: MethodRef, methods: seq<MethodRef>): (r: string)
    ensures FirstPosition(SameNameMethods(methods, targetMethod.name), targetMethod) in {None, Some(0)} ==>
      r == BareName(beanName, targetMethod)
    ensures var p := FirstPosition(SameNameMethods(methods, targetMethod.name), targetMethod);
      p.Some? && p.value >= 1 ==> r == BareName(beanName, targetMethod) + "(" + NatToString(p.value + 1) + ")"
  {
    match FirstPosition(SameNameMethods(methods, targetMethod.name), targetMethod)
    case Some(i) => if i != 0 then BareName(beanName, targetMethod) + "(" + NatToString(i + 1) + ")" else BareName(beanName, targetMethod)
    case None => BareName(beanName, targetMethod)
  }

  /** Two numbered names of the same base with different numbers differ. */
  lemma NumberedNamesDiffer(base: string, a: string, b: string)
    requires a != b
    ensures base + "(" + a + ")" != base + "(" + b + ")"
  {
    var x, y := base + "(" + a + ")", base + "(" + b + ")";
    if |a| == |b| {
      assert x[|base| + 1..|x| - 1] == a;
      assert y[|base| + 1..|y| - 1] == b;
    } else {
      assert |x| != |y|;
    }
  }

  /** A numbered name is never the bare name. */
  lemma NumberedNameIsNotBare(base: string, a: string)
    ensures base + "(" + a + ")" != base
  {
    assert |base + "(" + a + ")"| > |base|;
  }

  /**
   * Distinct methods of the same name, both reported by their class, get distinct names, so no
   * registration of one overwrites the other.
   */
  lemma DistinctMethodsDistinctNames(beanName: string, m1: MethodRef, m2: MethodRef, methods: seq<MethodRef>)
    requires m1 in methods && m2 in methods && m1.name == m2.name && m1 != m2
    ensures AllocatedName(beanName, m1, methods) != AllocatedName(beanName, m2, methods)
  {
    var same := SameNameMethods(methods, m1.name);
    assert m1 in same && m2 in same;
    var p1, p2 := FirstPosition(same, m1).value, FirstPosition(same, m2).value;
    assert p1 != p2;
    var base := BareName(beanName, m1);
    assert BareName(beanName, m2) == base;
    if p1 == 0 {
      NumberedNameIsNotBare(base, NatToString(p2 + 1));
    } else if p2 == 0 {
      NumberedNameIsNotBare(base, NatToString(p1 + 1));
    } else {
      NatToStringInjective(p1 + 1, p2 + 1);
      NumberedNamesDiffer(base, NatToString(p1 + 1), NatToString(p2 + 1));
    }
  }

  // ----- The trigger methods and the tags -----

  /** Map.get: the value stored under `n`, or null. */
  function Lookup(m: map<string, MethodProperty>, n: string): (r: Option<MethodProperty>)
    ensures r.Some? <==> n in m
    ensures r.Some? ==> r.value == m[n]
  {
    if n in m then Some(m[n]) else None
  }

  /** Registering `n` makes it found, a second registration overwrites, and other names are unaffected. */
  lemma TriggerMethodsAsMap(m: map<string, MethodProperty>, n: string, n': string, p: MethodProperty, q: MethodProperty)
    ensures Lookup(m[n := p], n) == Some(p)
    ensures Lookup(m[n := p][n := q], n) == Some(q)
    ensures n' != n ==> Lookup(m[n := p], n') == Lookup(m, n')
    ensures Lookup(map[], n) == None
  {
  }

  /** registerTag(Tag): the set of tags with one more. */
  function TagsAfterRegisterTag(registered: set<Tag>, tag: Tag): (r: set<Tag>)
    ensures forall t :: t in r <==> t in registered || t == tag
  {
    registered + {tag}
  }

  /** Registering the same tag twice is registering it once. */
  lemma RegisterTagIdempotent(registered: set<Tag>, tag: Tag)
    ensures TagsAfterRegisterTag(TagsAfterRegisterTag(registered, tag), tag) == TagsAfterRegisterTag(registered, tag)
  {
    var once := TagsAfterRegisterTag(registered, tag);
    assert forall t :: t in TagsAfterRegisterTag(once, tag) <==> t in once;
  }

  /**
   * registerTag(Set<Tag>) as written: the parameter shadows the field, so the union is taken
   * of the argument with itself and the registry's tags stay as they were.
   */
  function TagsAfterRegisterTagSetAsWritten(registered: set<Tag>, tags: set<Tag>): (r: set<Tag>)
  {
    registered
  }

  /** registerTag(Set<Tag>) as intended: every given tag is registered, and nothing else is added. */
  function TagsAfterRegisterTagSet(registered: set<Tag>, tags: set<Tag>): (r: set<Tag>)
    ensures forall t :: t in r <==> t in registered || t in tags
  {
    registered + tags
  }

  /** As written, registering a set of tags with an empty registry leaves it empty; as intended, the tags are registered. */
  lemma RegisterTagSetLosesTags(tag: Tag)
    ensures TagsAfterRegisterTagSetAsWritten({}, {tag}) == {}
    ensures tag in TagsAfterRegisterTagSet({}, {tag})
  {
  }

  /** registerTag(Tag) applied to each tag of `ts` in turn. */
  function TagsAfterRegisterTagEach(registered: set<Tag>, ts: seq<Tag>): set<Tag>
    decreases |ts|
  {
    if |ts| == 0 then registered else TagsAfterRegisterTagEach(TagsAfterRegisterTag(registered, ts[0]), ts[1..])
  }

  /** As intended, registering a set of tags at once gives the same tags as registering them one by one, in any order. */
  lemma {:induction false} RegisterTagSetIsRegisterTagEach(registered: set<Tag>, ts: seq<Tag>)
    ensures TagsAfterRegisterTagSet(registered, set t | t in ts) == TagsAfterRegisterTagEach(registered, ts)
    decreases |ts|
  {
    var all := set t | t in ts;
    if |ts| > 0 {
      var once := TagsAfterRegisterTag(registered, ts[0]);
      var later := set t | t in ts[1..];
      RegisterTagSetIsRegisterTagEach(once, ts[1..]);
      assert forall t :: t in all <==> t == ts[0] || t in later;
      assert TagsAfterRegisterTagSet(registered, all) == TagsAfterRegisterTagSet(once, later);
    } else {
      assert all == {};
      assert TagsAfterRegisterTagSet(registered, all) == registered;
    }
  }

  // ----- The registry -----

  class SimpleSwaggerApiRegistry<ApiProperty, ApiDescription, Model> {
    var swaggerApiProperties: seq<ApiProperty>
    var apiDescriptions: seq<ApiDescription>
    var models: map<string, Model>
    var tags: set<Tag>
    var triggerMethods: map<string, MethodProperty>

    constructor()
      ensures swaggerApiProperties == [] && apiDescriptions == [] && models == map[] && tags == {}
      ensures triggerMethods == map[]
    {
      swaggerApiProperties := [];
      apiDescriptions := [];
      models := map[];
      tags := {};
      triggerMethods := map[];
    }

    /** allocateMethodName, with its search over the same-named methods. */
    method AllocateMethodName(beanName: string, targetMethod: MethodRef, methods: seq<MethodRef>) returns (beanMethodName: string)
      ensures beanMethodName == AllocatedName(beanName, targetMethod, methods)
    {
      beanMethodName := beanName + "." + targetMethod.name;
      var methodName := targetMethod.name;
      var sameNameMethods := SameNameMethods(methods, methodName);
      var i := 0;
      while i < |sameNameMethods|
        invariant 0 <= i <= |sameNameMethods|
        invariant forall j :: 0 <= j < i ==> sameNameMethods[j] != targetMethod
        invariant beanMethodName == BareName(beanName, targetMethod)
      {
        if targetMethod == sameNameMethods[i] {
          if i != 0 {
            var index := i + 1;
            beanMethodName := beanMethodName + "(" + NatToString(index) + ")";
          }
          break;
        }
        i := i + 1;
      }
    }

    method RegisterSwaggerApiProperty(swaggerProperty: ApiProperty)
      modifies this
      ensures swaggerApiProperties == old(swaggerApiProperties) + [swaggerProperty]
      ensures apiDescriptions == old(apiDescriptions) && models == old(models) && tags == old(tags)
      ensures triggerMethods == old(triggerMethods)
    {
      swaggerApiProperties := swaggerApiProperties + [swaggerProperty];
    }

    method GetAllSwaggerApiProperties() returns (r: seq<ApiProperty>)
      ensures r == swaggerApiProperties
    {
      r := swaggerApiProperties;
    }

    method RegisterApiDescription(apiDescription: ApiDescription)
      modifies this
      ensures apiDescriptions == old(apiDescriptions) + [apiDescription]
      ensures swaggerApiProperties == old(swaggerApiProperties) && models == old(models) && tags == old(tags)
      ensures triggerMethods == old(triggerMethods)
    {
      apiDescriptions := apiDescriptions + [apiDescription];
    }

    method GetAllApiDescriptions() returns (r: seq<ApiDescription>)
      ensures r == apiDescriptions
    {
      r := apiDescriptions;
    }

    /** registerModels: the given keys take the given models; every other key keeps its model. */
    method RegisterModels(modelMap: map<string, Model>)
      modifies this
      ensures models == old(models) + modelMap
      ensures forall k :: k in models <==> k in old(models) || k in modelMap
      ensures forall k :: k in modelMap ==> models[k] == modelMap[k]
      ensures forall k :: k in old(models) && k !in modelMap ==> models[k] == old(models)[k]
      ensures swaggerApiProperties == old(swaggerApiProperties) && apiDescriptions == old(apiDescriptions)
      ensures tags == old(tags) && triggerMethods == old(triggerMethods)
    {
      models := models + modelMap;
    }

    method GetModels() returns (r: map<string, Model>)
      ensures r == models
    {
      r := models;
    }

    method RegisterTriggerMethod(methodName: string, methodProperty: MethodProperty)
      modifies this
      ensures triggerMethods == old(triggerMethods)[methodName := methodProperty]
      ensures swaggerApiProperties == old(swaggerApiProperties) && apiDescriptions == old(apiDescriptions)
      ensures models == old(models) && tags == old(tags)
    {
      triggerMethods := triggerMethods[methodName := methodProperty];
    }

    method GetTriggerMethod(methodName: string) returns (r: Option<MethodProperty>)
      ensures r == Lookup(triggerMethods, methodName)
    {
      if methodName in triggerMethods {
        r := Some(triggerMethods[methodName]);
      } else {
        r := None;
      }
    }

    method RegisterTag(tag: Tag)
      modifies this
      ensures tags == TagsAfterRegisterTag(old(tags), tag)
      ensures swaggerApiProperties == old(swaggerApiProperties) && apiDescriptions == old(apiDescriptions)
      ensures models == old(models) && triggerMethods == old(triggerMethods)
    {
      tags := tags + {tag};
    }

    /** registerTag(Set<Tag>) as written: `addAll` is applied to the argument, not to the registry. */
    method RegisterTagSetAsWritten(tags: set<Tag>)
      modifies this
      ensures this.tags == TagsAfterRegisterTagSetAsWritten(old(this.tags), tags)
      ensures swaggerApiProperties == old(swaggerApiProperties) && apiDescriptions == old(apiDescriptions)
      ensures models == old(models) && triggerMethods == old(triggerMethods)
    {
      var argument := tags;
      argument := argument + tags;
    }

    /** registerTag(Set<Tag>) as intended: the given tags are added to the registry's. */
    method RegisterTagSet(tags: set<Tag>)
      modifies this
      ensures this.tags == TagsAfterRegisterTagSet(old(this.tags), tags)
      ensures swaggerApiProperties == old(swaggerApiProperties) && apiDescriptions == old(apiDescriptions)
      ensures models == old(models) && triggerMethods == old(triggerMethods)
    {
      this.tags := this.tags + tags;
    }

    method GetAllTags() returns (r: set<Tag>)
      ensures r == tags
    {
      r := tags;
    }
  }
}
