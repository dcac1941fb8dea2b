/**
 * SwaggerScannerInvoker: the call the page triggers. The request's JSON is decoded into the
 * method's composite parameter class, re-encoded as a JSON object, and its entries, in entry
 * order, are decoded one by one against the method's parameter types into the argument array;
 * the method is then invoked reflectively.
 *
 * Gson and the reflective call are foreign code and enter as functions: `carrierTree` is the
 * decode into the composite class followed by the re-encode as a tree, `fromTree` the decode
 * of one element (None for null), `call` Method.invoke.
 */
module ScannerInvoker {
  import opened JavaTypes
  import opened JsonTrees
  import opened ApiRegistry

  datatype Gson<V> = Gson(
    carrierTree: (string, ClassRef) -> Result<Json>,
    fromTree: (Json, JType) -> Result<Option<V>>)

  /**
   * The argument array the entry loop fills: one slot per parameter type, the i-th entry
   * decoded against the i-th type into slot i, the slots no entry reaches left null. An entry
   * beyond the last parameter is an ArrayIndexOutOfBoundsException; a failed decode ends the
   * loop with its exception.
   */
  function DecodedArguments<V>(entries: seq<JsonMember>, parameterTypes: seq<JType>,
                               fromTree: (Json, JType) -> Result<Option<V>>): (r: Result<seq<Option<V>>>)
    ensures r.Ok? ==> |r.value| == |parameterTypes|
    decreases |entries|
  {
    if |entries| == 0 then Ok(seq(|parameterTypes|, _ => None))
    else if |parameterTypes| == 0 then Err(IndexOutOfBounds)
    else
      match fromTree(entries[0].value, parameterTypes[0])
      case Err(e) => Err(e)
      case Ok(v) =>
        var rest := DecodedArguments(entries[1..], parameterTypes[1..], fromTree);
        if rest.Err? then Err(rest.error) else Ok([v] + rest.value)
  }

  /**
   * What the argument array holds: slot i the decode of entry i against parameter type i, the
   * slots no entry reaches null. When every entry that has a parameter decodes, the loop
   * succeeds exactly when there are no more entries than parameters and fails with the index
   * error otherwise; any other failure is the failure of one entry's decode.
   */
  lemma {:induction false} DecodedArgumentsMeaning<V>(entries: seq<JsonMember>, parameterTypes: seq<JType>,
                                                      fromTree: (Json, JType) -> Result<Option<V>>)
    ensures var r := DecodedArguments(entries, parameterTypes, fromTree);
      && (r.Ok? ==> |entries| <= |parameterTypes|)
      && (r.Ok? ==> forall i :: 0 <= i < |entries| ==> fromTree(entries[i].value, parameterTypes[i]) == Ok(r.value[i]))
      && (r.Ok? ==> forall i :: |entries| <= i < |parameterTypes| ==> r.value[i] == None)
      && ((forall i :: 0 <= i < |entries| && i < |parameterTypes| ==> fromTree(entries[i].value, parameterTypes[i]).Ok?) ==>
           if |entries| <= |parameterTypes| then r.Ok? else r == Err(IndexOutOfBounds))
      && (r.Err? ==>
           r.error == IndexOutOfBounds ||
           exists i :: 0 <= i < |entries| && i < |parameterTypes| && fromTree(entries[i].value, parameterTypes[i]) == Err(r.error))
    decreases |entries|
  {
    if |entries| > 0 && |parameterTypes| > 0 {
      var tail, tailTypes := entries[1..], parameterTypes[1..];
      DecodedArgumentsMeaning(tail, tailTypes, fromTree);
      var rest := DecodedArguments(tail, tailTypes, fromTree);
      forall i | 1 <= i < |entries| && i < |parameterTypes|
        ensures fromTree(entries[i].value, parameterTypes[i]) == fromTree(tail[i - 1].value, tailTypes[i - 1])
      {
      }
      if rest.Err? && rest.error != IndexOutOfBounds {
        var i :| 0 <= i < |tail| && i < |tailTypes| && fromTree(tail[i].value, tailTypes[i]) == Err(rest.error);
        assert fromTree(entries[i + 1].value, parameterTypes[i + 1]) == Err(rest.error);
      }
    }
  }

  /** The exceptions of Method.invoke the source catches, IllegalAccessException and InvocationTargetException, leave wrapped. */
  function Reflected<V>(returned: Result<Option<V>>): (r: Result<Option<V>>)
    ensures returned.Ok? ==> r == returned
    ensures returned.Err? && (returned.error.TargetException? || returned.error == IllegalAccess) ==>
      r == Err(ScannerException(returned.error))
    ensures returned.Err? && !returned.error.TargetException? && returned.error != IllegalAccess ==> r == returned
  {
    if returned.Err? && (returned.error.TargetException? || returned.error == IllegalAccess) then
      Err(ScannerException(returned.error))
    else returned
  }

  /**
   * invoke: look the name up, decode the request into the arguments, and call the method. An
   * unregistered name yields null from the registry, which is then dereferenced.
   */
  function InvokeOf<V>(triggerMethods: map<string, MethodProperty>, methodName: string, json: string, gson: Gson<V>,
                       call: (Instance, MethodRef, seq<Option<V>>) -> Result<Option<V>>): (r: Result<Option<V>>)
    ensures methodName !in triggerMethods ==> r == Err(NullPointer)
  {
    match Lookup(triggerMethods, methodName)
    case None => Err(NullPointer)
    case Some(methodProperty) =>
      var tree :- gson.carrierTree(json, methodProperty.compositeParameterClazz);
      if !tree.JObject? then Err(IllegalState)
      else
        var params :- DecodedArguments(tree.members, methodProperty.reflectedMethod.genericParameterTypes, gson.fromTree);
        Reflected(call(methodProperty.instance, methodProperty.reflectedMethod, params))
  }

  /** invoke past the lookup and the conversion to a JSON object: decode the entries, then call. */
  lemma InvokeOfRegistered<V>(triggerMethods: map<string, MethodProperty>, methodName: string, json: string,
                              gson: Gson<V>, call: (Instance, MethodRef, seq<Option<V>>) -> Result<Option<V>>)
    requires methodName in triggerMethods
    requires gson.carrierTree(json, triggerMethods[methodName].compositeParameterClazz).Ok?
    requires gson.carrierTree(json, triggerMethods[methodName].compositeParameterClazz).value.JObject?
    ensures var mp := triggerMethods[methodName];
      var entries := gson.carrierTree(json, mp.compositeParameterClazz).value.members;
      var d := DecodedArguments(entries, mp.reflectedMethod.genericParameterTypes, gson.fromTree);
      InvokeOf(triggerMethods, methodName, json, gson, call) ==
        if d.Ok? then Reflected(call(mp.instance, mp.reflectedMethod, d.value)) else Err(d.error)
  {
  }

  /**
   * A registered method whose request re-encodes to an object, with no more entries than
   * parameters that each decode, is called with the argument array DecodedArguments
   * describes (the decoded entries in entry order, then nulls), and what it returns or throws
   * is what invoke returns or throws, wrapped as the source wraps it; one entry too many is an
   * ArrayIndexOutOfBoundsException and the method is not called.
   */
  lemma InvokeCallsWithDecodedEntries<V>(triggerMethods: map<string, MethodProperty>, methodName: string, json: string,
                                         gson: Gson<V>, call: (Instance, MethodRef, seq<Option<V>>) -> Result<Option<V>>)
    requires methodName in triggerMethods
    requires gson.carrierTree(json, triggerMethods[methodName].compositeParameterClazz).Ok?
    requires gson.carrierTree(json, triggerMethods[methodName].compositeParameterClazz).value.JObject?
    ensures var mp := triggerMethods[methodName];
      var entries := gson.carrierTree(json, mp.compositeParameterClazz).value.members;
      var types := mp.reflectedMethod.genericParameterTypes;
      var params := DecodedArguments(entries, types, gson.fromTree);
      (forall i :: 0 <= i < |entries| && i < |types| ==> gson.fromTree(entries[i].value, types[i]).Ok?) ==>
        if |entries| <= |types| then
          params.Ok? && InvokeOf(triggerMethods, methodName, json, gson, call) == Reflected(call(mp.instance, mp.reflectedMethod, params.value))
        else InvokeOf(triggerMethods, methodName, json, gson, call) == Err(IndexOutOfBounds)
  {
    InvokeOfRegistered(triggerMethods, methodName, json, gson, call);
    var mp := triggerMethods[methodName];
    DecodedArgumentsMeaning(gson.carrierTree(json, mp.compositeParameterClazz).value.members,
                            mp.reflectedMethod.genericParameterTypes, gson.fromTree);
  }

  /** A request whose re-encoding is not a JSON object fails in getAsJsonObject, before any argument is decoded. */
  lemma NonObjectRequestFails<V>(triggerMethods: map<string, MethodProperty>, methodName: string, json: string,
                                 gson: Gson<V>, call: (Instance, MethodRef, seq<Option<V>>) -> Result<Option<V>>)
    requires methodName in triggerMethods
    requires gson.carrierTree(json, triggerMethods[methodName].compositeParameterClazz).Ok?
    requires !gson.carrierTree(json, triggerMethods[methodName].compositeParameterClazz).value.JObject?
    ensures InvokeOf(triggerMethods, methodName, json, gson, call) == Err(IllegalState)
  {
  }

  function Prefixed<V>(done: seq<Option<V>>, r: Result<seq<Option<V>>>): Result<seq<Option<V>>>
  {
    if r.Ok? then Ok(done + r.value) else r
  }

  /** One turn of the entry loop, as the recursion of DecodedArguments sees it. */
  lemma DecodedArgumentsAt<V>(entries: seq<JsonMember>, parameterTypes: seq<JType>, i: nat,
                              fromTree: (Json, JType) -> Result<Option<V>>)
    requires i < |entries| && i <= |parameterTypes|
    ensures i == |parameterTypes| ==> DecodedArguments(entries[i..], parameterTypes[i..], fromTree) == Err(IndexOutOfBounds)
    ensures i < |parameterTypes| ==>
      DecodedArguments(entries[i..], parameterTypes[i..], fromTree) ==
        match fromTree(entries[i].value, parameterTypes[i])
        case Err(e) => Err(e)
        case Ok(v) => Prefixed([v], DecodedArguments(entries[i + 1..], parameterTypes[i + 1..], fromTree))
  {
    assert entries[i..][0] == entries[i] && entries[i..][1..] == entries[i + 1..];
    if i < |parameterTypes| {
      assert parameterTypes[i..][0] == parameterTypes[i] && parameterTypes[i..][1..] == parameterTypes[i + 1..];
    }
  }

  lemma PrefixedShift<V>(done: seq<Option<V>>, v: Option<V>, r: Result<seq<Option<V>>>)
    ensures Prefixed(done, Prefixed([v], r)) == Prefixed(done + [v], r)
  {
    if r.Ok? {
      assert done + ([v] + r.value) == (done + [v]) + r.value;
    }
  }

  /**
   * The entry loop of invoke: a fresh array of one null per parameter, the entries decoded
   * into it slot by slot in entry order.
   */
  method FillArguments<V>(entries: seq<JsonMember>, parameterTypes: seq<JType>, parameterCount: nat,
                          fromTree: (Json, JType) -> Result<Option<V>>) returns (r: Result<seq<Option<V>>>)
    requires parameterCount == |parameterTypes|
    ensures r == DecodedArguments(entries, parameterTypes, fromTree)
  {
    var params := new Option<V>[parameterCount](_ => None);
    ghost var spec := DecodedArguments(entries, parameterTypes, fromTree);
    var i := 0;
    assert params[..i] == [] && entries[i..] == entries && parameterTypes[i..] == parameterTypes;
    assert spec.Ok? ==> [] + spec.value == spec.value;
    while i < |entries|
      invariant 0 <= i <= |entries| && i <= parameterCount
      invariant forall j :: i <= j < parameterCount ==> params[j] == None
      invariant spec == Prefixed(params[..i], DecodedArguments(entries[i..], parameterTypes[i..], fromTree))
    {
      var entry := entries[i];
      DecodedArgumentsAt(entries, parameterTypes, i, fromTree);
      if i >= |parameterTypes| {
        return Err(IndexOutOfBounds);
      }
      var decoded := fromTree(entry.value, parameterTypes[i]);
      if decoded.Err? {
        return Err(decoded.error);
      }
      ghost var before := params[..i];
      params[i] := decoded.value;
      assert params[..i + 1] == before + [decoded.value];
      PrefixedShift(before, decoded.value, DecodedArguments(entries[i + 1..], parameterTypes[i + 1..], fromTree));
      i := i + 1;
    }
    assert params[..] == params[..i] + seq(parameterCount - i, _ => None);
    r := Ok(params[..]);
  }

  /** invoke: the lookup, the conversion of the request, the entry loop and the reflective call. */
  method Invoke<ApiProperty, ApiDescription, Model, V>(registry: SimpleSwaggerApiRegistry<ApiProperty, ApiDescription, Model>,
                                                       methodName: string, json: string, gson: Gson<V>,
                                                       call: (Instance, MethodRef, seq<Option<V>>) -> Result<Option<V>>)
    returns (r: Result<Option<V>>)
    ensures r == InvokeOf(registry.triggerMethods, methodName, json, gson, call)
  {
    var methodProperty := registry.GetTriggerMethod(methodName);
    if methodProperty.None? {
      return Err(NullPointer);
    }
    var reflectedMethod := methodProperty.value.reflectedMethod;
    var compositeParameterClazz := methodProperty.value.compositeParameterClazz;
    var instance := methodProperty.value.instance;
    var parameterCount := |reflectedMethod.genericParameterTypes|;
    var parameterTypes := reflectedMethod.genericParameterTypes;
    var compositeParameter := gson.carrierTree(json, compositeParameterClazz);
    if compositeParameter.Err? {
      return Err(compositeParameter.error);
    }
    if !compositeParameter.value.JObject? {
      return Err(IllegalState);
    }
    InvokeOfRegistered(registry.triggerMethods, methodName, json, gson, call);
    var params := FillArguments(compositeParameter.value.members, parameterTypes, parameterCount, gson.fromTree);
    if params.Err? {
      return Err(params.error);
    }
    var returnVal := call(instance, reflectedMethod, params.value);
    r := Reflected(returnVal);
  }
}
