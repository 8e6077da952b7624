/**
 * REnvironment: the registry of one client's objects and the handlers of its
 * requests. The registry is the map the class inherits (identity hash ->
 * collider -> occurrences) and the handlers update it in place; every
 * handler is proved against the functions of the Requests and
 * ObjectRegistry modules.
 */
module Environment {
  import opened Wrappers
  import opened JavaText
  import opened TypeCatalogue
  import opened Codec
  import opened Scoring
  import opened Broadcast
  import opened ObjectRegistry
  import opened Requests

  /** The end of every handler: the exception that ended it, or its output list collapsed. */
  function Finish(error: Option<JavaException>, ws: seq<ParameterWrapper>): (r: Result<Answer, JavaException>)
    ensures r.Err? <==> error.Some?
    ensures r.Ok? ==> r.value == Collapse(ws)
  {
    if error.Some? then Err(error.value) else Ok(Collapse(ws))
  }

  /** The operands `types`/`params` before the marshalling of the rest. */
  function Preceded(types: seq<JType>, params: ParameterList, r: Result<(seq<JType>, ParameterList), JavaException>): Result<(seq<JType>, ParameterList), JavaException> {
    match r
    case Err(e) => Err(e)
    case Ok((ts, ps)) => Ok((types + ts, params + ps))
  }

  lemma PrependNothing(r: Result<seq<ParameterWrapper>, JavaException>)
    ensures Prepend([], r) == r
  {
    if r.Ok? {
      assert [] + r.value == r.value;
    }
  }

  lemma PrependStep(acc: seq<ParameterWrapper>, w: ParameterWrapper, r: Result<seq<ParameterWrapper>, JavaException>)
    ensures Prepend(acc, Prepend([w], r)) == Prepend(acc + [w], r)
  {
    if r.Ok? {
      assert acc + ([w] + r.value) == (acc + [w]) + r.value;
    }
  }

  lemma PrecededByNothing(r: Result<(seq<JType>, ParameterList), JavaException>)
    ensures Preceded([], [], r) == r
  {
    if r.Ok? {
      assert [] + r.value.0 == r.value.0 && [] + r.value.1 == r.value.1;
    }
  }

  lemma PrecededStep(types: seq<JType>, params: ParameterList, ws: seq<ParameterWrapper>, r: Result<(seq<JType>, ParameterList), JavaException>)
    requires ws != []
    requires r.Ok? ==> Marshalled(r.value.0, r.value.1)
    ensures Preceded(types, params, PrependOperand(ws, r)) == Preceded(types + [ws[0].ptype], params + [ws], r)
  {
    if r.Ok? {
      assert types + ([ws[0].ptype] + r.value.0) == (types + [ws[0].ptype]) + r.value.0;
      assert params + ([ws] + r.value.1) == (params + [ws]) + r.value.1;
    }
  }

  lemma AfterNothing(r: Run)
    ensures After([], r) == r
  {
    assert [] + r.values == r.values;
  }

  lemma AfterStep(vs: seq<JValue>, v: JValue, r: Run)
    ensures After(vs, After([v], r)) == After(vs + [v], r)
  {
    assert vs + ([v] + r.values) == (vs + [v]) + r.values;
  }

  /** A run that ends here with an exception leaves the values produced so far. */
  lemma AfterFailure(vs: seq<JValue>, e: JavaException)
    ensures After(vs, Run([], Some(e))) == Run(vs, Some(e))
  {
    assert vs + [] == vs;
  }

  /** registerMethodOutput on one more result extends the record of the non-null results by that result. */
  lemma RecordOutputStep(host: Host, trail: seq<Buckets>, values: seq<JValue>, out: seq<ParameterWrapper>,
                         v: JValue, b': Buckets, list: seq<ParameterWrapper>)
    requires RecordsAlong(host, trail, NonNull(values), out, false)
    requires v == JNull ==> list == out && b' == trail[|NonNull(values)|]
    requires v != JNull ==>
      |list| == |out| + 1 && list == out + [list[|out|]] &&
      RecordStep(host, trail[|NonNull(values)|], v, b', list[|out|], false)
    ensures var trail' := if v == JNull then trail else trail + [b'];
      RecordsAlong(host, trail', NonNull(values + [v]), list, false) &&
      trail'[0] == trail[0] && trail'[|NonNull(values + [v])|] == b'
  {
    NonNullAppend(values, v);
    if v != JNull {
      RecordsAlongStep(host, trail, NonNull(values), out, false, v, b', list[|out|]);
    }
  }

  // ---------------------------------------------------------------------------
  // What a handler does, as a relation between the registry before and after
  // ---------------------------------------------------------------------------

  /**
   * A handler recorded the values `vs` one after another (registering them
   * unless they are boxed primitives or Strings, or always for new instances),
   * going from `b` to `b'`, and answered with their wrappers collapsed or with
   * the exception that ended it.
   */
  ghost predicate Answers(host: Host, b: Buckets, vs: seq<JValue>, error: Option<JavaException>, always: bool,
                          r: Result<Answer, JavaException>, b': Buckets) {
    exists trail: seq<Buckets>, ws: seq<ParameterWrapper> ::
      RecordsAlong(host, trail, vs, ws, always) && trail[0] == b && trail[|vs|] == b' && r == Finish(error, ws)
  }

  /**
   * What an answer leaves behind: every recorded value that was registered
   * (every new instance, and every method or field result that is not a
   * boxed primitive or a String) is held in the registry after the handler,
   * under the collider its wrapper carries in the answer.
   */
  lemma AnsweredValuesHeld(host: Host, b: Buckets, vs: seq<JValue>, error: Option<JavaException>, always: bool,
                           r: Result<Answer, JavaException>, b': Buckets)
    requires Answers(host, b, vs, error, always, r, b')
    ensures exists ws: seq<ParameterWrapper> ::
      |ws| == |vs| && r == Finish(error, ws) &&
      forall k :: 0 <= k < |vs| && IsRegistered(vs[k], always) ==>
        ws[k].value == vs[k] && Holds(host, b', host.identityHash(vs[k]) as int, ws[k].collider, vs[k])
  {
    var trail: seq<Buckets>, ws: seq<ParameterWrapper> :|
      RecordsAlong(host, trail, vs, ws, always) && trail[0] == b && trail[|vs|] == b' && r == Finish(error, ws);
    RecordedResultsHeld(host, trail, vs, ws, always);
    forall k | 0 <= k < |vs| && IsRegistered(vs[k], always)
      ensures ws[k].value == vs[k]
    {
      assert RecordStep(host, trail[k], vs[k], trail[k + 1], ws[k], always);
    }
  }

  /** processMethod: a refused plan changes nothing; otherwise the non-null results of the calls are recorded. */
  ghost predicate MethodOutcome(host: Host, cat: Catalogue, b: Buckets, parts: seq<string>, r: Result<Answer, JavaException>, b': Buckets)
    requires WellFormed(cat)
  {
    match MethodPlanOf(host, cat, b, parts)
    case Err(e) => r == Err(e) && b' == b
    case Ok(p) =>
      var run := Outcomes(host, p.met, p.targets, p.params, p.calls, 0);
      Answers(host, b, NonNull(run.values), run.error, false, r, b')
  }

  /** processField: a read records the non-null values read; a write changes no registry and answers null. */
  ghost predicate FieldOutcome(host: Host, cat: Catalogue, b: Buckets, parts: seq<string>, r: Result<Answer, JavaException>, b': Buckets) {
    match FieldPlanOf(host, cat, b, parts)
    case Err(e) => r == Err(e) && b' == b
    case Ok(p) =>
      if p.params == [] then
        var run := FieldReads(host, p.field, p.targets, 0);
        Answers(host, b, NonNull(run.values), run.error, false, r, b')
      else
        b' == b &&
        r == match FieldWrites(host, p.field.value, p.targets, p.params, p.calls, 0)
             case Some(e) => Err(e)
             case None => Ok(NoAnswer)
  }

  /** The addresses a construction plan sets aside for its instances: one per instance it can make. */
  function Reserved(p: ConstructionPlan): (r: nat)
    ensures |p.params| > 0 ==> r == MaxLength(p.params)
    ensures p.params == [] ==> r == 1
  {
    if p.params == [] then 1 else MaxLength(p.params)
  }

  /** createObjectFromRequestStrings: every instance made is registered, the instances taking fresh addresses. */
  ghost predicate ConstructionOutcome(host: Host, cat: Catalogue, b: Buckets, addr: nat, parts: seq<string>,
                                      r: Result<Answer, JavaException>, b': Buckets, addr': nat)
    requires WellFormed(cat)
  {
    match ConstructionPlanOf(host, cat, b, parts)
    case Err(e) => r == Err(e) && b' == b && addr' == addr
    case Ok(p) =>
      var run := ConstructionRun(host, cat, p, addr);
      addr' == addr + Reserved(p) && Answers(host, b, run.values, run.error, true, r, b')
  }

  /** getClassInfo: the names as the String wrappers registerMethodOutput lists (Strings are not registered), collapsed. */
  function ClassInfoAnswer(cat: Catalogue, parts: seq<string>): (r: Result<Answer, JavaException>)
    ensures |parts| < 2 ==> r == Err(IndexOutOfBounds)
    ensures |parts| >= 2 && !StartsWith(parts[1], "[") ==> (r.Ok? <==> parts[1] in cat.classes)
    ensures r.Ok? ==> r.value == Collapse(NameWrappers(ClassInfoNames(cat, parts[1]).value)) && r.value != NoAnswer
  {
    if |parts| < 2 then Err(IndexOutOfBounds)
    else
      match ClassInfoNames(cat, parts[1])
      case Err(e) => Err(e)
      case Ok(names) =>
        assert EndOfMethods in names;
        Ok(Collapse(NameWrappers(names)))
  }

  /** flushTheseObjects on `requestStrings[1]`: the registry after it and the null answer or the exception. */
  function FlushRequest(b: Buckets, parts: seq<string>): (Buckets, Result<Answer, JavaException>) {
    if |parts| < 2 then (b, Err(IndexOutOfBounds))
    else
      var (b', error) := Flush(b, parts[1]);
      (b', if error.Some? then Err(error.value) else Ok(NoAnswer))
  }

  /**
   * processCode: the request split on `/;`, routed on its first field; the
   * handler's outcome, with the registry `b` and the next address `addr`
   * before it and `b'`, `addr'` after it.
   */
  ghost predicate Processes(host: Host, cat: Catalogue, b: Buckets, addr: nat, request: string,
                            r: Result<Answer, JavaException>, b': Buckets, addr': nat)
    requires WellFormed(cat)
  {
    var parts := Split(request, MainSplitter);
    if parts == [] then r == Err(IndexOutOfBounds) && b' == b && addr' == addr
    else
      match Route(parts[0])
      case Construct => ConstructionOutcome(host, cat, b, addr, parts, r, b', addr')
      case CallMethod => MethodOutcome(host, cat, b, parts, r, b') && addr' == addr
      case AccessField => FieldOutcome(host, cat, b, parts, r, b') && addr' == addr
      case DescribeClass => r == ClassInfoAnswer(cat, parts) && b' == b && addr' == addr
      case FlushObjects => (b', r) == FlushRequest(b, parts) && addr' == addr
      case MapSize => r == Ok(SizeAnswer(b)) && b' == b && addr' == addr
      case Other => r == UnknownRequest(cat, request) && b' == b && addr' == addr
  }

  /** The first reference fails: the earlier removals stay and the exception is reported. */
  lemma FlushAllStops(b: Buckets, refs: seq<string>, e: JavaException)
    requires refs != [] && FlushOne(b, refs[0]) == Err(e)
    ensures FlushAll(b, refs) == (b, Some(e))
  {
  }

  /** The first reference is flushed: the rest work on the registry it leaves. */
  lemma FlushAllGoesOn(b: Buckets, refs: seq<string>, b1: Buckets)
    requires refs != [] && FlushOne(b, refs[0]) == Ok(b1)
    ensures FlushAll(b, refs) == FlushAll(b1, refs[1..])
  {
  }

  lemma NameWrappersAppend(a: seq<string>, b: seq<string>)
    ensures NameWrappers(a + b) == NameWrappers(a) + NameWrappers(b)
  {
  }

  /**
   * One reference of flushTheseObjects: the oldest occurrence leaves the
   * list, an emptied list leaves the bucket and an emptied bucket the map; a
   * hash not in the map is skipped and an unknown collider fails on null.
   */
  method RemoveOldest(b: Buckets, hashcode: int, collider: int) returns (r: Result<Buckets, JavaException>)
    ensures r == FlushKey(b, hashcode, collider)
  {
    if hashcode !in b {
      return Ok(b);
    }
    var innerMap := b[hashcode];
    if collider !in innerMap {
      return Err(NullPointer);
    }
    var innerList := innerMap[collider];
    if innerList == [] {
      return Err(IndexOutOfBounds);
    }
    innerList := innerList[1..];
    if innerList != [] {
      return Ok(b[hashcode := innerMap[collider := innerList]]);
    }
    innerMap := innerMap - {collider};
    if innerMap == map[] {
      return Ok(b - {hashcode});
    }
    return Ok(b[hashcode := innerMap]);
  }

  /** A set of colliders is empty or has an element to visit. */
  lemma EmptyOrHasElement(s: set<int>)
    ensures s == {} || exists k :: k in s
  {
    if forall k :: k !in s {
      assert s == {};
    }
  }

  /**
   * The loop of registerInMap over a non-empty bucket: the colliders are
   * visited in HashMap order (any order here) and the first whose oldest
   * occurrence equals the object is returned; without one, the largest
   * collider plus one.
   */
  method SearchColliders(host: Host, innerMap: Bucket, result: JValue) returns (hit: bool, collider: int)
    requires innerMap != map[]
    requires forall c :: c in innerMap ==> c >= 1 && innerMap[c] != []
    ensures hit ==> collider in Hits(host, innerMap, result)
    ensures !hit ==> Hits(host, innerMap, result) == {} && IsNextCollider(innerMap.Keys, collider)
  {
    var maxKey := 0;
    var unvisited := innerMap.Keys;
    while unvisited != {}
      invariant unvisited <= innerMap.Keys
      invariant maxKey == 0 || maxKey in innerMap.Keys
      invariant forall key :: key in innerMap && key !in unvisited ==> key <= maxKey && key !in Hits(host, innerMap, result)
      decreases |unvisited|
    {
      EmptyOrHasElement(unvisited);
      var key :| key in unvisited;
      if key > maxKey {
        maxKey := key;
      }
      var refList := innerMap[key];
      if host.equals(refList[0], result) {
        return true, key;
      }
      unvisited := unvisited - {key};
    }
    forall c | c in innerMap
      ensures c !in Hits(host, innerMap, result)
    {
      assert c !in unvisited;
    }
    return false, maxKey + 1;
  }

  class REnvironment {
    /** The reflection, identity and equality oracles the bridge calls into. */
    const host: Host
    const cat: Catalogue
    /** The inherited outer map: identity hash -> collider -> occurrences, oldest first. */
    var buckets: Buckets
    /** The address the next instance a construction request creates gets. */
    var nextAddress: nat

    ghost predicate Valid()
      reads this
    {
      HostWellFormed(host) && WellFormed(cat) && Consistent(host, buckets)
    }

    constructor(host: Host, cat: Catalogue)
      requires HostWellFormed(host) && WellFormed(cat)
      ensures Valid() && this.host == host && this.cat == cat
      ensures buckets == map[] && nextAddress == 0
    {
      this.host := host;
      this.cat := cat;
      buckets := map[];
      nextAddress := 0;
    }

    // -------------------------------------------------------------------------
    // registerInMap, registerMethodOutput, registerNewInstance
    // -------------------------------------------------------------------------

    /**
     * registerInMap: an absent or empty bucket gets collider 1; otherwise the
     * colliders are visited in HashMap order (any order here), the object is
     * appended under the first whose oldest occurrence equals it, and without
     * one it opens the largest collider plus one.
     */
    method RegisterInMap(result: JValue) returns (collider: int)
      requires Valid() && result != JNull
      modifies this
      ensures Valid() && nextAddress == old(nextAddress)
      ensures Registers(host, old(buckets), result, buckets, collider)
    {
      var hashCode := host.identityHash(result) as int;
      if hashCode !in buckets || buckets[hashCode] == map[] {
        collider := 1;
        buckets := buckets[hashCode := map[collider := [result]]];
      } else {
        var innerMap := buckets[hashCode];
        assert BucketConsistent(host, hashCode, innerMap);
        var hit;
        hit, collider := SearchColliders(host, innerMap, result);
        if hit {
          buckets := buckets[hashCode := innerMap[collider := innerMap[collider] + [result]]];
        } else {
          buckets := buckets[hashCode := innerMap[collider := [result]]];
        }
      }
      RegisterKeepsConsistent(host, old(buckets), result, buckets, collider);
    }

    /**
     * registerMethodOutput: a null result is skipped; a boxed primitive or a
     * String is listed unregistered, anything else registered with its collider.
     */
    method RegisterMethodOutput(result: JValue, outputList: seq<ParameterWrapper>) returns (list: seq<ParameterWrapper>)
      requires Valid()
      modifies this
      ensures Valid() && nextAddress == old(nextAddress)
      ensures result == JNull ==> list == outputList && buckets == old(buckets)
      ensures result != JNull ==>
        |list| == |outputList| + 1 && list == outputList + [list[|outputList|]] &&
        RecordStep(host, old(buckets), result, buckets, list[|outputList|], false)
    {
      if result == JNull {
        return outputList;
      }
      if !IsWrapperType(RuntimeClass(result)) {
        var collider := RegisterInMap(result);
        list := outputList + [ParameterWrapper(RuntimeClass(result), result, collider)];
      } else {
        list := outputList + [ParameterWrapper(RuntimeClass(result), result, 0)];
      }
    }

    /** registerNewInstance: every new instance is registered, whatever its class. */
    method RegisterNewInstance(newInstance: JValue, outputList: seq<ParameterWrapper>) returns (list: seq<ParameterWrapper>)
      requires Valid() && newInstance != JNull
      modifies this
      ensures Valid() && nextAddress == old(nextAddress)
      ensures |list| == |outputList| + 1 && list == outputList + [list[|outputList|]]
      ensures RecordStep(host, old(buckets), newInstance, buckets, list[|outputList|], true)
    {
      var collider := RegisterInMap(newInstance);
      list := outputList + [ParameterWrapper(RuntimeClass(newInstance), newInstance, collider)];
    }

    // -------------------------------------------------------------------------
    // findObjectInEnvironment, getCallerAmongWrappers, marshallParameters
    // -------------------------------------------------------------------------

    /** findObjectInEnvironment: one wrapper per reference, in order, or the first failure. */
    method FindObjectInEnvironment(s: string) returns (r: Result<seq<ParameterWrapper>, JavaException>)
      ensures r == Resolve(buckets, s)
    {
      if !StartsWith(s, ObjectHashcodePrefix) {
        return Ok([]);
      }
      var newArgs := Split(s[|ObjectHashcodePrefix|..], SubSplitter);
      var wrappers: seq<ParameterWrapper> := [];
      var i := 0;
      PrependNothing(ResolveAll(buckets, s, newArgs));
      assert newArgs[0..] == newArgs;
      while i < |newArgs|
        invariant 0 <= i <= |newArgs|
        invariant ResolveAll(buckets, s, newArgs) == Prepend(wrappers, ResolveAll(buckets, s, newArgs[i..]))
      {
        assert newArgs[i..][1..] == newArgs[i + 1..];
        var w := ResolveOne(buckets, s, newArgs[i]);
        if w.Err? {
          return Err(w.error);
        }
        PrependStep(wrappers, w.value, ResolveAll(buckets, s, newArgs[i + 1..]));
        wrappers := wrappers + [w.value];
        i := i + 1;
      }
      assert newArgs[i..] == [];
      assert wrappers + [] == wrappers;
      return Ok(wrappers);
    }

    /**
     * getCallerAmongWrappers: the first value, replaced by every later value
     * whose class is assignable from the held one's; null for no wrappers.
     */
    method GetCallerAmongWrappers(wrappers: seq<ParameterWrapper>) returns (r: Result<JValue, JavaException>)
      ensures r == CallerFold(cat, JNull, wrappers)
    {
      var higherLevelObject := JNull;
      var i := 0;
      assert wrappers[0..] == wrappers;
      while i < |wrappers|
        invariant 0 <= i <= |wrappers|
        invariant CallerFold(cat, JNull, wrappers) == CallerFold(cat, higherLevelObject, wrappers[i..])
      {
        assert wrappers[i..][1..] == wrappers[i + 1..];
        var newValue := wrappers[i].value;
        if higherLevelObject == JNull {
          higherLevelObject := newValue;
        } else {
          if newValue == JNull {
            return Err(NullPointer);
          }
          if cat.assignableFrom(RuntimeClass(newValue), RuntimeClass(higherLevelObject)) {
            higherLevelObject := newValue;
          }
        }
        i := i + 1;
      }
      assert wrappers[i..] == [];
      return Ok(higherLevelObject);
    }

    /**
     * The caller of a method or field request: registered objects and the class
     * of the one getCallerAmongWrappers picks, or tagged values, a single String
     * naming a loadable class making the call static.
     */
    method CallerOf(s: string) returns (r: Result<Caller, JavaException>)
      ensures r == ResolveCaller(host, cat, buckets, s)
    {
      if StartsWith(s, InstancePrefix) {
        var found := FindObjectInEnvironment(s);
        if found.Err? {
          return Err(found.error);
        }
        var caller := GetCallerAmongWrappers(found.value);
        if caller.Err? {
          return Err(caller.error);
        }
        if caller.value == JNull {
          return Err(NullPointer);
        }
        return Ok(Caller(RuntimeClass(caller.value), found.value, false));
      }
      var tag := GetPrimitiveClass(s);
      if tag.None? {
        return Err(NullPointer);
      }
      var created := CreateFromPrimitiveClass(host, tag.value, s);
      if created.Err? {
        return Err(created.error);
      }
      var wrappers := created.value;
      if wrappers == [] {
        return Err(IndexOutOfBounds);
      }
      var first := wrappers[0];
      if |wrappers| == 1 && tag.value == CharacterTag && first.value.JString? && first.value.s in cat.classes {
        var cls := Named(first.value.s);
        return Ok(Caller(cls, [ParameterWrapper(cls, JNull, 0)], true));
      }
      return Ok(Caller(Named(PrimitiveToWrapper[JavaName(TagClass(tag.value))]), wrappers, false));
    }

    /** One operand of marshallParameters: tagged values decoded, anything else looked up in the registry. */
    method ParseOperand(arg: string) returns (r: Result<seq<ParameterWrapper>, JavaException>)
      ensures r == Operand(host, buckets, arg)
    {
      var primitiveClassIfAny := GetPrimitiveClass(arg);
      if primitiveClassIfAny.Some? {
        r := CreateFromPrimitiveClass(host, primitiveClassIfAny.value, arg);
      } else {
        r := FindObjectInEnvironment(arg);
      }
    }

    /** marshallParameters: the operands from `start` on, in order; an empty operand is the IndexOutOfBounds of `get(0)`. */
    method MarshallParameters(args: seq<string>, start: nat) returns (r: Result<(seq<JType>, ParameterList), JavaException>)
      ensures r == Marshall(host, buckets, args, start)
    {
      var parameterTypes: seq<JType> := [];
      var parameters: ParameterList := [];
      if start >= |args| {
        return Ok(([], []));
      }
      var i := start;
      PrecededByNothing(Marshall(host, buckets, args, start));
      while i < |args|
        invariant start <= i <= |args|
        invariant Marshall(host, buckets, args, start) == Preceded(parameterTypes, parameters, Marshall(host, buckets, args, i))
      {
        var subparametersList := ParseOperand(args[i]);
        if subparametersList.Err? {
          return Err(subparametersList.error);
        }
        if subparametersList.value == [] {
          return Err(IndexOutOfBounds);
        }
        var ws := subparametersList.value;
        PrecededStep(parameterTypes, parameters, ws, Marshall(host, buckets, args, i + 1));
        parameterTypes := parameterTypes + [ws[0].ptype];
        parameters := parameters + [ws];
        i := i + 1;
      }
      assert parameterTypes + [] == parameterTypes && parameters + [] == parameters;
      return Ok((parameterTypes, parameters));
    }

    // -------------------------------------------------------------------------
    // processMethod, processField, createObjectFromRequestStrings: the decisions
    // -------------------------------------------------------------------------

    /** getMethod with the exact classes (none without operands), else findNearestMethod when there are operands. */
    method LookUpMethod(cls: JType, methodName: string, parameterTypes: seq<JType>, parameters: ParameterList)
      returns (r: Result<Member, JavaException>)
      requires WellFormed(cat)
      ensures r == MethodLookup(cat, cls, methodName, parameterTypes, parameters)
    {
      var exact := ExactMember(Methods(cat, cls), Some(methodName), if parameters == [] then [] else parameterTypes);
      if exact.Some? {
        return Ok(exact.value);
      }
      if parameters == [] {
        return Err(NoSuchMethod(NoArgumentMethodMessage(cls, methodName)));
      }
      r := FindNearest(cat, cls, Methods(cat, cls), Some(methodName), parameterTypes);
    }

    /** processMethod up to its loops: caller, operands, method, static check and length check. */
    method PlanMethodCall(requestStrings: seq<string>) returns (r: Result<MethodPlan, JavaException>)
      requires Valid()
      ensures r == MethodPlanOf(host, cat, buckets, requestStrings)
    {
      if |requestStrings| < 2 {
        return Err(IndexOutOfBounds);
      }
      var caller := CallerOf(requestStrings[1]);
      if caller.Err? {
        return Err(caller.error);
      }
      var outputLists := MarshallParameters(requestStrings, 3);
      if outputLists.Err? {
        return Err(outputLists.error);
      }
      var (parameterTypes, parameters) := outputLists.value;
      if |requestStrings| < 3 {
        return Err(IndexOutOfBounds);
      }
      var met := LookUpMethod(caller.value.cls, requestStrings[2], parameterTypes, parameters);
      if met.Err? {
        return Err(met.error);
      }
      if caller.value.isStatic && !met.value.isStatic {
        return Err(InvalidParameter(NotStaticMethod));
      }
      var wrappers := caller.value.targets;
      var innerSize := GetInnerSize(parameters);
      if |wrappers| > 1 && innerSize > 1 && |wrappers| != innerSize {
        return Err(InvalidParameter(LengthMismatch));
      }
      return Ok(MethodPlan(met.value, wrappers, parameters, MethodCalls(|wrappers|, parameters)));
    }

    /** processField up to its loops: caller, at most one operand, the field or the array length, static and length checks. */
    method PlanFieldAccess(requestStrings: seq<string>) returns (r: Result<FieldPlan, JavaException>)
      requires Valid()
      ensures r == FieldPlanOf(host, cat, buckets, requestStrings)
    {
      if |requestStrings| < 2 {
        return Err(IndexOutOfBounds);
      }
      var caller := CallerOf(requestStrings[1]);
      if caller.Err? {
        return Err(caller.error);
      }
      var outputLists := MarshallParameters(requestStrings, 3);
      if outputLists.Err? {
        return Err(outputLists.error);
      }
      r := ChooseField(caller.value, outputLists.value.0, outputLists.value.1, requestStrings);
    }

    /** The field of a field request once its caller and operands are known. */
    method ChooseField(caller: Caller, parameterTypes: seq<JType>, parameters: ParameterList, requestStrings: seq<string>)
      returns (r: Result<FieldPlan, JavaException>)
      requires caller.targets != [] && Marshalled(parameterTypes, parameters)
      ensures r == FieldDecision(cat, caller, parameterTypes, parameters, requestStrings)
    {
      if |parameterTypes| > 1 {
        return Err(InvalidParameter(SingleFieldArgument));
      }
      if |requestStrings| < 3 {
        return Err(IndexOutOfBounds);
      }
      var fieldName := requestStrings[2];
      var clazz := caller.cls;
      var wrappers := caller.targets;
      var isArrayLengthCalled := StartsWith(JavaName(clazz), "[") && parameters == [] && fieldName == "length";
      if isArrayLengthCalled {
        return Ok(FieldPlan(None, wrappers, parameters, []));
      }
      var field := FieldNamed(Fields(cat, clazz), fieldName);
      if field.None? {
        return Err(NoSuchField(NoSuchFieldMessage(clazz, fieldName)));
      }
      if caller.isStatic && !field.value.isStatic {
        return Err(InvalidParameter(NotStaticField));
      }
      if parameters == [] {
        return Ok(FieldPlan(field, wrappers, parameters, []));
      }
      var innerSize := GetInnerSize(parameters);
      if |wrappers| > 1 && innerSize > 1 && |wrappers| != innerSize {
        return Err(InvalidParameter(LengthMismatch));
      }
      return Ok(FieldPlan(field, wrappers, parameters, MethodCalls(|wrappers|, parameters)));
    }

    /** getConstructor with the exact classes, else findNearestConstructor. */
    method LookUpConstructor(cls: JType, parameterTypes: seq<JType>) returns (r: Result<Member, JavaException>)
      requires WellFormed(cat)
      ensures r == ConstructorLookup(cat, cls, parameterTypes)
    {
      var exact := ExactMember(Constructors(cat, cls), None, parameterTypes);
      if exact.Some? {
        return Ok(exact.value);
      }
      r := FindNearest(cat, cls, Constructors(cat, cls), None, parameterTypes);
    }

    /** createObjectFromRequestStrings up to its loop: the kind, the class, the operands and the constructor. */
    method PlanConstruction(requestStrings: seq<string>) returns (r: Result<ConstructionPlan, JavaException>)
      requires Valid()
      ensures r == ConstructionPlanOf(host, cat, buckets, requestStrings)
    {
      if |requestStrings| < 2 {
        return Err(IndexOutOfBounds);
      }
      var kind := KindOf(requestStrings[0]);
      var className := requestStrings[1];
      var clazz: JType;
      if className in cat.primitiveAliases {
        clazz := cat.primitiveAliases[className];
      } else {
        var loaded := ForName(cat, className);
        if loaded.Err? {
          return Err(loaded.error);
        }
        clazz := loaded.value;
      }
      var outputLists := MarshallParameters(requestStrings, 2);
      if outputLists.Err? {
        return Err(outputLists.error);
      }
      var (parameterTypes, parameters) := outputLists.value;
      if parameters != [] && kind == PlainObject && !IsEnum(cat, clazz) {
        var ctor := LookUpConstructor(clazz, parameterTypes);
        if ctor.Err? {
          return Err(ctor.error);
        }
        return Ok(ConstructionPlan(kind, clazz, Some(ctor.value), parameters));
      }
      return Ok(ConstructionPlan(kind, clazz, None, parameters));
    }

    // -------------------------------------------------------------------------
    // processMethod, processField, createObjectFromRequestStrings: the loops
    // -------------------------------------------------------------------------

    /**
     * The invocation loops of processMethod: once per target without operands,
     * else max(#targets, innerSize) times with target k and argument index j
     * (0 for a single target or a single-element inner size); every result goes
     * through registerMethodOutput, and the first exception ends the loop with
     * the registrations made so far.
     */
    method InvokeAll(met: Member, wrappers: seq<ParameterWrapper>, parameters: ParameterList, ghost calls: seq<CallIndex>)
      returns (outputList: seq<ParameterWrapper>, error: Option<JavaException>, ghost trail: seq<Buckets>)
      requires Valid() && Broadcastable(|wrappers|, parameters, calls)
      modifies this
      ensures Valid() && nextAddress == old(nextAddress)
      ensures var run := Outcomes(host, met, wrappers, parameters, calls, 0);
        error == run.error && RecordsAlong(host, trail, NonNull(run.values), outputList, false) &&
        trail[0] == old(buckets) && trail[|NonNull(run.values)|] == buckets
    {
      var innerSize := GetInnerSize(parameters);
      var maxSize := if parameters == [] then |wrappers| else Max(|wrappers|, innerSize);
      assert maxSize == |calls|;
      ghost var values: seq<JValue> := [];
      outputList, error, trail := [], None, [buckets];
      AfterNothing(Outcomes(host, met, wrappers, parameters, calls, 0));
      var i := 0;
      while i < maxSize
        invariant 0 <= i <= maxSize
        invariant Valid() && nextAddress == old(nextAddress)
        invariant Outcomes(host, met, wrappers, parameters, calls, 0) == After(values, Outcomes(host, met, wrappers, parameters, calls, i))
        invariant RecordsAlong(host, trail, NonNull(values), outputList, false)
        invariant trail[0] == old(buckets) && trail[|NonNull(values)|] == buckets
      {
        var result := InvokeOnce(met, wrappers, parameters, innerSize, i, calls);
        if result.Err? {
          AfterFailure(values, result.error);
          error := Some(result.error);
          return;
        }
        var v := result.value;
        var list := RegisterMethodOutput(v, outputList);
        RecordOutputStep(host, trail, values, outputList, v, buckets, list);
        trail := if v == JNull then trail else trail + [buckets];
        AfterStep(values, v, Outcomes(host, met, wrappers, parameters, calls, i + 1));
        values := values + [v];
        outputList := list;
        i := i + 1;
      }
      assert values + [] == values;
    }

    /** Call `i` of processMethod: `met.invoke(wrappers.get(k).value, getParameterArray(j))`. */
    method InvokeOnce(met: Member, wrappers: seq<ParameterWrapper>, parameters: ParameterList, innerSize: nat, i: nat, ghost calls: seq<CallIndex>)
      returns (result: Result<JValue, JavaException>)
      requires Broadcastable(|wrappers|, parameters, calls) && innerSize == MaxLength(parameters) && i < |calls|
      ensures result == CallOutcome(host, met, wrappers, parameters, calls[i])
    {
      if parameters == [] {
        return host.invoke(met, wrappers[i].value, []);
      }
      CallsCoverBothSides(|wrappers|, innerSize);
      var j := if innerSize == 1 then 0 else i;
      var k := if |wrappers| == 1 then 0 else i;
      assert calls[i] == CallIndex(k, j);
      var args := ParameterArrayAsWritten(parameters, j);
      if args.Err? {
        return Err(args.error);
      }
      result := host.invoke(met, wrappers[k].value, args.value);
    }

    /** The read loop of processField: Array.getLength or Field.get on every target, each result through registerMethodOutput. */
    method ReadFields(field: Option<Member>, wrappers: seq<ParameterWrapper>)
      returns (outputList: seq<ParameterWrapper>, error: Option<JavaException>, ghost trail: seq<Buckets>)
      requires Valid()
      modifies this
      ensures Valid() && nextAddress == old(nextAddress)
      ensures var run := FieldReads(host, field, wrappers, 0);
        error == run.error && RecordsAlong(host, trail, NonNull(run.values), outputList, false) &&
        trail[0] == old(buckets) && trail[|NonNull(run.values)|] == buckets
    {
      ghost var values: seq<JValue> := [];
      outputList, error, trail := [], None, [buckets];
      AfterNothing(FieldReads(host, field, wrappers, 0));
      var j := 0;
      while j < |wrappers|
        invariant 0 <= j <= |wrappers|
        invariant Valid() && nextAddress == old(nextAddress)
        invariant FieldReads(host, field, wrappers, 0) == After(values, FieldReads(host, field, wrappers, j))
        invariant RecordsAlong(host, trail, NonNull(values), outputList, false)
        invariant trail[0] == old(buckets) && trail[|NonNull(values)|] == buckets
      {
        var result: Result<JValue, JavaException>;
        if field.None? {
          result := host.arrayLength(wrappers[j].value);
        } else {
          result := host.getField(field.value, wrappers[j].value);
        }
        if result.Err? {
          AfterFailure(values, result.error);
          error := Some(result.error);
          return;
        }
        var v := result.value;
        var list := RegisterMethodOutput(v, outputList);
        RecordOutputStep(host, trail, values, outputList, v, buckets, list);
        trail := if v == JNull then trail else trail + [buckets];
        AfterStep(values, v, FieldReads(host, field, wrappers, j + 1));
        values := values + [v];
        outputList := list;
        j := j + 1;
      }
      assert values + [] == values;
    }

    /** Write `i` of processField: `field.set(wrappers.get(k).value, getParameterArray(j)[0])`. */
    method WriteOnce(field: Member, wrappers: seq<ParameterWrapper>, parameters: ParameterList, innerSize: nat, i: nat, ghost calls: seq<CallIndex>)
      returns (result: Result<(), JavaException>)
      requires Broadcastable(|wrappers|, parameters, calls) && parameters != [] && innerSize == MaxLength(parameters) && i < |calls|
      ensures result == FieldWrite(host, field, wrappers, parameters, calls[i])
    {
      CallsCoverBothSides(|wrappers|, innerSize);
      var j := if innerSize == 1 then 0 else i;
      var k := if |wrappers| == 1 then 0 else i;
      assert calls[i] == CallIndex(k, j);
      var args := ParameterArrayAsWritten(parameters, j);
      if args.Err? {
        return Err(args.error);
      }
      if args.value == [] {
        return Err(IndexOutOfBounds);
      }
      result := host.setField(field, wrappers[k].value, args.value[0]);
    }

    /** The write loop of processField: max(#targets, innerSize) writes; the first exception ends it. */
    method WriteFields(field: Member, wrappers: seq<ParameterWrapper>, parameters: ParameterList, ghost calls: seq<CallIndex>)
      returns (error: Option<JavaException>)
      requires Broadcastable(|wrappers|, parameters, calls) && parameters != []
      ensures error == FieldWrites(host, field, wrappers, parameters, calls, 0)
    {
      var innerSize := GetInnerSize(parameters);
      var maxSize := Max(|wrappers|, innerSize);
      var i := 0;
      while i < maxSize
        invariant 0 <= i <= maxSize == |calls|
        invariant FieldWrites(host, field, wrappers, parameters, calls, 0) == FieldWrites(host, field, wrappers, parameters, calls, i)
      {
        var written := WriteOnce(field, wrappers, parameters, innerSize, i, calls);
        if written.Err? {
          return Some(written.error);
        }
        i := i + 1;
      }
      return None;
    }

    /**
     * getNewInstance, with the constructor looked up beforehand: without
     * arguments newInstance (an array needs a size); with them a new array,
     * an enum constant from valueOf of the first argument, or the constructor.
     */
    method GetNewInstance(isArray: bool, clazz: JType, ctor: Option<Member>, paramValues: Option<seq<JValue>>, addr: nat)
      returns (r: Result<JValue, JavaException>)
      ensures r == Instantiate(host, cat, if isArray then ArrayObject else PlainObject, clazz, ctor, paramValues, addr)
    {
      if paramValues.None? {
        if isArray {
          return Err(InvalidParameter(ArrayNeedsSize));
        }
        return host.newInstance(clazz, addr);
      }
      if isArray {
        return host.newArray(clazz, paramValues.value, addr);
      }
      if IsEnum(cat, clazz) {
        if paramValues.value == [] {
          return Err(IndexOutOfBounds);
        }
        if paramValues.value[0] == JNull {
          return Err(NullPointer);
        }
        return host.enumValueOf(clazz, paramValues.value[0]);
      }
      if ctor.None? {
        return Err(NullPointer);
      }
      return host.construct(ctor.value, paramValues.value, addr);
    }

    /** Instance `i` of createObjectFromRequestStrings with operands, at address `addr + i`. */
    method CreateOnce(p: ConstructionPlan, i: nat, addr: nat) returns (r: Result<JValue, JavaException>)
      requires HostWellFormed(host) && i < MaxLength(p.params)
      ensures r == Creation(host, cat, p.kind, p.cls, p.ctor, p.params, i, addr)
      ensures r.Ok? ==> r.value != JNull
    {
      if p.kind == NullObject {
        return Ok(JRef(NullMarker(addr + i, p.cls)));
      }
      var args := ParameterArrayAsWritten(p.params, i);
      if args.Err? {
        return Err(args.error);
      }
      if p.kind == NullArrayObject {
        var fakeInstance := GetNewInstance(true, p.cls, p.ctor, Some(args.value), addr + i);
        if fakeInstance.Err? {
          return Err(fakeInstance.error);
        }
        if fakeInstance.value == JNull {
          return Err(NullPointer);
        }
        return Ok(JRef(NullMarker(addr + i, RuntimeClass(fakeInstance.value))));
      }
      r := GetNewInstance(p.kind == ArrayObject, p.cls, p.ctor, Some(args.value), addr + i);
      InstantiateCreates(host, cat, p.kind, p.cls, p.ctor, Some(args.value), addr + i);
    }

    /**
     * The instances of createObjectFromRequestStrings: one without operands
     * (a typed null or getNewInstance without arguments), else one per index
     * below the inner size; each goes through registerNewInstance, and the
     * first exception ends the loop with the registrations made so far. The
     * instances take the addresses from nextAddress on.
     */
    method CreateInstances(p: ConstructionPlan) returns (outputList: seq<ParameterWrapper>, error: Option<JavaException>, ghost trail: seq<Buckets>)
      requires Valid()
      modifies this
      ensures Valid() && nextAddress == old(nextAddress) + Reserved(p)
      ensures var run := ConstructionRun(host, cat, p, old(nextAddress));
        error == run.error && RecordsAlong(host, trail, run.values, outputList, true) &&
        trail[0] == old(buckets) && trail[|run.values|] == buckets
    {
      if p.params == [] {
        outputList, error, trail := CreateWithoutOperands(p);
      } else {
        outputList, error, trail := CreateWithOperands(p);
      }
    }

    /** The loop over the indices below the inner size, one registered instance per index, up to the first exception. */
    method CreateWithOperands(p: ConstructionPlan) returns (outputList: seq<ParameterWrapper>, error: Option<JavaException>, ghost trail: seq<Buckets>)
      requires Valid() && p.params != []
      modifies this
      ensures Valid() && nextAddress == old(nextAddress) + MaxLength(p.params)
      ensures var run := Creations(host, cat, p.kind, p.cls, p.ctor, p.params, 0, MaxLength(p.params), old(nextAddress));
        error == run.error && RecordsAlong(host, trail, run.values, outputList, true) &&
        trail[0] == old(buckets) && trail[|run.values|] == buckets
    {
      var addr := nextAddress;
      outputList, error, trail := [], None, [buckets];
      var innerSize := GetInnerSize(p.params);
      nextAddress := addr + innerSize;
      ghost var values: seq<JValue> := [];
      ghost var run := Creations(host, cat, p.kind, p.cls, p.ctor, p.params, 0, innerSize, addr);
      AfterNothing(run);
      var i := 0;
      while i < innerSize
        invariant 0 <= i <= innerSize
        invariant Valid() && nextAddress == addr + innerSize
        invariant run == After(values, Creations(host, cat, p.kind, p.cls, p.ctor, p.params, i, innerSize, addr))
        invariant RecordsAlong(host, trail, values, outputList, true)
        invariant trail[0] == old(buckets) && trail[|values|] == buckets
      {
        var newInstance := CreateOnce(p, i, addr);
        if newInstance.Err? {
          AfterFailure(values, newInstance.error);
          error := Some(newInstance.error);
          return;
        }
        var v := newInstance.value;
        var list := RegisterNewInstance(v, outputList);
        assert RecordsAlong(host, trail + [buckets], values + [v], list, true) by {
          RecordsAlongStep(host, trail, values, outputList, true, v, buckets, list[|outputList|]);
        }
        assert run == After(values + [v], Creations(host, cat, p.kind, p.cls, p.ctor, p.params, i + 1, innerSize, addr)) by {
          AfterStep(values, v, Creations(host, cat, p.kind, p.cls, p.ctor, p.params, i + 1, innerSize, addr));
        }
        values, outputList, trail := values + [v], list, trail + [buckets];
        i := i + 1;
      }
      assert values + [] == values;
    }

    /** The single instance of a construction without operands: a typed null, or getNewInstance without arguments. */
    method CreateWithoutOperands(p: ConstructionPlan) returns (outputList: seq<ParameterWrapper>, error: Option<JavaException>, ghost trail: seq<Buckets>)
      requires Valid() && p.params == []
      modifies this
      ensures Valid() && nextAddress == old(nextAddress) + 1
      ensures var run := ConstructionRun(host, cat, p, old(nextAddress));
        error == run.error && RecordsAlong(host, trail, run.values, outputList, true) &&
        trail[0] == old(buckets) && trail[|run.values|] == buckets
    {
      var addr := nextAddress;
      var newInstance: Result<JValue, JavaException>;
      if p.kind == NullObject {
        newInstance := Ok(JRef(NullMarker(addr, p.cls)));
      } else {
        newInstance := GetNewInstance(p.kind == ArrayObject, p.cls, p.ctor, None, addr);
      }
      nextAddress := addr + 1;
      InstantiateCreates(host, cat, p.kind, p.cls, p.ctor, None, addr);
      if newInstance.Err? {
        return [], Some(newInstance.error), [buckets];
      }
      var list := RegisterNewInstance(newInstance.value, []);
      RecordsAlongStep(host, [old(buckets)], [], [], true, newInstance.value, buckets, list[0]);
      return list, None, [old(buckets), buckets];
    }

    // -------------------------------------------------------------------------
    // The handlers and processCode
    // -------------------------------------------------------------------------

    /** processMethod: the plan, then the invocation loop; the output list collapsed, or the exception. */
    method ProcessMethod(requestStrings: seq<string>) returns (r: Result<Answer, JavaException>)
      requires Valid()
      modifies this
      ensures Valid() && nextAddress == old(nextAddress)
      ensures MethodOutcome(host, cat, old(buckets), requestStrings, r, buckets)
    {
      var plan := PlanMethodCall(requestStrings);
      if plan.Err? {
        return Err(plan.error);
      }
      var p := plan.value;
      var outputList, error, trail := InvokeAll(p.met, p.targets, p.params, p.calls);
      r := Finish(error, outputList);
      assert RecordsAlong(host, trail, NonNull(Outcomes(host, p.met, p.targets, p.params, p.calls, 0).values), outputList, false);
    }

    /** processField: the plan, then the read loop without operand or the write loop with one. */
    method ProcessField(requestStrings: seq<string>) returns (r: Result<Answer, JavaException>)
      requires Valid()
      modifies this
      ensures Valid() && nextAddress == old(nextAddress)
      ensures FieldOutcome(host, cat, old(buckets), requestStrings, r, buckets)
    {
      var plan := PlanFieldAccess(requestStrings);
      if plan.Err? {
        return Err(plan.error);
      }
      var p := plan.value;
      if p.params == [] {
        var outputList, error, trail := ReadFields(p.field, p.targets);
        r := Finish(error, outputList);
        assert RecordsAlong(host, trail, NonNull(FieldReads(host, p.field, p.targets, 0).values), outputList, false);
      } else {
        var error := WriteFields(p.field.value, p.targets, p.params, p.calls);
        r := if error.Some? then Err(error.value) else Ok(NoAnswer);
      }
    }

    /** createObjectFromRequestStrings: the plan, then the instances; the output list collapsed, or the exception. */
    method CreateObjectFromRequestStrings(requestStrings: seq<string>) returns (r: Result<Answer, JavaException>)
      requires Valid()
      modifies this
      ensures Valid()
      ensures ConstructionOutcome(host, cat, old(buckets), old(nextAddress), requestStrings, r, buckets, nextAddress)
    {
      var plan := PlanConstruction(requestStrings);
      if plan.Err? {
        return Err(plan.error);
      }
      var outputList, error, trail := CreateInstances(plan.value);
      r := Finish(error, outputList);
      assert RecordsAlong(host, trail, ConstructionRun(host, cat, plan.value, old(nextAddress)).values, outputList, true);
    }

    /** The names of `members`, appended as registerMethodOutput appends Strings: unregistered wrappers. */
    method AppendNames(outputList: seq<ParameterWrapper>, members: seq<Member>) returns (list: seq<ParameterWrapper>)
      ensures list == outputList + NameWrappers(MemberNames(members))
    {
      list := outputList;
      var i := 0;
      while i < |members|
        invariant 0 <= i <= |members|
        invariant list == outputList + NameWrappers(MemberNames(members[..i]))
      {
        assert MemberNames(members[..i + 1]) == MemberNames(members[..i]) + [members[i].name];
        NameWrappersAppend(MemberNames(members[..i]), [members[i].name]);
        list := list + [ParameterWrapper(Named(StringClass), JString(members[i].name), 0)];
        i := i + 1;
      }
      assert members[..i] == members;
    }

    /** getClassInfo: the method names, `endOfMethods`, the field names; an array class describes Object plus `clone` and `length`. */
    method GetClassInfo(requestStrings: seq<string>) returns (r: Result<Answer, JavaException>)
      ensures r == ClassInfoAnswer(cat, requestStrings)
    {
      if |requestStrings| < 2 {
        return Err(IndexOutOfBounds);
      }
      var classname := requestStrings[1];
      var clazz: JType;
      var isArray: bool;
      if StartsWith(classname, "[") {
        clazz := Named(ObjectClass);
        isArray := true;
      } else {
        var loaded := ForName(cat, classname);
        if loaded.Err? {
          return Err(loaded.error);
        }
        clazz := loaded.value;
        isArray := false;
      }
      ghost var ms := MemberNames(Methods(cat, clazz));
      ghost var fs := MemberNames(Fields(cat, clazz));
      var tail := if isArray then ["clone", EndOfMethods] else [EndOfMethods];
      var outputList := AppendNames([], Methods(cat, clazz));
      assert outputList == NameWrappers(ms);
      NameWrappersAppend(ms, tail);
      outputList := outputList + NameWrappers(tail);
      assert outputList == NameWrappers(ms + tail);
      outputList := AppendNames(outputList, Fields(cat, clazz));
      NameWrappersAppend(ms + tail, fs);
      ghost var names := ms + tail + fs;
      assert outputList == NameWrappers(names);
      if isArray {
        NameWrappersAppend(names, ["length"]);
        outputList := outputList + NameWrappers(["length"]);
        names := names + ["length"];
        assert outputList == NameWrappers(names);
      }
      assert names == ClassInfoNames(cat, classname).value;
      return Ok(Collapse(outputList));
    }

    /**
     * flushTheseObjects: for every reference after the prefix, the oldest
     * occurrence goes, an emptied list and an emptied bucket with it; an
     * unknown hash is skipped; a failure keeps what earlier references removed.
     */
    method FlushTheseObjects(requestStrings: seq<string>) returns (r: Result<Answer, JavaException>)
      requires Valid()
      modifies this
      ensures Valid() && nextAddress == old(nextAddress)
      ensures (buckets, r) == FlushRequest(old(buckets), requestStrings)
    {
      if |requestStrings| < 2 {
        return Err(IndexOutOfBounds);
      }
      var s := requestStrings[1];
      if !StartsWith(s, ObjectHashcodePrefix) {
        return Ok(NoAnswer);
      }
      var newArgs := Split(s[|ObjectHashcodePrefix|..], SubSplitter);
      assert newArgs == ReferencesOf(s);
      var i := 0;
      assert newArgs[0..] == newArgs;
      while i < |newArgs|
        invariant 0 <= i <= |newArgs|
        invariant Valid() && nextAddress == old(nextAddress)
        invariant FlushAll(old(buckets), newArgs) == FlushAll(buckets, newArgs[i..])
      {
        assert newArgs[i..][1..] == newArgs[i + 1..];
        var key := ParseReference(newArgs[i]);
        if key.Err? {
          FlushAllStops(buckets, newArgs[i..], key.error);
          return Err(key.error);
        }
        var (hashcode, collider) := key.value;
        var flushed := RemoveOldest(buckets, hashcode, collider);
        if flushed.Err? {
          FlushAllStops(buckets, newArgs[i..], flushed.error);
          return Err(flushed.error);
        }
        FlushAllGoesOn(buckets, newArgs[i..], flushed.value);
        FlushKeyKeepsConsistent(host, buckets, hashcode, collider);
        buckets := flushed.value;
        i := i + 1;
      }
      return Ok(NoAnswer);
    }

    /** getInternalMapSize: `size()` as an Integer, listed (not registered) and returned as a one-element list. */
    method GetInternalMapSize() returns (r: Answer)
      ensures r == SizeAnswer(buckets)
    {
      r := Listed([ParameterWrapper(Named(IntegerClass), JInt(|buckets|), 0)]);
    }

    /**
     * processCode: split on `/;`; a code starting with `co` constructs,
     * `method`, `field`, `cli`, `flush` and `size` go to their handlers, and
     * anything else must be the name of a ClientRequest.
     */
    method ProcessCode(request: string) returns (r: Result<Answer, JavaException>)
      requires Valid()
      modifies this
      ensures Valid()
      ensures Processes(host, cat, old(buckets), old(nextAddress), request, r, buckets, nextAddress)
    {
      var requestStrings := Split(request, MainSplitter);
      if requestStrings == [] {
        return Err(IndexOutOfBounds);
      }
      var code := requestStrings[0];
      if StartsWith(code, ConstructCode) {
        r := CreateObjectFromRequestStrings(requestStrings);
      } else if code == MethodCode {
        r := ProcessMethod(requestStrings);
      } else if code == FieldCode {
        r := ProcessField(requestStrings);
      } else if code == ClassInfoCode {
        r := GetClassInfo(requestStrings);
      } else if code == FlushCode {
        r := FlushTheseObjects(requestStrings);
      } else if code == SizeCode {
        var answer := GetInternalMapSize();
        r := Ok(answer);
      } else if request in cat.clientRequests {
        r := Ok(Request(request));
      } else {
        r := Err(InvalidParameter(RequestUnknown + request));
      }
    }
  }
}
