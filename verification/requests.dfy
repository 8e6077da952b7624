/**
 * What REnvironment.processCode does with a request, as functions of the
 * registry and the catalogue: routing on the operation code, marshalling of
 * the operands, the choice of the caller, member lookup, and the sequence of
 * host calls a broadcast makes. The REnvironment class runs these steps with
 * its loops and is proved to agree with them.
 */
module Requests {
  import opened Wrappers
  import opened JavaText
  import opened TypeCatalogue
  import opened Codec
  import opened Scoring
  import opened Broadcast
  import opened ObjectRegistry

  const RequestUnknown := "Request unknown! "
  const NotStaticMethod := "The method is not a static method!"
  const NotStaticField := "The field is not a static field!"
  const SingleFieldArgument := "While setting a field, there cannot be more than a single argument to the function!"
  const StringSourceNote := " - NOTE: the source was treated as a String object!"
  const ArrayNeedsSize := "Constructing an array requires at least one parameter, namely an integer that determines the size of the array!"
  const EndOfMethods := "endOfMethods"
  /** The prefix that marks the caller of a method or field request as registered objects. */
  const InstancePrefix := "java.object"
  const IntegerClass := "java.lang.Integer"

  // ---------------------------------------------------------------------------
  // processCode routing
  // ---------------------------------------------------------------------------

  datatype Handler = Construct | CallMethod | AccessField | DescribeClass | FlushObjects | MapSize | Other

  /** The handler for the first `/;` field: any code starting with `co` constructs, the others must match exactly. */
  function Route(code: string): (r: Handler)
    ensures r == Construct <==> StartsWith(code, ConstructCode)
    ensures r == CallMethod <==> code == MethodCode
    ensures r == AccessField <==> code == FieldCode
    ensures r == DescribeClass <==> code == ClassInfoCode
    ensures r == FlushObjects <==> code == FlushCode
    ensures r == MapSize <==> code == SizeCode
  {
    if StartsWith(code, ConstructCode) then
      assert code[0] == 'c' && code[1] == 'o' by {
        assert code[..2] == ConstructCode;
      }
      Construct
    else if code == MethodCode then CallMethod
    else if code == FieldCode then AccessField
    else if code == ClassInfoCode then DescribeClass
    else if code == FlushCode then FlushObjects
    else if code == SizeCode then MapSize
    else Other
  }

  /** Every construction code, the null, array and null-array ones included, reaches the construction handler. */
  lemma ConstructionCodesRoute()
    ensures Route(ConstructCode) == Construct && Route(ConstructNullCode) == Construct
    ensures Route(ConstructArrayCode) == Construct && Route(ConstructNullArrayCode) == Construct
  {
    assert StartsWith(ConstructNullCode, ConstructCode);
    assert StartsWith(ConstructArrayCode, ConstructCode);
    assert StartsWith(ConstructNullArrayCode, ConstructCode);
  }

  /** A request no handler takes is a ClientRequest constant when the whole request names one. */
  function UnknownRequest(cat: Catalogue, request: string): (r: Result<Answer, JavaException>)
    ensures r.Ok? <==> request in cat.clientRequests
    ensures r.Ok? ==> r.value == Request(request)
    ensures r.Err? ==> r.error == InvalidParameter(RequestUnknown + request)
  {
    if request in cat.clientRequests then Ok(Request(request)) else Err(InvalidParameter(RequestUnknown + request))
  }

  /** getInternalMapSize: a one-element JavaObjectList holding `size()`, returned as a list. */
  function SizeAnswer(b: Buckets): Answer {
    Listed([ParameterWrapper(Named(IntegerClass), JInt(|b|), 0)])
  }

  // ---------------------------------------------------------------------------
  // marshallParameters
  // ---------------------------------------------------------------------------

  /** One operand: tagged primitive values, or references to registered objects. */
  function Operand(host: Host, b: Buckets, arg: string): Result<seq<ParameterWrapper>, JavaException> {
    match GetPrimitiveClass(arg)
    case Some(tag) => DecodeAll(host, tag, OperandValues(tag, arg))
    case None => Resolve(b, arg)
  }

  /**
   * The operands from position `i` on: each becomes a vector, and the class of
   * its first wrapper the parameter type of that position; an empty vector is
   * the IndexOutOfBounds of `get(0)`.
   */
  function Marshall(host: Host, b: Buckets, parts: seq<string>, i: nat): (r: Result<(seq<JType>, ParameterList), JavaException>)
    decreases |parts| - i
    ensures r.Ok? ==> |r.value.1| == (if i <= |parts| then |parts| - i else 0) && Marshalled(r.value.0, r.value.1)
  {
    if i >= |parts| then Ok(([], []))
    else
      match Operand(host, b, parts[i])
      case Err(e) => Err(e)
      case Ok(ws) =>
        if ws == [] then Err(IndexOutOfBounds)
        else PrependOperand(ws, Marshall(host, b, parts, i + 1))
  }

  /** Every vector is non-empty and its position's type is the class of its first wrapper. */
  predicate Marshalled(types: seq<JType>, params: ParameterList) {
    |types| == |params| && forall k :: 0 <= k < |params| ==> params[k] != [] && types[k] == params[k][0].ptype
  }

  function PrependOperand(ws: seq<ParameterWrapper>, r: Result<(seq<JType>, ParameterList), JavaException>): (q: Result<(seq<JType>, ParameterList), JavaException>)
    requires ws != []
    requires r.Ok? ==> Marshalled(r.value.0, r.value.1)
    ensures q.Ok? <==> r.Ok?
    ensures q.Ok? ==> q.value == ([ws[0].ptype] + r.value.0, [ws] + r.value.1) && Marshalled(q.value.0, q.value.1)
    ensures q.Err? ==> q == r
  {
    match r
    case Err(e) => Err(e)
    case Ok((ts, ps)) =>
      assert forall k :: 1 <= k < |ps| + 1 ==> ([ws] + ps)[k] == ps[k - 1] && ([ws[0].ptype] + ts)[k] == ts[k - 1];
      Ok(([ws[0].ptype] + ts, [ws] + ps))
  }

  // ---------------------------------------------------------------------------
  // The caller of a method or field request
  // ---------------------------------------------------------------------------

  /**
   * getCallerAmongWrappers as a fold from null: a null held value is replaced
   * by the next value; otherwise the next value (whose getClass on null throws)
   * replaces it when its class is assignable from the held one's class.
   */
  function CallerFold(cat: Catalogue, held: JValue, ws: seq<ParameterWrapper>): (r: Result<JValue, JavaException>)
    ensures r.Err? ==> r.error == NullPointer
    ensures r.Ok? && r.value != JNull ==> r.value == held || exists k :: 0 <= k < |ws| && ws[k].value == r.value
    decreases |ws|
  {
    if ws == [] then Ok(held)
    else
      var v := ws[0].value;
      var next :=
        if held == JNull then Ok(v)
        else if v == JNull then Err(NullPointer)
        else if cat.assignableFrom(RuntimeClass(v), RuntimeClass(held)) then Ok(v)
        else Ok(held);
      match next
      case Err(e) => Err(e)
      case Ok(h) =>
        var r := CallerFold(cat, h, ws[1..]);
        assert r.Ok? && r.value != JNull && r.value != h ==> exists k :: 1 <= k < |ws| && ws[k].value == r.value by {
          if r.Ok? && r.value != JNull && r.value != h {
            var k :| 0 <= k < |ws[1..]| && ws[1..][k].value == r.value;
            assert ws[k + 1].value == r.value;
          }
        }
        r
  }

  /** The caller getCallerAmongWrappers picks is null or one of the wrapped values; a single wrapper is its own caller. */
  lemma CallerIsAmongWrappers(cat: Catalogue, ws: seq<ParameterWrapper>)
    ensures var r := CallerFold(cat, JNull, ws);
      r.Ok? && r.value != JNull ==> exists k :: 0 <= k < |ws| && ws[k].value == r.value
    ensures |ws| == 1 ==> CallerFold(cat, JNull, ws) == Ok(ws[0].value)
  {
  }

  /** The class a method or field request is made on, its target wrappers, and whether the call is static. */
  datatype Caller = Caller(cls: JType, targets: seq<ParameterWrapper>, isStatic: bool)

  /**
   * The caller of a request: registered objects (the class of the chosen
   * caller, NullPointerException when there is none), or tagged values, where a
   * single String that names a loadable class is a static call on that class
   * and anything else is a call on the wrapper class of the values.
   */
  function ResolveCaller(host: Host, cat: Catalogue, b: Buckets, s: string): (r: Result<Caller, JavaException>)
    ensures r.Ok? ==> r.value.targets != []
    ensures r.Ok? && r.value.isStatic ==>
      r.value.cls.Named? && r.value.cls.name in cat.classes && r.value.targets == [ParameterWrapper(r.value.cls, JNull, 0)]
    ensures StartsWith(s, InstancePrefix) && r.Ok? ==> !r.value.isStatic && Resolve(b, s) == Ok(r.value.targets)
    ensures !StartsWith(s, InstancePrefix) && GetPrimitiveClass(s).None? ==> r == Err(NullPointer)
  {
    if StartsWith(s, InstancePrefix) then
      match Resolve(b, s)
      case Err(e) => Err(e)
      case Ok(ws) =>
        match CallerFold(cat, JNull, ws)
        case Err(e) => Err(e)
        case Ok(v) =>
          if v == JNull then Err(NullPointer)
          else
            assert ws != [];
            Ok(Caller(RuntimeClass(v), ws, false))
    else
      match GetPrimitiveClass(s)
      case None => Err(NullPointer)
      case Some(tag) =>
        match DecodeAll(host, tag, OperandValues(tag, s))
        case Err(e) => Err(e)
        case Ok(ws) =>
          if ws == [] then Err(IndexOutOfBounds)
          else if |ws| == 1 && tag == CharacterTag && ws[0].value.JString? && ws[0].value.s in cat.classes then
            Ok(Caller(Named(ws[0].value.s), [ParameterWrapper(Named(ws[0].value.s), JNull, 0)], true))
          else Ok(Caller(Named(PrimitiveToWrapper[JavaName(TagClass(tag))]), ws, false))
  }

  /**
   * The common start of a method or field request: `requestStrings[1]` names
   * the caller, and the operands from position 3 on are marshalled.
   */
  function CallRequest(host: Host, cat: Catalogue, b: Buckets, parts: seq<string>): (r: Result<(Caller, seq<JType>, ParameterList), JavaException>)
    ensures |parts| < 2 ==> r == Err(IndexOutOfBounds)
    ensures r.Ok? ==>
      |parts| >= 2 && ResolveCaller(host, cat, b, parts[1]) == Ok(r.value.0) &&
      Marshall(host, b, parts, 3) == Ok((r.value.1, r.value.2))
  {
    if |parts| < 2 then Err(IndexOutOfBounds)
    else
      match ResolveCaller(host, cat, b, parts[1])
      case Err(e) => Err(e)
      case Ok(c) =>
        match Marshall(host, b, parts, 3)
        case Err(e) => Err(e)
        case Ok((ts, ps)) => Ok((c, ts, ps))
  }

  // ---------------------------------------------------------------------------
  // Member lookup
  // ---------------------------------------------------------------------------

  /** getMethod / getConstructor with exact parameter classes: the first considered member declaring exactly `types`. */
  function ExactMember(ms: seq<Member>, name: Option<string>, types: seq<JType>): (r: Option<Member>)
    ensures r.Some? ==> r.value in ms && r.value.params == types && Considered(r.value, name)
    ensures r.None? ==> forall k :: 0 <= k < |ms| && Considered(ms[k], name) ==> ms[k].params != types
  {
    if ms == [] then None
    else if Considered(ms[0], name) && ms[0].params == types then Some(ms[0])
    else ExactMember(ms[1..], name, types)
  }

  /** The NoSuchMethodException message of getMethod for a method without parameters. */
  function NoArgumentMethodMessage(cls: JType, name: string): string {
    JavaName(cls) + "." + name + "()"
  }

  /** getField: the first public field with the name. */
  function FieldNamed(fs: seq<Member>, name: string): (r: Option<Member>)
    ensures r.Some? ==> r.value in fs && r.value.name == name
    ensures r.None? ==> forall k :: 0 <= k < |fs| ==> fs[k].name != name
  {
    if fs == [] then None
    else if fs[0].name == name then Some(fs[0])
    else FieldNamed(fs[1..], name)
  }

  /** The NoSuchFieldException message: the field name, with a note when the caller was taken as a String. */
  function NoSuchFieldMessage(cls: JType, name: string): string {
    if cls == Named(StringClass) then name + StringSourceNote else name
  }

  /** `length` without arguments on an array class is answered by Array.getLength, not by a field. */
  predicate IsArrayLengthCall(cls: JType, params: ParameterList, name: string) {
    StartsWith(JavaName(cls), "[") && params == [] && name == "length"
  }

  // ---------------------------------------------------------------------------
  // Broadcast execution
  // ---------------------------------------------------------------------------

  /** The values a loop produced before it ended, and the exception that ended it early, if any. */
  datatype Run = Run(values: seq<JValue>, error: Option<JavaException>)

  /** `vs` produced before the run `r`. */
  function After(vs: seq<JValue>, r: Run): Run {
    Run(vs + r.values, r.error)
  }

  /** The outcome of one call of a method broadcast. */
  function CallOutcome(host: Host, met: Member, targets: seq<ParameterWrapper>, params: ParameterList, c: CallIndex): Result<JValue, JavaException>
    requires c.target < |targets|
  {
    match ArgumentsAt(params, c.argument)
    case Err(e) => Err(e)
    case Ok(args) => host.invoke(met, targets[c.target].value, args)
  }

  predicate InRange(calls: seq<CallIndex>, targets: nat) {
    forall k :: 0 <= k < |calls| ==> calls[k].target < targets
  }

  /** The results of the calls from call `i` on, in order; the first exception ends the broadcast. */
  function Outcomes(host: Host, met: Member, targets: seq<ParameterWrapper>, params: ParameterList, calls: seq<CallIndex>, i: nat): (r: Run)
    requires InRange(calls, |targets|) && i <= |calls|
    ensures |r.values| <= |calls| - i
    ensures r.error.None? <==> |r.values| == |calls| - i
    decreases |calls| - i
  {
    if i == |calls| then Run([], None)
    else
      match CallOutcome(host, met, targets, params, calls[i])
      case Err(e) => Run([], Some(e))
      case Ok(v) => After([v], Outcomes(host, met, targets, params, calls, i + 1))
  }

  /**
   * A broadcast whose calls all return yields one value per call; its first
   * failing call, after calls that returned, ends it with that call's
   * exception and the values before it.
   */
  lemma {:induction false} OutcomesStopAtFirstFailure(host: Host, met: Member, targets: seq<ParameterWrapper>, params: ParameterList, calls: seq<CallIndex>, i: nat, j: nat)
    requires InRange(calls, |targets|) && i <= j <= |calls|
    requires forall k :: i <= k < j ==> CallOutcome(host, met, targets, params, calls[k]).Ok?
    ensures var r := Outcomes(host, met, targets, params, calls, i);
      |r.values| >= j - i &&
      forall k :: i <= k < j ==> r.values[k - i] == CallOutcome(host, met, targets, params, calls[k]).value
    ensures j < |calls| && CallOutcome(host, met, targets, params, calls[j]).Err? ==>
      Outcomes(host, met, targets, params, calls, i) ==
        Run(seq(j - i, k requires 0 <= k < j - i => CallOutcome(host, met, targets, params, calls[i + k]).value),
          Some(CallOutcome(host, met, targets, params, calls[j]).error))
    decreases j - i
  {
    if i < j {
      OutcomesStopAtFirstFailure(host, met, targets, params, calls, i + 1, j);
    }
  }

  /** The calls of a method request: one per target without arguments, the broadcast plan otherwise. */
  function MethodCalls(targets: nat, params: ParameterList): (r: seq<CallIndex>)
    requires targets >= 1 && !Mismatched(targets, MaxLength(params))
    ensures InRange(r, targets)
    ensures |r| == Max(targets, MaxLength(params))
  {
    var inner := MaxLength(params);
    if inner == 0 then
      seq(targets, k requires 0 <= k < targets => CallIndex(k, 0))
    else
      CallsCoverBothSides(targets, inner);
      Calls(targets, inner)
  }

  /** The calls of a broadcast over `targets` targets: the counts are compatible, every vector is non-empty, and `calls` is the plan. */
  predicate Broadcastable(targets: nat, params: ParameterList, calls: seq<CallIndex>) {
    targets >= 1 && (params == [] || MaxLength(params) >= 1) && !Mismatched(targets, MaxLength(params)) &&
    calls == MethodCalls(targets, params)
  }

  /** The values registerMethodOutput keeps: the non-null results, in order. */
  function NonNull(vs: seq<JValue>): (r: seq<JValue>)
    ensures |r| <= |vs|
    ensures forall k :: 0 <= k < |r| ==> r[k] != JNull
  {
    if vs == [] then []
    else if vs[0] == JNull then NonNull(vs[1..])
    else [vs[0]] + NonNull(vs[1..])
  }

  lemma {:induction false} NonNullAppend(vs: seq<JValue>, v: JValue)
    ensures NonNull(vs + [v]) == NonNull(vs) + (if v == JNull then [] else [v])
    decreases |vs|
  {
    if vs == [] {
      assert [] + [v] == [v];
    } else {
      assert (vs + [v])[1..] == vs[1..] + [v];
      NonNullAppend(vs[1..], v);
    }
  }

  /** The read of a get-field request on one target: Array.getLength for `length` on arrays (None), Field.get otherwise. */
  function FieldRead(host: Host, field: Option<Member>, target: JValue): Result<JValue, JavaException> {
    if field.None? then host.arrayLength(target) else host.getField(field.value, target)
  }

  /** The values read by a get-field request from target `i` on; the first exception ends it. */
  function FieldReads(host: Host, field: Option<Member>, targets: seq<ParameterWrapper>, i: nat): (r: Run)
    requires i <= |targets|
    ensures r.error.None? <==> |r.values| == |targets| - i
    ensures |r.values| <= |targets| - i
    decreases |targets| - i
  {
    if i == |targets| then Run([], None)
    else
      match FieldRead(host, field, targets[i].value)
      case Err(e) => Run([], Some(e))
      case Ok(x) => After([x], FieldReads(host, field, targets, i + 1))
  }

  /** One write of a set-field request: the sole argument of the vector index goes to the target. */
  function FieldWrite(host: Host, field: Member, targets: seq<ParameterWrapper>, params: ParameterList, c: CallIndex): Result<(), JavaException>
    requires c.target < |targets|
  {
    match ArgumentsAt(params, c.argument)
    case Err(e) => Err(e)
    case Ok(args) => if args == [] then Err(IndexOutOfBounds) else host.setField(field, targets[c.target].value, args[0])
  }

  /** The writes of a set-field request from call `i` on: the exception of the first failing write, if any. */
  function FieldWrites(host: Host, field: Member, targets: seq<ParameterWrapper>, params: ParameterList, calls: seq<CallIndex>, i: nat): (r: Option<JavaException>)
    requires InRange(calls, |targets|) && i <= |calls|
    ensures r.None? <==> forall k :: i <= k < |calls| ==> FieldWrite(host, field, targets, params, calls[k]).Ok?
    decreases |calls| - i
  {
    if i == |calls| then None
    else
      match FieldWrite(host, field, targets, params, calls[i])
      case Err(e) => Some(e)
      case Ok(_) => FieldWrites(host, field, targets, params, calls, i + 1)
  }

  // ---------------------------------------------------------------------------
  // Construction
  // ---------------------------------------------------------------------------

  datatype ConstructKind = PlainObject | NullObject | ArrayObject | NullArrayObject

  /** conu builds typed nulls, coar arrays, cona typed nulls of an array class; any other `co` code objects. */
  function KindOf(code: string): ConstructKind {
    if code == ConstructNullCode then NullObject
    else if code == ConstructArrayCode then ArrayObject
    else if code == ConstructNullArrayCode then NullArrayObject
    else PlainObject
  }

  /** The class to construct: a name of the primitive table, or a loadable class. */
  function ConstructedClass(cat: Catalogue, name: string): (r: Result<JType, JavaException>)
    ensures name !in cat.primitiveAliases ==> r == ForName(cat, name)
  {
    if name in cat.primitiveAliases then Ok(cat.primitiveAliases[name]) else ForName(cat, name)
  }

  /**
   * One new instance at address `addr`, without arguments (`args` None): a
   * typed null, the array error, or newInstance. With arguments: a typed null,
   * an array (whose class a null-array request keeps as the declared class of
   * a typed null), an enum constant from valueOf of the first argument's text,
   * or the chosen constructor.
   */
  function Instantiate(host: Host, cat: Catalogue, kind: ConstructKind, cls: JType, ctor: Option<Member>, args: Option<seq<JValue>>, addr: nat): Result<JValue, JavaException> {
    if kind == NullObject then Ok(JRef(NullMarker(addr, cls)))
    else if args.None? then
      if kind == ArrayObject then Err(InvalidParameter(ArrayNeedsSize)) else host.newInstance(cls, addr)
    else if kind == NullArrayObject then
      match host.newArray(cls, args.value, addr)
      case Err(e) => Err(e)
      case Ok(fake) => if fake == JNull then Err(NullPointer) else Ok(JRef(NullMarker(addr, RuntimeClass(fake))))
    else if kind == ArrayObject then host.newArray(cls, args.value, addr)
    else if IsEnum(cat, cls) then
      if args.value == [] then Err(IndexOutOfBounds)
      else if args.value[0] == JNull then Err(NullPointer)
      else host.enumValueOf(cls, args.value[0])
    else if ctor.None? then Err(NullPointer)
    else host.construct(ctor.value, args.value, addr)
  }

  /** Instance `i` of a construction with arguments, at address `addr + i`: a typed null reads no arguments. */
  function Creation(host: Host, cat: Catalogue, kind: ConstructKind, cls: JType, ctor: Option<Member>, params: ParameterList, i: nat, addr: nat): Result<JValue, JavaException> {
    if kind == NullObject then Instantiate(host, cat, kind, cls, ctor, None, addr + i)
    else match ArgumentsAt(params, i)
      case Err(e) => Err(e)
      case Ok(args) => Instantiate(host, cat, kind, cls, ctor, Some(args), addr + i)
  }

  /** The instances of a construction with arguments for indices `i` up to `n`; the first exception ends it. */
  function Creations(host: Host, cat: Catalogue, kind: ConstructKind, cls: JType, ctor: Option<Member>, params: ParameterList, i: nat, n: nat, addr: nat): (r: Run)
    requires i <= n
    ensures r.error.None? <==> |r.values| == n - i
    ensures |r.values| <= n - i
    decreases n - i
  {
    if i == n then Run([], None)
    else
      match Creation(host, cat, kind, cls, ctor, params, i, addr)
      case Err(e) => Run([], Some(e))
      case Ok(v) => After([v], Creations(host, cat, kind, cls, ctor, params, i + 1, n, addr))
  }

  /** With a host that never hands back null, every instance a construction yields is non-null. */
  lemma {:induction false} CreationsAreNonNull(host: Host, cat: Catalogue, kind: ConstructKind, cls: JType, ctor: Option<Member>, params: ParameterList, i: nat, n: nat, addr: nat)
    requires HostWellFormed(host) && i <= n
    ensures forall k :: 0 <= k < |Creations(host, cat, kind, cls, ctor, params, i, n, addr).values| ==>
      Creations(host, cat, kind, cls, ctor, params, i, n, addr).values[k] != JNull
    decreases n - i
  {
    if i < n {
      match Creation(host, cat, kind, cls, ctor, params, i, addr)
      case Err(_) =>
      case Ok(v) =>
        if kind == NullObject {
          InstantiateCreates(host, cat, kind, cls, ctor, None, addr + i);
        } else {
          InstantiateCreates(host, cat, kind, cls, ctor, Some(ArgumentsAt(params, i).value), addr + i);
        }
        CreationsAreNonNull(host, cat, kind, cls, ctor, params, i + 1, n, addr);
    }
  }

  /** A host that never hands back null creates non-null instances of every kind. */
  lemma InstantiateCreates(host: Host, cat: Catalogue, kind: ConstructKind, cls: JType, ctor: Option<Member>, args: Option<seq<JValue>>, addr: nat)
    requires HostWellFormed(host)
    ensures Created(Instantiate(host, cat, kind, cls, ctor, args, addr))
  {
    if kind == NullObject || kind == NullArrayObject {
    } else if args.None? {
      assert Created(host.newInstance(cls, addr));
    } else if kind == ArrayObject {
      assert Created(host.newArray(cls, args.value, addr));
    } else if IsEnum(cat, cls) {
      if args.value != [] && args.value[0] != JNull {
        assert Created(host.enumValueOf(cls, args.value[0]));
      }
    } else if ctor.Some? {
      assert Created(host.construct(ctor.value, args.value, addr));
    }
  }

  // ---------------------------------------------------------------------------
  // getClassInfo
  // ---------------------------------------------------------------------------

  function MemberNames(ms: seq<Member>): (r: seq<string>)
    ensures |r| == |ms| && forall k :: 0 <= k < |ms| ==> r[k] == ms[k].name
  {
    seq(|ms|, k requires 0 <= k < |ms| => ms[k].name)
  }

  /**
   * getClassInfo: the method names, `endOfMethods`, then the field names; an
   * array class name (`[...`) describes Object plus `clone` and `length`.
   */
  function ClassInfoNames(cat: Catalogue, name: string): (r: Result<seq<string>, JavaException>)
    ensures !StartsWith(name, "[") ==> (r.Ok? <==> name in cat.classes)
    ensures r.Err? ==> r.error == ClassNotFound(name)
  {
    if StartsWith(name, "[") then
      var obj := Named(ObjectClass);
      Ok(MemberNames(Methods(cat, obj)) + ["clone", EndOfMethods] + MemberNames(Fields(cat, obj)) + ["length"])
    else
      match ForName(cat, name)
      case Err(e) => Err(e)
      case Ok(t) => Ok(MemberNames(Methods(cat, t)) + [EndOfMethods] + MemberNames(Fields(cat, t)))
  }

  /** The names as the String wrappers registerMethodOutput makes of them. */
  function NameWrappers(names: seq<string>): (r: seq<ParameterWrapper>)
    ensures |r| == |names|
    ensures forall k :: 0 <= k < |r| ==> r[k] == ParameterWrapper(Named(StringClass), JString(names[k]), 0)
  {
    seq(|names|, k requires 0 <= k < |names| => ParameterWrapper(Named(StringClass), JString(names[k]), 0))
  }

  /**
   * A client splits a class description at the first `endOfMethods`: when no
   * method is called that, what comes before is exactly the method names (and
   * `clone` for arrays) and what comes after the field names (and `length`).
   */
  lemma ClassInfoSplitsAtMarker(cat: Catalogue, name: string)
    requires ClassInfoNames(cat, name).Ok?
    ensures var t := if StartsWith(name, "[") then Named(ObjectClass) else Named(name);
      var ms := MemberNames(Methods(cat, t)) + (if StartsWith(name, "[") then ["clone"] else []);
      var fs := MemberNames(Fields(cat, t)) + (if StartsWith(name, "[") then ["length"] else []);
      EndOfMethods !in ms ==>
        var names := ClassInfoNames(cat, name).value;
        |names| == |ms| + 1 + |fs| && names[|ms|] == EndOfMethods &&
        names[..|ms|] == ms && names[|ms| + 1..] == fs &&
        forall k :: 0 <= k < |ms| ==> names[k] != EndOfMethods
  {
    var t := if StartsWith(name, "[") then Named(ObjectClass) else Named(name);
    var ms := MemberNames(Methods(cat, t)) + (if StartsWith(name, "[") then ["clone"] else []);
    var fs := MemberNames(Fields(cat, t)) + (if StartsWith(name, "[") then ["length"] else []);
    var names := ClassInfoNames(cat, name).value;
    if StartsWith(name, "[") {
      assert names == ms + [EndOfMethods] + fs;
    } else {
      assert names == ms + [EndOfMethods] + fs;
    }
  }

  // ---------------------------------------------------------------------------
  // The decisions of processMethod, processField and createObjectFromRequestStrings
  // ---------------------------------------------------------------------------

  /**
   * The method of a request: getMethod with the exact parameter classes (no
   * classes without operands); without operands its NoSuchMethodException
   * stands, with operands findNearestMethod decides.
   */
  function MethodLookup(cat: Catalogue, cls: JType, name: string, types: seq<JType>, params: ParameterList): (r: Result<Member, JavaException>)
    requires WellFormed(cat)
  {
    if params == [] then
      match ExactMember(Methods(cat, cls), Some(name), [])
      case Some(m) => Ok(m)
      case None => Err(NoSuchMethod(NoArgumentMethodMessage(cls, name)))
    else
      match ExactMember(Methods(cat, cls), Some(name), types)
      case Some(m) => Ok(m)
      case None => Nearest(cat, cls, Methods(cat, cls), Some(name), types)
  }

  /**
   * The lookup prefers the method declaring exactly the operand classes; only
   * without one does the nearest-match ranking decide, and without operands
   * nothing but an exact match is accepted.
   */
  lemma MethodLookupPrefersExact(cat: Catalogue, cls: JType, name: string, types: seq<JType>, params: ParameterList)
    requires WellFormed(cat)
    ensures var r := MethodLookup(cat, cls, name, types, params);
      var exact := ExactMember(Methods(cat, cls), Some(name), if params == [] then [] else types);
      (exact.Some? ==> r == Ok(exact.value) && r.value.name == name) &&
      (exact.None? && params == [] ==> r == Err(NoSuchMethod(NoArgumentMethodMessage(cls, name)))) &&
      (exact.None? && params != [] ==> r == Nearest(cat, cls, Methods(cat, cls), Some(name), types))
  {
  }

  /** What a method request calls: the member, the targets, the argument vectors and the calls in order. */
  datatype MethodPlan = MethodPlan(met: Member, targets: seq<ParameterWrapper>, params: ParameterList, calls: seq<CallIndex>)

  /**
   * processMethod up to its loop: the caller, the operands, `requestStrings[2]`
   * as the method name, the lookup, the static check for a call on a class
   * name, and the length check of the broadcast.
   */
  function MethodPlanOf(host: Host, cat: Catalogue, b: Buckets, parts: seq<string>): (r: Result<MethodPlan, JavaException>)
    requires WellFormed(cat)
    ensures r.Ok? ==> r.value.targets != [] && InRange(r.value.calls, |r.value.targets|)
    ensures r.Ok? ==> Broadcastable(|r.value.targets|, r.value.params, r.value.calls)
  {
    match CallRequest(host, cat, b, parts)
    case Err(e) => Err(e)
    case Ok((caller, types, params)) =>
      assert params != [] ==> params[0] != [] && MaxLength(params) >= 1;
      if |parts| < 3 then Err(IndexOutOfBounds)
      else
        match MethodLookup(cat, caller.cls, parts[2], types, params)
        case Err(e) => Err(e)
        case Ok(met) =>
          if caller.isStatic && !met.isStatic then Err(InvalidParameter(NotStaticMethod))
          else if Mismatched(|caller.targets|, MaxLength(params)) then Err(InvalidParameter(LengthMismatch))
          else Ok(MethodPlan(met, caller.targets, params, MethodCalls(|caller.targets|, params)))
  }

  /**
   * A method request goes ahead exactly when the caller, the operands, the name
   * and the method are found, a call on a class name finds a static method and
   * the counts broadcast; it then calls the method once per target without
   * operands and max(#targets, innerSize) times with them.
   */
  lemma MethodRequestDecisions(host: Host, cat: Catalogue, b: Buckets, parts: seq<string>)
    requires WellFormed(cat)
    ensures |parts| < 2 ==> MethodPlanOf(host, cat, b, parts) == Err(IndexOutOfBounds)
    ensures var r := MethodPlanOf(host, cat, b, parts);
      var q := CallRequest(host, cat, b, parts);
      r.Ok? <==>
        q.Ok? && |parts| >= 3 && MethodLookup(cat, q.value.0.cls, parts[2], q.value.1, q.value.2).Ok? &&
        (q.value.0.isStatic ==> MethodLookup(cat, q.value.0.cls, parts[2], q.value.1, q.value.2).value.isStatic) &&
        !Mismatched(|q.value.0.targets|, MaxLength(q.value.2))
    ensures var r := MethodPlanOf(host, cat, b, parts);
      var q := CallRequest(host, cat, b, parts);
      r.Ok? ==>
        r.value.targets == q.value.0.targets && r.value.params == q.value.2 &&
        r.value.met == MethodLookup(cat, q.value.0.cls, parts[2], q.value.1, q.value.2).value &&
        |r.value.calls| == (if r.value.params == [] then |r.value.targets| else Max(|r.value.targets|, MaxLength(r.value.params)))
    ensures var r := MethodPlanOf(host, cat, b, parts);
      var q := CallRequest(host, cat, b, parts);
      q.Ok? && |parts| >= 3 && MethodLookup(cat, q.value.0.cls, parts[2], q.value.1, q.value.2).Ok? ==>
        (q.value.0.isStatic && !MethodLookup(cat, q.value.0.cls, parts[2], q.value.1, q.value.2).value.isStatic ==>
          r == Err(InvalidParameter(NotStaticMethod))) &&
        (!q.value.0.isStatic && Mismatched(|q.value.0.targets|, MaxLength(q.value.2)) ==>
          r == Err(InvalidParameter(LengthMismatch)))
  {
    var q := CallRequest(host, cat, b, parts);
    if q.Ok? && q.value.2 != [] {
      assert q.value.2[0] != [];
      assert MaxLength(q.value.2) >= 1;
    }
  }

  /** What a field request does: read (no operand) or write the field (None: the length of arrays) on the targets. */
  datatype FieldPlan = FieldPlan(field: Option<Member>, targets: seq<ParameterWrapper>, params: ParameterList, calls: seq<CallIndex>)

  /**
   * processField up to its loops: the caller, at most one operand,
   * `requestStrings[2]` as the field name, `length` of an array class without
   * operand, or getField, the static check for a call on a class name, and for
   * a write the length check of the broadcast.
   */
  function FieldPlanOf(host: Host, cat: Catalogue, b: Buckets, parts: seq<string>): (r: Result<FieldPlan, JavaException>)
    ensures r.Ok? ==> r.value.targets != [] && InRange(r.value.calls, |r.value.targets|) && |r.value.params| <= 1
    ensures r.Ok? && r.value.params != [] ==> r.value.field.Some? && Broadcastable(|r.value.targets|, r.value.params, r.value.calls)
    ensures r.Ok? && r.value.params == [] ==> r.value.calls == []
  {
    match CallRequest(host, cat, b, parts)
    case Err(e) => Err(e)
    case Ok((caller, types, params)) => FieldDecision(cat, caller, types, params, parts)
  }

  /** The part of processField after the caller and the operands are known. */
  function FieldDecision(cat: Catalogue, caller: Caller, types: seq<JType>, params: ParameterList, parts: seq<string>): (r: Result<FieldPlan, JavaException>)
    requires caller.targets != [] && Marshalled(types, params)
    ensures r.Ok? ==> r.value.targets == caller.targets && r.value.params == params
    ensures r.Ok? ==> InRange(r.value.calls, |r.value.targets|) && |r.value.params| <= 1
    ensures r.Ok? && r.value.params != [] ==> r.value.field.Some? && Broadcastable(|r.value.targets|, r.value.params, r.value.calls)
    ensures r.Ok? && r.value.params == [] ==> r.value.calls == []
  {
    assert params != [] ==> params[0] != [] && MaxLength(params) >= 1;
    if |types| > 1 then Err(InvalidParameter(SingleFieldArgument))
    else if |parts| < 3 then Err(IndexOutOfBounds)
    else if IsArrayLengthCall(caller.cls, params, parts[2]) then Ok(FieldPlan(None, caller.targets, params, []))
    else
      match FieldNamed(Fields(cat, caller.cls), parts[2])
      case None => Err(NoSuchField(NoSuchFieldMessage(caller.cls, parts[2])))
      case Some(f) =>
        if caller.isStatic && !f.isStatic then Err(InvalidParameter(NotStaticField))
        else if params == [] then Ok(FieldPlan(Some(f), caller.targets, params, []))
        else if Mismatched(|caller.targets|, MaxLength(params)) then Err(InvalidParameter(LengthMismatch))
        else Ok(FieldPlan(Some(f), caller.targets, params, MethodCalls(|caller.targets|, params)))
  }

  /**
   * A field request with two operands or more is refused before the name is
   * read; without operand it reads from every target (the array length for
   * `length` on an array class), with one it writes max(#targets, innerSize)
   * times; a missing field is NoSuchFieldException, a static request needs a
   * static field.
   */
  lemma FieldRequestDecisions(host: Host, cat: Catalogue, b: Buckets, parts: seq<string>)
    ensures var r := FieldPlanOf(host, cat, b, parts);
      var q := CallRequest(host, cat, b, parts);
      q.Ok? && |q.value.1| > 1 ==> r == Err(InvalidParameter(SingleFieldArgument))
    ensures var r := FieldPlanOf(host, cat, b, parts);
      var q := CallRequest(host, cat, b, parts);
      r.Ok? ==>
        q.Ok? && |parts| >= 3 && r.value.targets == q.value.0.targets && r.value.params == q.value.2 &&
        (r.value.field.None? <==> IsArrayLengthCall(q.value.0.cls, q.value.2, parts[2])) &&
        (r.value.field.Some? ==>
          r.value.field.value.name == parts[2] && r.value.field.value in Fields(cat, q.value.0.cls) &&
          (q.value.0.isStatic ==> r.value.field.value.isStatic)) &&
        (r.value.params == [] ==> r.value.calls == []) &&
        (r.value.params != [] ==> |r.value.calls| == Max(|r.value.targets|, MaxLength(r.value.params)))
    ensures var r := FieldPlanOf(host, cat, b, parts);
      var q := CallRequest(host, cat, b, parts);
      q.Ok? && |q.value.1| <= 1 && |parts| >= 3 && !IsArrayLengthCall(q.value.0.cls, q.value.2, parts[2]) &&
      FieldNamed(Fields(cat, q.value.0.cls), parts[2]).None? ==>
        r == Err(NoSuchField(NoSuchFieldMessage(q.value.0.cls, parts[2])))
  {
    var q := CallRequest(host, cat, b, parts);
    if q.Ok? && q.value.2 != [] {
      assert q.value.2[0] != [];
      assert MaxLength(q.value.2) >= 1;
    }
  }

  /** What a construction request builds: the kind, the class, the constructor when one is needed, and the argument vectors. */
  datatype ConstructionPlan = ConstructionPlan(kind: ConstructKind, cls: JType, ctor: Option<Member>, params: ParameterList)

  /**
   * The constructor of a plain, non-enum construction with operands: getConstructor
   * with the exact classes, else findNearestConstructor.
   */
  function ConstructorLookup(cat: Catalogue, cls: JType, types: seq<JType>): Result<Member, JavaException>
    requires WellFormed(cat)
  {
    match ExactMember(Constructors(cat, cls), None, types)
    case Some(m) => Ok(m)
    case None => Nearest(cat, cls, Constructors(cat, cls), None, types)
  }

  /** Whether the instances of a construction come from a constructor of the class. */
  predicate NeedsConstructor(cat: Catalogue, kind: ConstructKind, cls: JType, params: ParameterList) {
    params != [] && kind == PlainObject && !IsEnum(cat, cls)
  }

  /**
   * createObjectFromRequestStrings up to its loop: the code, the class (the
   * primitive table first), the operands from position 2, and the constructor
   * getNewInstance looks up. getNewInstance looks it up again for every
   * instance with the same classes, so it is looked up once here: the first
   * lookup happens before any instance exists, and the later ones repeat it.
   */
  function ConstructionPlanOf(host: Host, cat: Catalogue, b: Buckets, parts: seq<string>): (r: Result<ConstructionPlan, JavaException>)
    requires WellFormed(cat)
    ensures r.Ok? ==> |parts| >= 2 && r.value.kind == KindOf(parts[0]) && (r.value.ctor.Some? <==> NeedsConstructor(cat, r.value.kind, r.value.cls, r.value.params))
  {
    if |parts| < 2 then Err(IndexOutOfBounds)
    else
      var kind := KindOf(parts[0]);
      match ConstructedClass(cat, parts[1])
      case Err(e) => Err(e)
      case Ok(cls) =>
        match Marshall(host, b, parts, 2)
        case Err(e) => Err(e)
        case Ok((types, params)) =>
          if NeedsConstructor(cat, kind, cls, params) then
            match ConstructorLookup(cat, cls, types)
            case Err(e) => Err(e)
            case Ok(ctor) => Ok(ConstructionPlan(kind, cls, Some(ctor), params))
          else Ok(ConstructionPlan(kind, cls, None, params))
  }

  /**
   * The instances a construction plan makes from address `addr` on: one,
   * without arguments, when there are no operands, else one per index below
   * the inner size; the first exception ends it.
   */
  function ConstructionRun(host: Host, cat: Catalogue, p: ConstructionPlan, addr: nat): (r: Run)
    ensures |r.values| <= (if p.params == [] then 1 else MaxLength(p.params))
  {
    if p.params == [] then
      match Instantiate(host, cat, p.kind, p.cls, p.ctor, None, addr)
      case Err(e) => Run([], Some(e))
      case Ok(v) => Run([v], None)
    else Creations(host, cat, p.kind, p.cls, p.ctor, p.params, 0, MaxLength(p.params), addr)
  }

  /**
   * A construction with operands makes one instance per index below the inner
   * size when every creation succeeds: instance `k` is built at address
   * `addr + k` from the arguments of index `k`.
   */
  lemma {:induction false} CreationsInOrder(host: Host, cat: Catalogue, kind: ConstructKind, cls: JType, ctor: Option<Member>, params: ParameterList, i: nat, n: nat, addr: nat)
    requires i <= n
    requires forall k :: i <= k < n ==> Creation(host, cat, kind, cls, ctor, params, k, addr).Ok?
    ensures var r := Creations(host, cat, kind, cls, ctor, params, i, n, addr);
      r.error.None? && |r.values| == n - i &&
      forall k :: i <= k < n ==> r.values[k - i] == Creation(host, cat, kind, cls, ctor, params, k, addr).value
    decreases n - i
  {
    if i < n {
      assert Creation(host, cat, kind, cls, ctor, params, i, addr).Ok?;
      CreationsInOrder(host, cat, kind, cls, ctor, params, i + 1, n, addr);
    }
  }

  /**
   * With consistent vectors (each of length one or the inner size), instance
   * `k` of a plain construction is the constructor applied to the sole
   * elements and to the elements of index `k`: one new object per index, as
   * the multiple-vector construction of the tests expects.
   */
  lemma PlainConstructionUsesIndexK(host: Host, cat: Catalogue, cls: JType, ctor: Member, params: ParameterList, k: nat, addr: nat)
    requires forall j :: 0 <= j < |params| ==> |params[j]| == 1 || |params[j]| == MaxLength(params)
    requires k < MaxLength(params) && !IsEnum(cat, cls)
    ensures Creation(host, cat, PlainObject, cls, Some(ctor), params, k, addr) ==
      host.construct(ctor, seq(|params|, j requires 0 <= j < |params| => if |params[j]| == 1 then params[j][0].value else params[j][k].value), addr + k)
  {
    ConsistentVectorsServeEveryCall(params, k);
    var args := ArgumentsAt(params, k).value;
    assert args == seq(|params|, j requires 0 <= j < |params| => if |params[j]| == 1 then params[j][0].value else params[j][k].value);
  }
}
