/**
 * What the bridge sees of the host JVM, replacing reflection: class objects
 * named as `Class.getName` names them, the values that travel through the
 * bridge, a catalogue of classes (superclass, direct interfaces, and the
 * public methods, constructors and fields in the order reflection lists
 * them), and a record of oracles for everything the bridge only calls into
 * (identity hashing, `equals`, `invoke`, `newInstance`, field access, and
 * floating-point parsing and printing).
 */
module TypeCatalogue {
  import opened Wrappers
  import opened JavaText

  newtype int32 = x: int | -0x8000_0000 <= x < 0x8000_0000

  /** A Java class: a named class, interface or primitive, or an array type. */
  datatype JType = Named(name: string) | ArrayOf(component: JType)

  const ObjectClass := "java.lang.Object"
  const StringClass := "java.lang.String"
  const CloneableInterface := "java.lang.Cloneable"
  const SerializableInterface := "java.io.Serializable"
  /** The class of the typed-null markers the environment registers. */
  const NullWrapperClass := "j4r.lang.codetranslator.REnvironment$NullWrapper"

  const PrimitiveNames: set<string> := {"int", "long", "double", "float", "boolean", "char", "byte", "short", "void"}

  predicate IsPrimitive(t: JType) {
    t.Named? && t.name in PrimitiveNames
  }

  /** The element descriptor used inside an array class name (`I`, `Ljava.lang.String;`, `[I`). */
  function Descriptor(t: JType): string {
    match t
    case ArrayOf(c) => "[" + Descriptor(c)
    case Named(n) =>
      if n == "int" then "I" else if n == "long" then "J" else if n == "double" then "D"
      else if n == "float" then "F" else if n == "boolean" then "Z" else if n == "char" then "C"
      else if n == "byte" then "B" else if n == "short" then "S"
      else "L" + n + ";"
  }

  /** `Class.getName`. */
  function JavaName(t: JType): string {
    match t
    case Named(n) => n
    case ArrayOf(c) => "[" + Descriptor(c)
  }

  /**
   * ReflectUtility.JavaWrapperToPrimitiveMap, keyed and valued by class name: the
   * eight boxed types to their primitives, and String to itself.
   */
  const WrapperToPrimitive: map<string, string> := map[
    "java.lang.Integer" := "int", "java.lang.Long" := "long",
    "java.lang.Double" := "double", "java.lang.Float" := "float",
    "java.lang.Boolean" := "boolean", "java.lang.Character" := "char",
    "java.lang.Byte" := "byte", "java.lang.Short" := "short",
    StringClass := StringClass]

  /** ReflectUtility.PrimitiveToJavaWrapperMap, the inverse table. */
  const PrimitiveToWrapper: map<string, string> := map[
    "int" := "java.lang.Integer", "long" := "java.lang.Long",
    "double" := "java.lang.Double", "float" := "java.lang.Float",
    "boolean" := "java.lang.Boolean", "char" := "java.lang.Character",
    "byte" := "java.lang.Byte", "short" := "java.lang.Short",
    StringClass := StringClass]

  predicate IsWrapperType(t: JType) {
    t.Named? && t.name in WrapperToPrimitive
  }

  /** An abstract double or float value; its arithmetic and printing are host matters. */
  datatype Floating = Floating(id: int)

  /** An object the bridge can hold a reference to. */
  datatype HostObject =
    | Instance(address: nat, cls: JType)      // an ordinary object or an array
    | NullMarker(address: nat, declared: JType) // REnvironment.NullWrapper: a typed null

  /** A Java value as it travels through the bridge: null, a boxed primitive or String, or an object. */
  datatype JValue =
    | JNull
    | JInt(i: int)
    | JLong(l: int)
    | JDouble(d: Floating)
    | JFloat(f: Floating)
    | JBool(b: bool)
    | JChar(c: char)
    | JByte(byteValue: int)
    | JShort(shortValue: int)
    | JString(s: string)
    | JRef(obj: HostObject)

  /** A boxed primitive or a String, as opposed to null or a host object. */
  predicate IsBoxed(v: JValue) {
    !v.JNull? && !v.JRef?
  }

  /**
   * Boxed values are always represented by their own constructors: no host
   * instance has a wrapper class or the null marker's class.
   */
  predicate WellTyped(v: JValue) {
    v.JRef? && v.obj.Instance? ==> !IsWrapperType(v.obj.cls) && v.obj.cls != Named(NullWrapperClass)
  }

  /** `value.getClass()`; for a well-typed value its class is in the wrapper table exactly when it is boxed. */
  function RuntimeClass(v: JValue): (r: JType)
    requires v != JNull
    ensures WellTyped(v) ==> (IsWrapperType(r) <==> IsBoxed(v))
  {
    match v
    case JInt(_) => Named("java.lang.Integer")
    case JLong(_) => Named("java.lang.Long")
    case JDouble(_) => Named("java.lang.Double")
    case JFloat(_) => Named("java.lang.Float")
    case JBool(_) => Named("java.lang.Boolean")
    case JChar(_) => Named("java.lang.Character")
    case JByte(_) => Named("java.lang.Byte")
    case JShort(_) => Named("java.lang.Short")
    case JString(_) => Named(StringClass)
    case JRef(Instance(_, cls)) => cls
    case JRef(NullMarker(_, _)) => Named(NullWrapperClass)
  }

  /** What a Java call can throw, as far as the bridge distinguishes it. */
  datatype Throwable = Throwable(className: string, message: string)

  datatype JavaException =
    | InvalidParameter(message: string)      // java.security.InvalidParameterException
    | NumberFormat(input: string)            // NumberFormatException
    | IndexOutOfBounds                       // array or list index out of range
    | NullPointer                            // NullPointerException
    | ClassNotFound(className: string)       // ClassNotFoundException
    | NoSuchMethod(message: string)          // NoSuchMethodException
    | NoSuchField(message: string)           // NoSuchFieldException
    | InvocationTarget(target: Throwable)    // the invoked code itself threw `target`
    | Reflective(cause: Throwable)           // any other exception raised by a reflective call
    | Transport(message: string)             // IOException on the socket
    | NegativeArraySize(size: int)           // NegativeArraySizeException

  /** A public method, constructor or field as reflection lists it. */
  datatype Member = Member(name: string, params: seq<JType>, isStatic: bool, owner: string)

  /** What reflection reports about one class. */
  datatype ClassInfo = ClassInfo(
    superclass: Option<string>,   // getSuperclass(): None for Object and for interfaces
    interfaces: seq<string>,      // getInterfaces(): the direct interfaces
    methods: seq<Member>,         // getMethods(), inherited ones included
    constructors: seq<Member>,    // getConstructors()
    fields: seq<Member>,          // getFields()
    isEnum: bool,
    depth: nat)                   // strictly above the depth of the superclass

  /**
   * The classes loadable by name (`Class.forName`), the name-to-primitive table
   * of the construction path (ReflectUtility.PrimitiveTypeMap), the subtype
   * test `a.isAssignableFrom(b)`, and the names of the BasicClient.ClientRequest
   * constants.
   */
  datatype Catalogue = Catalogue(
    classes: map<string, ClassInfo>,
    primitiveAliases: map<string, JType>,
    assignableFrom: (JType, JType) -> bool,
    clientRequests: set<string>)

  /** Superclass chains are finite: every superclass is Object or a catalogued class of smaller depth. */
  predicate WellFormed(cat: Catalogue) {
    forall n :: n in cat.classes && cat.classes[n].superclass.Some? ==>
      var s := cat.classes[n].superclass.value;
      s == ObjectClass || (s in cat.classes && cat.classes[s].depth < cat.classes[n].depth)
  }

  /** `Class.forName(name)`. */
  function ForName(cat: Catalogue, name: string): (r: Result<JType, JavaException>)
    ensures r.Ok? <==> name in cat.classes
    ensures r.Ok? ==> JavaName(r.value) == name
  {
    if name in cat.classes then Ok(Named(name)) else Err(ClassNotFound(name))
  }

  /** `getSuperclass()`: arrays extend Object; Object, interfaces, primitives and unknown names give null. */
  function Superclass(cat: Catalogue, t: JType): Option<JType> {
    match t
    case ArrayOf(_) => Some(Named(ObjectClass))
    case Named(n) =>
      if n in cat.classes && cat.classes[n].superclass.Some? then Some(Named(cat.classes[n].superclass.value))
      else None
  }

  /** `getInterfaces()` as names: arrays implement Cloneable and Serializable. */
  function Interfaces(cat: Catalogue, t: JType): seq<string> {
    match t
    case ArrayOf(_) => [CloneableInterface, SerializableInterface]
    case Named(n) => if n in cat.classes then cat.classes[n].interfaces else []
  }

  /** `getMethods()`: an array type has Object's public methods. */
  function Methods(cat: Catalogue, t: JType): seq<Member> {
    var n := if t.ArrayOf? then ObjectClass else t.name;
    if n in cat.classes then cat.classes[n].methods else []
  }

  function Constructors(cat: Catalogue, t: JType): seq<Member> {
    if t.Named? && t.name in cat.classes then cat.classes[t.name].constructors else []
  }

  function Fields(cat: Catalogue, t: JType): seq<Member> {
    if t.Named? && t.name in cat.classes then cat.classes[t.name].fields else []
  }

  function IsEnum(cat: Catalogue, t: JType): bool {
    t.Named? && t.name in cat.classes && cat.classes[t.name].isEnum
  }

  /**
   * The steps left before a superclass walk from `t` reaches Object or stops;
   * it decreases along `Superclass` in a well-formed catalogue.
   */
  function Height(cat: Catalogue, t: JType): nat {
    match t
    case ArrayOf(_) => 1
    case Named(n) =>
      if n == ObjectClass then 0
      else if n in PrimitiveNames then 1
      else if n in cat.classes then cat.classes[n].depth + 1
      else 0
  }

  lemma SuperclassIsLower(cat: Catalogue, t: JType)
    requires WellFormed(cat) && !IsPrimitive(t) && JavaName(t) != ObjectClass && Superclass(cat, t).Some?
    ensures Height(cat, Superclass(cat, t).value) < Height(cat, t)
  {
  }

  /**
   * Everything the bridge only calls into. `invoke` is Method.invoke (receiver,
   * arguments), `construct` Constructor.newInstance given the address the new
   * object gets, `newInstance` the no-argument Class.newInstance, `getField` and
   * `setField` Field.get and Field.set, `arrayLength` Array.getLength,
   * `enumValueOf` the enum's valueOf, and `newArray` Array.newInstance applied to
   * the dimensions ReflectUtility.convertArrayType extracts from the arguments.
   */
  datatype Host = Host(
    identityHash: JValue -> int32,
    equals: (JValue, JValue) -> bool,
    parseDouble: string -> Option<Floating>,
    parseFloat: string -> Option<Floating>,
    renderFloating: Floating -> string,
    invoke: (Member, JValue, seq<JValue>) -> Result<JValue, JavaException>,
    construct: (Member, seq<JValue>, nat) -> Result<JValue, JavaException>,
    newInstance: (JType, nat) -> Result<JValue, JavaException>,
    enumValueOf: (JType, JValue) -> Result<JValue, JavaException>,
    newArray: (JType, seq<JValue>, nat) -> Result<JValue, JavaException>,
    getField: (Member, JValue) -> Result<JValue, JavaException>,
    setField: (Member, JValue, JValue) -> Result<(), JavaException>,
    arrayLength: JValue -> Result<JValue, JavaException>)

  /** A value a creation hands back: a well-typed, non-null object. */
  predicate Created(r: Result<JValue, JavaException>) {
    r.Ok? ==> r.value != JNull && WellTyped(r.value)
  }

  /**
   * Every value the host hands back is well typed, and construction (a
   * constructor, newInstance, an enum constant, a new array) never yields null.
   */
  ghost predicate HostWellFormed(host: Host) {
    (forall m, r, args :: host.invoke(m, r, args).Ok? ==> WellTyped(host.invoke(m, r, args).value)) &&
    (forall m, v :: host.getField(m, v).Ok? ==> WellTyped(host.getField(m, v).value)) &&
    (forall v :: host.arrayLength(v).Ok? ==> WellTyped(host.arrayLength(v).value)) &&
    (forall m, args, a :: Created(host.construct(m, args, a))) &&
    (forall t, a :: Created(host.newInstance(t, a))) &&
    (forall t, v :: Created(host.enumValueOf(t, v))) &&
    (forall t, dims, a :: Created(host.newArray(t, dims, a)))
  }
}
