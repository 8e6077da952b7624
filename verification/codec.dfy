/**
 * The textual wire format of REnvironment: the separators and tokens, the
 * rendering of results (ParameterWrapper.toString and JavaObjectList.toString),
 * and the decoding of tagged primitive operands (getPrimitiveClass and
 * createFromPrimitiveClass).
 */
module Codec {
  import opened Wrappers
  import opened JavaText
  import opened TypeCatalogue

  const MainSplitter := "/;"
  const SubSplitter := "/,"
  const ColliderSplitter := "_"

  const NumericToken := "nu"
  const IntegerToken := "in"
  const LogicalToken := "lo"
  const CharacterToken := "ch"
  const ObjectToken := "JO"
  const ListToken := "JL"

  const ObjectHashcodePrefix := "java.objecthashcode"

  const ConstructCode := "co"
  const ConstructNullArrayCode := "cona"
  const ConstructNullCode := "conu"
  const ConstructArrayCode := "coar"
  const MethodCode := "method"
  const ClassInfoCode := "cli"
  const FlushCode := "flush"
  const SizeCode := "size"
  const FieldCode := "field"

  /**
   * REnvironment.ParameterWrapper: a value, the class it is passed as, and the
   * collider it was registered under (0 when it was not registered).
   */
  datatype ParameterWrapper = ParameterWrapper(ptype: JType, value: JValue, collider: int)

  /** A wrapper built for a result: a non-null, well-typed value typed by its own class. */
  predicate IsResultWrapper(w: ParameterWrapper) {
    w.value != JNull && WellTyped(w.value) && w.ptype == RuntimeClass(w.value)
  }

  /** What processCode hands back: null, one wrapper, a JavaObjectList, or a ClientRequest constant. */
  datatype Answer =
    | NoAnswer
    | Single(w: ParameterWrapper)
    | Listed(ws: seq<ParameterWrapper>)
    | Request(name: string)

  /** The common tail of the handlers: null for no output, the wrapper itself for one, the list otherwise. */
  function Collapse(ws: seq<ParameterWrapper>): (r: Answer)
    ensures ws == [] <==> r == NoAnswer
    ensures |ws| == 1 <==> r.Single?
    ensures r.Single? ==> r.w == ws[0]
    ensures r.Listed? ==> r.ws == ws && |ws| >= 2
    ensures !r.Request?
  {
    if ws == [] then NoAnswer else if |ws| == 1 then Single(ws[0]) else Listed(ws)
  }

  // ---------------------------------------------------------------------------
  // Rendering
  // ---------------------------------------------------------------------------

  /** The text of a boxed result: `nu`, `in`, `lo` or `ch` and the value's toString. */
  function BoxedText(host: Host, v: JValue): (r: string)
    requires IsBoxed(v)
  {
    match v
    case JDouble(d) => NumericToken + host.renderFloating(d)
    case JFloat(f) => NumericToken + host.renderFloating(f)
    case JInt(i) => IntegerToken + IntToString(i)
    case JLong(l) => IntegerToken + IntToString(l)
    case JBool(b) => LogicalToken + (if b then "true" else "false")
    case JChar(c) => CharacterToken + [c]
    case JByte(n) => CharacterToken + IntToString(n)
    case JShort(n) => CharacterToken + IntToString(n)
    case JString(s) => CharacterToken + s
  }

  /** The class name shown in a reference: getName without a trailing `;` (or `/;`). */
  function ReferenceClassName(t: JType): (r: string)
    ensures r <= JavaName(t)
  {
    var n := JavaName(t);
    if |n| >= 1 && n[|n| - 1] == ';' then n[..|n| - 1]
    else if |n| >= 2 && n[|n| - 2..] == MainSplitter then n[..|n| - 2]
    else n
  }

  /** The `hash_collider` part of a reference, which is what a client sends back to name the object. */
  function ReferenceKey(hash: int, collider: int): string {
    IntToString(hash) + ColliderSplitter + IntToString(collider)
  }

  /** The text of a registered object: `JO/;class@hash_collider`. */
  function ReferenceText(host: Host, w: ParameterWrapper): string {
    ObjectToken + MainSplitter + ReferenceClassName(w.ptype) + "@" +
      ReferenceKey(host.identityHash(w.value) as int, w.collider)
  }

  /** ParameterWrapper.toString. */
  function Text(host: Host, w: ParameterWrapper): string
    requires IsResultWrapper(w)
  {
    if IsWrapperType(w.ptype) then BoxedText(host, w.value) else ReferenceText(host, w)
  }

  /** One item of a JavaObjectList: its text without a leading `JO/;`, then `/,`. */
  function ListItem(host: Host, w: ParameterWrapper): string
    requires IsResultWrapper(w)
  {
    var t := Text(host, w);
    var head := ObjectToken + MainSplitter;
    (if StartsWith(t, head) then t[|head|..] else t) + SubSplitter
  }

  function ListItems(host: Host, ws: seq<ParameterWrapper>): string
    requires forall i :: 0 <= i < |ws| ==> IsResultWrapper(ws[i])
  {
    if ws == [] then "" else ListItem(host, ws[0]) + ListItems(host, ws[1..])
  }

  /** JavaObjectList.toString: `JL/;` followed by every item and its `/,`. */
  function ListText(host: Host, ws: seq<ParameterWrapper>): string
    requires forall i :: 0 <= i < |ws| ==> IsResultWrapper(ws[i])
  {
    ListToken + MainSplitter + ListItems(host, ws)
  }

  /** Everything after the first `@`: how a client extracts the key of a reference. */
  function AfterAt(s: string): string {
    var i := IndexOf(s, '@');
    s[i + 1..]
  }

  /**
   * A registered object's text carries its hash and collider after the `@`, and a
   * client that strips everything up to the `@` gets exactly its `hash_collider`.
   */
  lemma ReferenceKeyAfterAt(host: Host, w: ParameterWrapper)
    requires IsResultWrapper(w) && !IsWrapperType(w.ptype)
    requires '@' !in JavaName(w.ptype)
    ensures StartsWith(Text(host, w), ObjectToken + MainSplitter)
    ensures AfterAt(Text(host, w)) == ReferenceKey(host.identityHash(w.value) as int, w.collider)
  {
    var name := ReferenceClassName(w.ptype);
    assert '@' !in name by {
      var n := JavaName(w.ptype);
      forall i | 0 <= i < |name| ensures name[i] != '@' {
        assert name[i] == n[i];
      }
    }
    var key := ReferenceKey(host.identityHash(w.value) as int, w.collider);
    var front := ObjectToken + MainSplitter + name;
    assert Text(host, w) == front + "@" + key;
    assert '@' !in front;
    AfterFirstAt(front, key);
  }

  /** The first `@` of a text is the one that follows a front without any. */
  lemma AfterFirstAt(front: string, key: string)
    requires '@' !in front
    ensures AfterAt(front + "@" + key) == key
  {
    var t := front + "@" + key;
    assert t[|front|] == '@' && t[..|front|] == front;
    assert IndexOf(t, '@') == |front|;
  }

  /** An int result prints as `in` and the decimal text Integer.parseInt reads back. */
  lemma IntResultText(host: Host, i: int)
    requires IsInt32(i)
    ensures var t := Text(host, ParameterWrapper(RuntimeClass(JInt(i)), JInt(i), 0));
      StartsWith(t, IntegerToken) && ParseInt(t[2..]) == Some(i)
  {
    ParseIntToString(i);
  }

  /** A boolean result prints as `lotrue` or `lofalse`, and decoding the tail as `logical` gives it back. */
  lemma BoolResultText(host: Host, b: bool)
    ensures var t := Text(host, ParameterWrapper(RuntimeClass(JBool(b)), JBool(b), 0));
      StartsWith(t, LogicalToken) && DecodeOperand(host, LogicalTag, t[2..]) == Ok(ParameterWrapper(Named("boolean"), JBool(b), 0))
  {
    var t := Text(host, ParameterWrapper(RuntimeClass(JBool(b)), JBool(b), 0));
    if b {
      assert t[2..] == "true";
      assert ToLower("true") == "true";
    } else {
      assert t[2..] == "false";
      assert ToLower("false") == "false";
    }
  }

  // ---------------------------------------------------------------------------
  // Tagged primitive operands
  // ---------------------------------------------------------------------------

  const IntegerTag := "integer"
  const CharacterTag := "character"
  const NumericTag := "numeric"
  const LogicalTag := "logical"
  const LongTag := "long"
  const FloatTag := "float"

  /** The keys of REnvironment.PrimitiveTypeMap. */
  const PrimitiveTags: seq<string> := [IntegerTag, CharacterTag, NumericTag, LogicalTag, LongTag, FloatTag]

  /** The class each tag stands for in REnvironment.PrimitiveTypeMap. */
  function TagClass(tag: string): JType
    requires tag in PrimitiveTags
  {
    if tag == IntegerTag then Named("int")
    else if tag == CharacterTag then Named(StringClass)
    else if tag == NumericTag then Named("double")
    else if tag == LogicalTag then Named("boolean")
    else if tag == LongTag then Named("long")
    else Named("float")
  }

  /** No tag is a prefix of another, so at most one tag starts any operand. */
  lemma TagsArePrefixFree(s: string, a: string, b: string)
    requires a in PrimitiveTags && b in PrimitiveTags
    requires StartsWith(s, a) && StartsWith(s, b)
    ensures a == b
  {
    assert a[..3] == s[..3] == b[..3];
    assert IntegerTag[..3] == "int" && CharacterTag[..3] == "cha" && NumericTag[..3] == "num";
    assert LogicalTag[..3] == "log" && LongTag[..3] == "lon" && FloatTag[..3] == "flo";
  }

  function FirstTag(s: string, tags: seq<string>): (r: Option<string>)
    ensures r.Some? <==> exists k :: 0 <= k < |tags| && StartsWith(s, tags[k])
    ensures r.Some? ==> r.value in tags && StartsWith(s, r.value)
  {
    if tags == [] then None
    else if StartsWith(s, tags[0]) then Some(tags[0])
    else
      var r := FirstTag(s, tags[1..]);
      assert forall k :: 1 <= k < |tags| ==> tags[k] == tags[1..][k - 1];
      r
  }

  /**
   * getPrimitiveClass: the tag the operand starts with, if any. Since the tags are
   * prefix-free the order in which the map's keys are tried does not matter.
   */
  function GetPrimitiveClass(s: string): (r: Option<string>)
    ensures r.Some? ==> r.value in PrimitiveTags && StartsWith(s, r.value)
    ensures r.None? ==> forall k :: k in PrimitiveTags ==> !StartsWith(s, k)
    ensures forall k :: k in PrimitiveTags && StartsWith(s, k) ==> r == Some(k)
  {
    var r := FirstTag(s, PrimitiveTags);
    forall k | k in PrimitiveTags && StartsWith(s, k) ensures r == Some(k) {
      TagsArePrefixFree(s, k, r.value);
    }
    r
  }

  /**
   * One operand value under its tag: a String, a double, an int, a boolean (true
   * exactly when the lower-cased text is `true`), a long or a float; the number
   * parsers throw NumberFormatException on malformed text.
   */
  function DecodeOperand(host: Host, tag: string, value: string): (r: Result<ParameterWrapper, JavaException>)
    requires tag in PrimitiveTags
    ensures r.Ok? ==> r.value.ptype == TagClass(tag) && r.value.collider == 0
    ensures r.Err? ==> r.error == NumberFormat(value)
    ensures tag == CharacterTag ==> r == Ok(ParameterWrapper(Named(StringClass), JString(value), 0))
  {
    if tag == CharacterTag then Ok(ParameterWrapper(Named(StringClass), JString(value), 0))
    else if tag == NumericTag then
      match host.parseDouble(value)
      case None => Err(NumberFormat(value))
      case Some(d) => Ok(ParameterWrapper(Named("double"), JDouble(d), 0))
    else if tag == IntegerTag then
      match ParseInt(value)
      case None => Err(NumberFormat(value))
      case Some(i) => Ok(ParameterWrapper(Named("int"), JInt(i), 0))
    else if tag == LogicalTag then
      Ok(ParameterWrapper(Named("boolean"), JBool(ToLower(value) == "true"), 0))
    else if tag == LongTag then
      match ParseLong(value)
      case None => Err(NumberFormat(value))
      case Some(l) => Ok(ParameterWrapper(Named("long"), JLong(l), 0))
    else
      match host.parseFloat(value)
      case None => Err(NumberFormat(value))
      case Some(f) => Ok(ParameterWrapper(Named("float"), JFloat(f), 0))
  }

  /** Decodes the values in order; the first malformed one aborts the whole operand. */
  function DecodeAll(host: Host, tag: string, values: seq<string>): (r: Result<seq<ParameterWrapper>, JavaException>)
    requires tag in PrimitiveTags
  {
    if values == [] then Ok([])
    else
      match DecodeOperand(host, tag, values[0])
      case Err(e) => Err(e)
      case Ok(w) =>
        match DecodeAll(host, tag, values[1..])
        case Err(e) => Err(e)
        case Ok(ws) => Ok([w] + ws)
  }

  /** The values of a tagged operand: what follows the tag, split on `/,`. */
  function OperandValues(tag: string, arg: string): seq<string>
    requires StartsWith(arg, tag)
  {
    Split(arg[|tag|..], SubSplitter)
  }

  /** A successful decoding yields one wrapper per value, in order; a failure names a value that does not parse. */
  lemma {:induction false} DecodeAllPointwise(host: Host, tag: string, values: seq<string>)
    requires tag in PrimitiveTags
    ensures var r := DecodeAll(host, tag, values);
      (r.Ok? <==> forall i :: 0 <= i < |values| ==> DecodeOperand(host, tag, values[i]).Ok?) &&
      (r.Ok? ==>
        |r.value| == |values| &&
        forall i :: 0 <= i < |values| ==> r.value[i] == DecodeOperand(host, tag, values[i]).value) &&
      (r.Err? ==> exists i :: 0 <= i < |values| && DecodeOperand(host, tag, values[i]) == Err(r.error))
  {
    if values != [] {
      DecodeAllPointwise(host, tag, values[1..]);
      assert forall i :: 1 <= i < |values| ==> values[i] == values[1..][i - 1];
      var r := DecodeAll(host, tag, values);
      if DecodeOperand(host, tag, values[0]).Ok? && DecodeAll(host, tag, values[1..]).Err? {
        var e := DecodeAll(host, tag, values[1..]).error;
        var i :| 0 <= i < |values[1..]| && DecodeOperand(host, tag, values[1..][i]) == Err(e);
        assert DecodeOperand(host, tag, values[i + 1]) == Err(r.error);
      }
    }
  }

  /** `prefix` in front of the wrappers of a successful decoding; a failure passes through. */
  function Prepend(prefix: seq<ParameterWrapper>, r: Result<seq<ParameterWrapper>, JavaException>): Result<seq<ParameterWrapper>, JavaException> {
    match r
    case Err(e) => Err(e)
    case Ok(ws) => Ok(prefix + ws)
  }

  /** createFromPrimitiveClass: splits the text after the tag on `/,` and decodes each value in a loop. */
  method CreateFromPrimitiveClass(host: Host, tag: string, arg: string) returns (r: Result<seq<ParameterWrapper>, JavaException>)
    requires tag in PrimitiveTags && StartsWith(arg, tag)
    ensures r == DecodeAll(host, tag, OperandValues(tag, arg))
  {
    var values := Split(arg[|tag|..], SubSplitter);
    var wrappers: seq<ParameterWrapper> := [];
    var i := 0;
    assert values[0..] == values;
    match DecodeAll(host, tag, values) {
      case Err(_) =>
      case Ok(ws) => assert [] + ws == ws;
    }
    while i < |values|
      invariant 0 <= i <= |values|
      invariant DecodeAll(host, tag, values) == Prepend(wrappers, DecodeAll(host, tag, values[i..]))
    {
      assert values[i..][1..] == values[i + 1..];
      var w := DecodeOperand(host, tag, values[i]);
      if w.Err? {
        return Err(w.error);
      }
      match DecodeAll(host, tag, values[i + 1..]) {
        case Err(_) =>
        case Ok(ws) => assert wrappers + ([w.value] + ws) == (wrappers + [w.value]) + ws;
      }
      wrappers := wrappers + [w.value];
      i := i + 1;
    }
    assert values[i..] == [];
    assert wrappers + [] == wrappers;
    return Ok(wrappers);
  }


  /**
   * Round trip of an integer vector: the operand `integer` followed by the
   * values joined with `/,` decodes to one int wrapper per value, in order.
   */
  lemma IntegerVectorRoundTrip(host: Host, xs: seq<int>)
    requires xs != [] && forall k :: 0 <= k < |xs| ==> IsInt32(xs[k])
    ensures var arg := IntegerTag + Join(IntTexts(xs), SubSplitter);
      DecodeAll(host, IntegerTag, OperandValues(IntegerTag, arg)) ==
        Ok(seq(|xs|, k requires 0 <= k < |xs| => ParameterWrapper(Named("int"), JInt(xs[k]), 0)))
  {
    var texts := IntTexts(xs);
    var arg := IntegerTag + Join(texts, SubSplitter);
    forall k | 0 <= k < |texts| ensures SubSplitter[0] !in texts[k] {
      IntToStringAlphabet(xs[k]);
    }
    IntToStringAlphabet(xs[|xs| - 1]);
    assert arg[|IntegerTag|..] == Join(texts, SubSplitter);
    SplitJoin(texts, SubSplitter);
    assert OperandValues(IntegerTag, arg) == texts;
    DecodeAllPointwise(host, IntegerTag, texts);
    forall k | 0 <= k < |texts| ensures DecodeOperand(host, IntegerTag, texts[k]) == Ok(ParameterWrapper(Named("int"), JInt(xs[k]), 0)) {
      ParseIntToString(xs[k]);
    }
    var expected := seq(|xs|, k requires 0 <= k < |xs| => ParameterWrapper(Named("int"), JInt(xs[k]), 0));
    var r := DecodeAll(host, IntegerTag, texts);
    assert r.Ok? && |r.value| == |expected|;
    assert forall k :: 0 <= k < |xs| ==> r.value[k] == expected[k];
    assert r.value == expected;
  }
}
