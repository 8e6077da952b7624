/**
 * The object registry REnvironment inherits from ConcurrentHashMap: identity
 * hash code -> (collider -> the registered occurrences, oldest first), and the
 * `hash_collider` references by which a client names a registered object.
 * Everything here is the specification the REnvironment class is proved
 * against: registration as a relation (HashMap leaves the visiting order of a
 * bucket's colliders open), resolution and flushing as functions.
 */
module ObjectRegistry {
  import opened Wrappers
  import opened JavaText
  import opened TypeCatalogue
  import opened Codec

  /** collider -> occurrences, oldest first */
  type Bucket = map<int, seq<JValue>>
  /** identity hash -> bucket */
  type Buckets = map<int, Bucket>

  const NoSuchObject := "This object does not exist: "

  /**
   * The registry invariant: no bucket and no occurrence list is empty,
   * colliders start at 1, nothing registered is null, and every occurrence is
   * filed under its own identity hash.
   */
  predicate Consistent(host: Host, b: Buckets) {
    forall h :: h in b ==> BucketConsistent(host, h, b[h])
  }

  predicate BucketConsistent(host: Host, h: int, bucket: Bucket) {
    bucket != map[] &&
    forall c :: c in bucket ==>
      c >= 1 && bucket[c] != [] &&
      forall k :: 0 <= k < |bucket[c]| ==> bucket[c][k] != JNull && host.identityHash(bucket[c][k]) as int == h
  }

  // ---------------------------------------------------------------------------
  // registerInMap
  // ---------------------------------------------------------------------------

  /** `a` is `o` itself or an object that `equals` it. */
  predicate SameOrEqual(host: Host, a: JValue, o: JValue) {
    a == o || host.equals(a, o)
  }

  /** The colliders whose oldest occurrence `equals` the object. */
  function Hits(host: Host, bucket: Bucket, o: JValue): (r: set<int>)
    ensures r <= bucket.Keys
  {
    set c | c in bucket && bucket[c] != [] && host.equals(bucket[c][0], o)
  }

  /** One more than the largest collider in use, and 1 when none is positive. */
  predicate IsNextCollider(keys: set<int>, r: int) {
    r >= 1 && (forall k :: k in keys ==> k < r) && (r == 1 || r - 1 in keys)
  }

  /**
   * registerInMap: registering `o` in `b` may leave `b'` and return collider `r`.
   * An absent or empty bucket gets collider 1; an object equal to the oldest
   * occurrence under some collider is appended there (which one, if several,
   * depends on HashMap's order); anything else opens the next collider.
   */
  predicate Registers(host: Host, b: Buckets, o: JValue, b': Buckets, r: int) {
    var h := host.identityHash(o) as int;
    if h !in b || b[h] == map[] then
      r == 1 && b' == b[h := map[1 := [o]]]
    else if Hits(host, b[h], o) != {} then
      r in Hits(host, b[h], o) && b' == b[h := b[h][r := b[h][r] + [o]]]
    else
      IsNextCollider(b[h].Keys, r) && b' == b[h := b[h][r := [o]]]
  }

  /** Registration keeps the registry consistent. */
  lemma RegisterKeepsConsistent(host: Host, b: Buckets, o: JValue, b': Buckets, r: int)
    requires Consistent(host, b) && o != JNull && Registers(host, b, o, b', r)
    ensures Consistent(host, b')
  {
    var h := host.identityHash(o) as int;
    forall g | g in b'
      ensures BucketConsistent(host, g, b'[g])
    {
      if g == h {
        assert r in b'[h];
      } else {
        assert b'[g] == b[g];
      }
    }
  }

  /**
   * After registration `o` is the newest occurrence under collider `r`, and the
   * oldest one there is `o` itself or an object `o` equals; a new collider is
   * distinct from every collider the bucket had, and its list holds `o` alone.
   */
  lemma RegisterFilesUnderCollider(host: Host, b: Buckets, o: JValue, b': Buckets, r: int)
    requires Registers(host, b, o, b', r)
    ensures var h := host.identityHash(o) as int;
      h in b' && r in b'[h] && b'[h][r] != [] && b'[h][r][|b'[h][r]| - 1] == o &&
      SameOrEqual(host, b'[h][r][0], o)
    ensures var h := host.identityHash(o) as int;
      (h !in b || r !in b[h]) ==> b'[h][r] == [o]
    ensures var h := host.identityHash(o) as int;
      h in b && r in b[h] ==> b'[h][r] == b[h][r] + [o] && b[h][r] != [] && host.equals(b[h][r][0], o)
    ensures forall g :: g != host.identityHash(o) as int ==> (g in b' <==> g in b) && (g in b ==> b'[g] == b[g])
  {
  }

  /**
   * The only freedom in registration is the visiting order among several
   * colliders whose oldest occurrence equals the object: with at most one such
   * collider, the outcome is determined.
   */
  lemma RegisterIsDeterminedByHits(host: Host, b: Buckets, o: JValue, b1: Buckets, r1: int, b2: Buckets, r2: int)
    requires Registers(host, b, o, b1, r1) && Registers(host, b, o, b2, r2)
    requires var h := host.identityHash(o) as int;
      h in b ==> |Hits(host, b[h], o)| <= 1
    ensures r1 == r2 && b1 == b2
  {
    var h := host.identityHash(o) as int;
    if h in b && b[h] != map[] {
      var hits := Hits(host, b[h], o);
      if hits != {} {
        assert r1 in hits && r2 in hits;
        if r1 != r2 {
          assert {r1, r2} <= hits;
          assert |{r1, r2}| == 2;
          SubsetCardinality({r1, r2}, hits);
          assert false;
        }
      }
    }
  }

  lemma SubsetCardinality(a: set<int>, s: set<int>)
    requires a <= s
    ensures |a| <= |s|
  {
    assert s == a + (s - a);
  }

  // ---------------------------------------------------------------------------
  // References: `hash_collider`
  // ---------------------------------------------------------------------------

  /**
   * The hash and the collider of a reference, parsed the way
   * findObjectInEnvironment and flushTheseObjects parse them: split on `_`,
   * field 0 then field 1, each through Integer.parseInt.
   */
  function ParseReference(s: string): (r: Result<(int, int), JavaException>)
    ensures r.Ok? ==> IsInt32(r.value.0) && IsInt32(r.value.1)
    ensures r.Err? ==> r.error == IndexOutOfBounds || r.error.NumberFormat?
  {
    var parts := Split(s, ColliderSplitter);
    if parts == [] then Err(IndexOutOfBounds)
    else
      match ParseInt(parts[0])
      case None => Err(NumberFormat(parts[0]))
      case Some(h) =>
        if |parts| < 2 then Err(IndexOutOfBounds)
        else
          match ParseInt(parts[1])
          case None => Err(NumberFormat(parts[1]))
          case Some(c) => Ok((h, c))
  }

  /** A printed int has no `_` and no `/`. */
  lemma IntTextHasNoSeparators(n: int)
    ensures IntToString(n) != ""
    ensures '_' !in IntToString(n) && '/' !in IntToString(n)
  {
    IntToStringAlphabet(n);
    var s := IntToString(n);
    forall i | 0 <= i < |s|
      ensures s[i] != '_' && s[i] != '/'
    {
    }
  }

  /** A reference key has no `/`, so it survives the split on `/,` whole. */
  lemma ReferenceKeyHasNoSlash(h: int, c: int)
    ensures ReferenceKey(h, c) != "" && '/' !in ReferenceKey(h, c)
  {
    IntTextHasNoSeparators(h);
    IntTextHasNoSeparators(c);
    var s := ReferenceKey(h, c);
    assert s == IntToString(h) + "_" + IntToString(c);
    forall i | 0 <= i < |s|
      ensures s[i] != '/'
    {
      if i < |IntToString(h)| {
        assert s[i] == IntToString(h)[i];
      } else if i > |IntToString(h)| {
        assert s[i] == IntToString(c)[i - |IntToString(h)| - 1];
      }
    }
  }

  /** Parsing the key the codec prints for a hash and a collider gives them back. */
  lemma ParseReferenceKey(h: int, c: int)
    requires IsInt32(h) && IsInt32(c)
    ensures ParseReference(ReferenceKey(h, c)) == Ok((h, c))
  {
    var parts := [IntToString(h), IntToString(c)];
    IntTextHasNoSeparators(h);
    IntTextHasNoSeparators(c);
    assert Join(parts, ColliderSplitter) == ReferenceKey(h, c) by {
      assert parts[1..] == [IntToString(c)];
    }
    SplitJoin(parts, ColliderSplitter);
    ParseIntToString(h);
    ParseIntToString(c);
  }

  // ---------------------------------------------------------------------------
  // findObjectInEnvironment
  // ---------------------------------------------------------------------------

  /** The wrapper for a registered object: a null marker stands for a null of its declared class. */
  function FrontWrapper(v: JValue): (r: ParameterWrapper)
    requires v != JNull
    ensures r.collider == 0
    ensures v.JRef? && v.obj.NullMarker? ==> r.value == JNull && r.ptype == v.obj.declared
    ensures !(v.JRef? && v.obj.NullMarker?) ==> r.value == v && r.ptype == RuntimeClass(v)
  {
    if v.JRef? && v.obj.NullMarker? then ParameterWrapper(v.obj.declared, JNull, 0)
    else ParameterWrapper(RuntimeClass(v), v, 0)
  }

  /**
   * One reference: an unknown hash is "This object does not exist" with the
   * whole request argument, an unknown collider the NullPointerException of
   * `innerMap.get(collider).get(0)`; otherwise the oldest occurrence.
   */
  function ResolveOne(b: Buckets, whole: string, ref: string): Result<ParameterWrapper, JavaException> {
    match ParseReference(ref)
    case Err(e) => Err(e)
    case Ok((h, c)) =>
      if h !in b then Err(InvalidParameter(NoSuchObject + whole))
      else if c !in b[h] then Err(NullPointer)
      else if b[h][c] == [] then Err(IndexOutOfBounds)
      else if b[h][c][0] == JNull then Err(NullPointer)
      else Ok(FrontWrapper(b[h][c][0]))
  }

  /** The references in request order; the first failure is thrown. */
  function ResolveAll(b: Buckets, whole: string, refs: seq<string>): (r: Result<seq<ParameterWrapper>, JavaException>)
    ensures r.Ok? ==> |r.value| == |refs|
  {
    if refs == [] then Ok([])
    else
      match ResolveOne(b, whole, refs[0])
      case Err(e) => Err(e)
      case Ok(w) => Prepend([w], ResolveAll(b, whole, refs[1..]))
  }

  /** The references named after the `java.objecthashcode` prefix, split on `/,`. */
  function ReferencesOf(s: string): seq<string>
    requires StartsWith(s, ObjectHashcodePrefix)
  {
    Split(s[|ObjectHashcodePrefix|..], SubSplitter)
  }

  /** findObjectInEnvironment: no prefix gives no wrappers, otherwise one wrapper per reference. */
  function Resolve(b: Buckets, s: string): (r: Result<seq<ParameterWrapper>, JavaException>)
    ensures !StartsWith(s, ObjectHashcodePrefix) ==> r == Ok([])
  {
    if StartsWith(s, ObjectHashcodePrefix) then ResolveAll(b, s, ReferencesOf(s)) else Ok([])
  }

  /** When every reference resolves, the result lists them in order. */
  lemma {:induction false} ResolveAllPointwise(b: Buckets, whole: string, refs: seq<string>)
    requires forall k :: 0 <= k < |refs| ==> ResolveOne(b, whole, refs[k]).Ok?
    ensures ResolveAll(b, whole, refs).Ok?
    ensures forall k :: 0 <= k < |refs| ==> ResolveAll(b, whole, refs).value[k] == ResolveOne(b, whole, refs[k]).value
    decreases |refs|
  {
    if refs != [] {
      assert ResolveOne(b, whole, refs[0]).Ok?;
      ResolveAllPointwise(b, whole, refs[1..]);
    }
  }

  /** The first failing reference decides the exception. */
  lemma {:induction false} ResolveAllFails(b: Buckets, whole: string, refs: seq<string>, j: nat)
    requires j < |refs| && ResolveOne(b, whole, refs[j]).Err?
    requires forall k :: 0 <= k < j ==> ResolveOne(b, whole, refs[k]).Ok?
    ensures ResolveAll(b, whole, refs) == Err(ResolveOne(b, whole, refs[j]).error)
    decreases j
  {
    if j > 0 {
      assert ResolveOne(b, whole, refs[0]).Ok?;
      ResolveAllFails(b, whole, refs[1..], j - 1);
    }
  }

  /** The key of a registered, non-null occurrence resolves to its oldest occurrence. */
  lemma ResolveKey(b: Buckets, whole: string, h: int, c: int)
    requires IsInt32(h) && IsInt32(c)
    requires h in b && c in b[h] && b[h][c] != [] && b[h][c][0] != JNull
    ensures ResolveOne(b, whole, ReferenceKey(h, c)) == Ok(FrontWrapper(b[h][c][0]))
  {
    ParseReferenceKey(h, c);
  }

  /** `k1/,k2/,...`: the reference keys of several objects, as a client sends them. */
  function KeysText(keys: seq<(int, int)>): string {
    Join(seq(|keys|, k requires 0 <= k < |keys| => ReferenceKey(keys[k].0, keys[k].1)), SubSplitter)
  }

  /**
   * The reference round trip for several objects: `java.objecthashcode`
   * followed by their keys joined with `/,` resolves to one wrapper per key, in
   * request order, each for the oldest occurrence under that key.
   */
  lemma ResolveKeys(b: Buckets, keys: seq<(int, int)>)
    requires keys != []
    requires forall k :: 0 <= k < |keys| ==> IsInt32(keys[k].0) && IsInt32(keys[k].1)
    requires forall k :: 0 <= k < |keys| ==>
      keys[k].0 in b && keys[k].1 in b[keys[k].0] && b[keys[k].0][keys[k].1] != [] && b[keys[k].0][keys[k].1][0] != JNull
    ensures var r := Resolve(b, ObjectHashcodePrefix + KeysText(keys));
      r.Ok? && |r.value| == |keys| &&
      forall k :: 0 <= k < |keys| ==> r.value[k] == FrontWrapper(b[keys[k].0][keys[k].1][0])
  {
    var s := ObjectHashcodePrefix + KeysText(keys);
    var texts := seq(|keys|, k requires 0 <= k < |keys| => ReferenceKey(keys[k].0, keys[k].1));
    forall k | 0 <= k < |texts|
      ensures SubSplitter[0] !in texts[k]
    {
      ReferenceKeyHasNoSlash(keys[k].0, keys[k].1);
    }
    ReferenceKeyHasNoSlash(keys[|keys| - 1].0, keys[|keys| - 1].1);
    SplitJoin(texts, SubSplitter);
    assert StartsWith(s, ObjectHashcodePrefix);
    assert s[|ObjectHashcodePrefix|..] == KeysText(keys);
    assert ReferencesOf(s) == texts;
    forall k | 0 <= k < |texts|
      ensures ResolveOne(b, s, texts[k]) == Ok(FrontWrapper(b[keys[k].0][keys[k].1][0]))
    {
      ResolveKey(b, s, keys[k].0, keys[k].1);
    }
    ResolveAllPointwise(b, s, texts);
  }

  /** The oldest occurrence under collider `c` of bucket `h` is `o` or an object `o` equals. */
  predicate Holds(host: Host, b: Buckets, h: int, c: int, o: JValue) {
    h in b && c in b[h] && b[h][c] != [] && SameOrEqual(host, b[h][c][0], o)
  }

  /**
   * The round trip of a held object: the key after the `@` of the text the
   * codec prints for it, behind `java.objecthashcode`, resolves to the oldest
   * occurrence under its collider.
   */
  lemma HeldKeyResolves(host: Host, b: Buckets, o: JValue, c: int)
    requires Consistent(host, b) && o != JNull && WellTyped(o) && !IsWrapperType(RuntimeClass(o))
    requires '@' !in JavaName(RuntimeClass(o)) && IsInt32(c)
    requires Holds(host, b, host.identityHash(o) as int, c, o)
    ensures var h := host.identityHash(o) as int;
      var res := Resolve(b, ObjectHashcodePrefix + AfterAt(Text(host, ParameterWrapper(RuntimeClass(o), o, c))));
      res.Ok? && |res.value| == 1 && res.value[0] == FrontWrapper(b[h][c][0])
  {
    var w := ParameterWrapper(RuntimeClass(o), o, c);
    var h := host.identityHash(o) as int;
    ReferenceKeyAfterAt(host, w);
    assert AfterAt(Text(host, w)) == ReferenceKey(h, c);
    assert KeysText([(h, c)]) == ReferenceKey(h, c);
    assert b[h][c][0] != JNull;
    ResolveKeys(b, [(h, c)]);
  }

  /**
   * The round trip of one registered result: the key after the `@` of the text
   * the codec prints for the result, behind `java.objecthashcode`, resolves to
   * the oldest occurrence under its collider, which is the object itself or one
   * it equals.
   */
  lemma RegisteredResultResolves(host: Host, b: Buckets, o: JValue, b': Buckets, r: int)
    requires Consistent(host, b) && o != JNull && WellTyped(o) && !IsWrapperType(RuntimeClass(o))
    requires '@' !in JavaName(RuntimeClass(o)) && IsInt32(r)
    requires Registers(host, b, o, b', r)
    ensures var w := ParameterWrapper(RuntimeClass(o), o, r);
      var res := Resolve(b', ObjectHashcodePrefix + AfterAt(Text(host, w)));
      var h := host.identityHash(o) as int;
      h in b' && r in b'[h] && b'[h][r] != [] && b'[h][r][0] != JNull &&
      res.Ok? && |res.value| == 1 && res.value[0] == FrontWrapper(b'[h][r][0]) &&
      SameOrEqual(host, b'[h][r][0], o)
  {
    RegisterFilesUnderCollider(host, b, o, b', r);
    RegisterKeepsConsistent(host, b, o, b', r);
    HeldKeyResolves(host, b', o, r);
  }

  /** Registration never loses an occurrence: whatever a key held before, it still holds. */
  lemma RegisterKeepsHolds(host: Host, b: Buckets, v: JValue, b': Buckets, r: int, h: int, c: int, o: JValue)
    requires Registers(host, b, v, b', r) && Holds(host, b, h, c, o)
    ensures Holds(host, b', h, c, o)
  {
  }

  // ---------------------------------------------------------------------------
  // registerMethodOutput and registerNewInstance
  // ---------------------------------------------------------------------------

  /**
   * Recording one non-null result `v` as wrapper `w`, from `b` to `b'`: the
   * wrapper carries the value and its class; a boxed primitive or a String is
   * not registered (collider 0) unless `always` (registerNewInstance);
   * anything else is registered and the wrapper carries its collider.
   */
  predicate RecordStep(host: Host, b: Buckets, v: JValue, b': Buckets, w: ParameterWrapper, always: bool) {
    v != JNull && w.ptype == RuntimeClass(v) && w.value == v &&
    if !always && IsWrapperType(RuntimeClass(v)) then b' == b && w.collider == 0
    else Registers(host, b, v, b', w.collider)
  }

  /** Whether recording `v` registers it. */
  predicate IsRegistered(v: JValue, always: bool) {
    always || (v != JNull && !IsWrapperType(RuntimeClass(v)))
  }

  /** Recording `vs` in order: `trail[k]` is the registry before result `k` and `ws[k]` its wrapper. */
  predicate RecordsAlong(host: Host, trail: seq<Buckets>, vs: seq<JValue>, ws: seq<ParameterWrapper>, always: bool) {
    |trail| == |vs| + 1 && |ws| == |vs| &&
    forall k :: 0 <= k < |vs| ==> RecordStep(host, trail[k], vs[k], trail[k + 1], ws[k], always)
  }

  /** Recording one more result extends the trail by the registry after it. */
  lemma RecordsAlongStep(host: Host, trail: seq<Buckets>, vs: seq<JValue>, ws: seq<ParameterWrapper>, always: bool,
                         v: JValue, b': Buckets, w: ParameterWrapper)
    requires RecordsAlong(host, trail, vs, ws, always)
    requires RecordStep(host, trail[|vs|], v, b', w, always)
    ensures RecordsAlong(host, trail + [b'], vs + [v], ws + [w], always)
  {
    var trail', vs', ws' := trail + [b'], vs + [v], ws + [w];
    forall k | 0 <= k < |vs'|
      ensures RecordStep(host, trail'[k], vs'[k], trail'[k + 1], ws'[k], always)
    {
      if k < |vs| {
        assert trail'[k] == trail[k] && trail'[k + 1] == trail[k + 1] && vs'[k] == vs[k] && ws'[k] == ws[k];
      }
    }
  }

  /** Recording non-null results keeps the registry consistent at every step of the trail. */
  lemma {:induction false} RecordsKeepConsistent(host: Host, trail: seq<Buckets>, vs: seq<JValue>, ws: seq<ParameterWrapper>, always: bool, n: nat)
    requires RecordsAlong(host, trail, vs, ws, always) && n <= |vs| && Consistent(host, trail[0])
    requires forall k :: 0 <= k < |vs| ==> vs[k] != JNull
    ensures Consistent(host, trail[n])
    decreases n
  {
    if n > 0 {
      RecordsKeepConsistent(host, trail, vs, ws, always, n - 1);
      assert RecordStep(host, trail[n - 1], vs[n - 1], trail[n], ws[n - 1], always);
      if IsRegistered(vs[n - 1], always) {
        RegisterKeepsConsistent(host, trail[n - 1], vs[n - 1], trail[n], ws[n - 1].collider);
      }
    }
  }

  /** A key that holds an object at step `i` of the trail still holds it at every later step. */
  lemma {:induction false} HoldsAlong(host: Host, trail: seq<Buckets>, vs: seq<JValue>, ws: seq<ParameterWrapper>, always: bool,
                                      i: nat, n: nat, h: int, c: int, o: JValue)
    requires RecordsAlong(host, trail, vs, ws, always) && i <= n <= |vs| && Holds(host, trail[i], h, c, o)
    ensures Holds(host, trail[n], h, c, o)
    decreases n - i
  {
    if i < n {
      assert RecordStep(host, trail[i], vs[i], trail[i + 1], ws[i], always);
      if IsRegistered(vs[i], always) {
        RegisterKeepsHolds(host, trail[i], vs[i], trail[i + 1], ws[i].collider, h, c, o);
      }
      HoldsAlong(host, trail, vs, ws, always, i + 1, n, h, c, o);
    }
  }

  /**
   * After a handler has recorded its results, every registered result is held
   * under its wrapper's collider in the final registry: its key resolves to it
   * or to an object it equals, however many results were recorded after it.
   */
  lemma RecordedResultsHeld(host: Host, trail: seq<Buckets>, vs: seq<JValue>, ws: seq<ParameterWrapper>, always: bool)
    requires RecordsAlong(host, trail, vs, ws, always)
    ensures forall k :: 0 <= k < |vs| && IsRegistered(vs[k], always) ==>
      Holds(host, trail[|vs|], host.identityHash(vs[k]) as int, ws[k].collider, vs[k])
  {
    forall k | 0 <= k < |vs| && IsRegistered(vs[k], always)
      ensures Holds(host, trail[|vs|], host.identityHash(vs[k]) as int, ws[k].collider, vs[k])
    {
      assert RecordStep(host, trail[k], vs[k], trail[k + 1], ws[k], always);
      RegisterFilesUnderCollider(host, trail[k], vs[k], trail[k + 1], ws[k].collider);
      HoldsAlong(host, trail, vs, ws, always, k + 1, |vs|, host.identityHash(vs[k]) as int, ws[k].collider, vs[k]);
    }
  }

  // ---------------------------------------------------------------------------
  // flushTheseObjects
  // ---------------------------------------------------------------------------

  /**
   * Forgetting one occurrence: an unknown hash is ignored, an unknown collider
   * is the NullPointerException of `innerMap.get(collider).remove(0)`;
   * otherwise the oldest occurrence goes, an emptied list is removed and so is
   * an emptied bucket.
   */
  function FlushKey(b: Buckets, h: int, c: int): Result<Buckets, JavaException> {
    if h !in b then Ok(b)
    else if c !in b[h] then Err(NullPointer)
    else if b[h][c] == [] then Err(IndexOutOfBounds)
    else
      var rest := b[h][c][1..];
      if rest != [] then Ok(b[h := b[h][c := rest]])
      else
        var inner := b[h] - {c};
        if inner == map[] then Ok(b - {h}) else Ok(b[h := inner])
  }

  function FlushOne(b: Buckets, ref: string): Result<Buckets, JavaException> {
    match ParseReference(ref)
    case Err(e) => Err(e)
    case Ok((h, c)) => FlushKey(b, h, c)
  }

  /**
   * The references in order; the map is changed in place, so a failure keeps
   * what the earlier references removed and reports the exception.
   */
  function FlushAll(b: Buckets, refs: seq<string>): (Buckets, Option<JavaException>) {
    if refs == [] then (b, None)
    else
      match FlushOne(b, refs[0])
      case Err(e) => (b, Some(e))
      case Ok(b1) => FlushAll(b1, refs[1..])
  }

  /** flushTheseObjects on its argument: without the prefix nothing happens. */
  function Flush(b: Buckets, s: string): (Buckets, Option<JavaException>) {
    if StartsWith(s, ObjectHashcodePrefix) then FlushAll(b, ReferencesOf(s)) else (b, None)
  }

  /**
   * Flushing a registered key removes exactly its oldest occurrence: the rest
   * of the list stays in order, the collider disappears with its last
   * occurrence, the bucket with its last collider, and nothing else changes.
   * In a consistent registry flushing a known hash fails only on an unknown
   * collider.
   */
  lemma FlushRemovesOldest(host: Host, b: Buckets, h: int, c: int)
    requires Consistent(host, b) && h in b
    ensures FlushKey(b, h, c).Err? <==> c !in b[h]
    ensures FlushKey(b, h, c).Err? ==> FlushKey(b, h, c).error == NullPointer
    ensures c in b[h] ==>
      var b' := FlushKey(b, h, c).value;
      (h in b' <==> |b[h][c]| > 1 || |b[h]| > 1) &&
      (h in b' ==> (c in b'[h] <==> |b[h][c]| > 1)) &&
      (h in b' && c in b'[h] ==> b'[h][c] == b[h][c][1..]) &&
      (h in b' ==> forall d :: d != c ==> (d in b'[h] <==> d in b[h]) && (d in b[h] ==> b'[h][d] == b[h][d])) &&
      (forall g :: g != h ==> (g in b' <==> g in b) && (g in b ==> b'[g] == b[g]))
  {
    if c in b[h] && |b[h][c]| == 1 && |b[h]| == 1 {
      assert b[h].Keys == {c} by {
        assert c in b[h].Keys;
        if exists d :: d in b[h] && d != c {
          var d :| d in b[h] && d != c;
          assert {c, d} <= b[h].Keys;
          assert |{c, d}| == 2;
          SubsetCardinality({c, d}, b[h].Keys);
        }
      }
      assert b[h] - {c} == map[];
    } else if c in b[h] && |b[h][c]| == 1 {
      assert (b[h] - {c}).Keys == b[h].Keys - {c};
      assert |b[h].Keys - {c}| == |b[h].Keys| - 1;
      assert b[h] - {c} != map[];
    }
  }

  /** Flushing keeps the registry consistent; so `size()` only ever counts non-empty buckets. */
  lemma FlushKeyKeepsConsistent(host: Host, b: Buckets, h: int, c: int)
    requires Consistent(host, b) && FlushKey(b, h, c).Ok?
    ensures Consistent(host, FlushKey(b, h, c).value)
  {
    if h in b {
      FlushRemovesOldest(host, b, h, c);
      var b' := FlushKey(b, h, c).value;
      forall g | g in b'
        ensures BucketConsistent(host, g, b'[g])
      {
        if g == h {
          var rest := b[h][c][1..];
          forall d | d in b'[h]
            ensures d >= 1 && b'[h][d] != [] &&
              forall k :: 0 <= k < |b'[h][d]| ==> b'[h][d][k] != JNull && host.identityHash(b'[h][d][k]) as int == h
          {
            if d == c {
              forall k | 0 <= k < |rest|
                ensures rest[k] == b[h][c][k + 1]
              {
              }
            }
          }
        }
      }
    }
  }

  lemma {:induction false} FlushAllKeepsConsistent(host: Host, b: Buckets, refs: seq<string>)
    requires Consistent(host, b)
    ensures Consistent(host, FlushAll(b, refs).0)
    decreases |refs|
  {
    if refs != [] {
      match ParseReference(refs[0]) {
        case Err(_) =>
        case Ok((h, c)) =>
          if FlushKey(b, h, c).Ok? {
            FlushKeyKeepsConsistent(host, b, h, c);
            FlushAllKeepsConsistent(host, FlushKey(b, h, c).value, refs[1..]);
          }
      }
    }
  }

  /** Flushing the key of a fresh registration (a new bucket or a new collider) restores the registry. */
  lemma FlushUndoesFreshRegistration(host: Host, b: Buckets, o: JValue, b': Buckets, r: int)
    requires Consistent(host, b) && Registers(host, b, o, b', r)
    requires var h := host.identityHash(o) as int; h !in b || r !in b[h]
    ensures FlushKey(b', host.identityHash(o) as int, r) == Ok(b)
  {
    var h := host.identityHash(o) as int;
    RegisterFilesUnderCollider(host, b, o, b', r);
    if h in b {
      assert b'[h] - {r} == b[h];
      assert b[h] != map[];
      assert b'[h := b[h]] == b;
    } else {
      assert b'[h] - {r} == map[];
      assert b' - {h} == b;
    }
  }

  /**
   * Flushing the key of a repeated registration removes the oldest equal
   * occurrence, not the one just added: the list rotates.
   */
  lemma FlushAfterRepeatRotates(host: Host, b: Buckets, o: JValue, b': Buckets, r: int)
    requires Consistent(host, b) && Registers(host, b, o, b', r)
    requires var h := host.identityHash(o) as int; h in b && r in b[h]
    ensures var h := host.identityHash(o) as int;
      FlushKey(b', h, r) == Ok(b[h := b[h][r := b[h][r][1..] + [o]]])
  {
    var h := host.identityHash(o) as int;
    RegisterFilesUnderCollider(host, b, o, b', r);
    var rest := b[h][r][1..] + [o];
    assert (b[h][r] + [o])[1..] == rest;
    assert b'[h][r := rest] == b[h][r := rest];
    assert b'[h := b[h][r := rest]] == b[h := b[h][r := rest]];
  }

  /** The buckets holding at least one occurrence. */
  function LiveHashes(b: Buckets): set<int> {
    set h | h in b && exists c :: c in b[h] && b[h][c] != []
  }

  /** getInternalMapSize reports `size()`: in a consistent registry, the number of buckets with a live occurrence. */
  lemma SizeCountsLiveBuckets(host: Host, b: Buckets)
    requires Consistent(host, b)
    ensures |b| == |LiveHashes(b)|
  {
    forall h | h in b
      ensures h in LiveHashes(b)
    {
      var bucket := b[h];
      assert bucket != map[];
      assert exists c :: c in bucket by {
        if forall c :: c !in bucket {
          assert false;
        }
      }
      var c :| c in bucket;
      assert b[h][c] != [];
    }
    assert LiveHashes(b) == b.Keys;
  }
}
