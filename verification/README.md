# J4R server core in Dafny

J4R lets an R session drive a Java virtual machine over a socket. On the Java
side a gateway server accepts clients. For every client address it keeps an
`REnvironment`, which does two jobs:

- It interprets the textual requests the client sends: construct objects,
  call methods, read or write fields, describe a class, flush references and
  report the registry size.
- It keeps the created objects in a registry. The registry is keyed by
  identity hash and then by collider, so the client can refer to an object
  later as `hash_collider`.

This project models that core and proves properties of it:

- **The registry.** Registration, lookup and flushing of references.
- **The wire codec.** The request and sub-value separators, the printed form
  of results, and the tagged primitive operands.
- **Overload scoring.** The nearest-match scoring of methods and constructors,
  by superclass distance, with a half step for an interface or for a
  primitive/wrapper pair.
- **The broadcast rule.** How vectors of arguments and targets are spread
  over calls.
- **The servers.** The per-request decision and close bookkeeping of the three
  servers:
  - the `JavaGatewayServer` of the main source tree;
  - the `JavaGatewayServer` of the trunk snapshot;
  - the trunk snapshot's `JavaLocalGatewayServer` and its back-door thread.
- **Smaller pieces:**
  - configuration validation in both snapshots;
  - the `J4RSystem` helpers;
  - the argument handling of `Startup`;
  - the state machine of `AbstractGenericTask`.

Reflection is replaced by a type catalogue and a host of oracles (`TypeCatalogue`):

- a catalogue of classes with superclasses, interfaces, methods, fields and
  constructors;
- the primitive/wrapper table;
- `identityHashCode`, `equals`, `invoke`, `Field.get`/`set` and `newInstance`
  as uninterpreted functions.

Scores are integer half-steps: the source's `n` is `2n`, and `n + 0.5` is
`2n + 1`.

Modules:

- **Foundations.**
  - `Wrappers`: Option and Result.
  - `JavaText`: `split`, `trim`, `parseInt`, and other Java string operations.
  - `TypeCatalogue`: the reflection model.
- **REnvironment logic.**
  - `Codec`: the wire format.
  - `Scoring`: overload scoring.
  - `Broadcast`: the broadcast rule.
  - `ObjectRegistry`: the registry specification.
  - `Requests`: the request specifications.
  - `Environment`: the `REnvironment` class. Its methods are proved against
    the specifications above.
- **Servers.**
  - `GatewayProtocol`: the request/reply loop shared by the servers.
  - `GatewayServer`, `TrunkGatewayServer`, `LocalGatewayServer`: the three
    servers.
  - `ControlChannel`: the back-door thread.
  - `Discovery`: the discovery file.
- **Configuration, startup and tasks.**
  - `ServerConfig` and `TrunkServerConfig`: the two configurations.
  - `J4RSystem`: the system helpers.
  - `Startup`: argument handling.
  - `GenericTask`: a task state machine.

## Model

| member | source | states |
|---|---|---|
| JavaText.Split | src/j4r/lang/codetranslator/REnvironment.java:229 | `String.split` with limit 0: the empty text gives one empty field, and a non-empty text never yields a trailing empty field |
| JavaText.SplitWithoutDelimiter | src/j4r/lang/codetranslator/REnvironment.java:229 | a text in which the delimiter never occurs splits into the text itself |
| JavaText.SplitJoin | src/j4r/lang/codetranslator/REnvironment.java:229 | splitting a join of parts gives the parts back when no part holds the delimiter's first character and the last part is not empty |
| JavaText.Trim | src/j4r/net/server/JavaGatewayServer.java:168 | `trim` gives a text no longer than its input that is empty or starts and ends above U+0020 |
| JavaText.TrimKeepsSlice | src/j4r/net/server/JavaGatewayServer.java:168 | `trim` keeps a contiguous slice of the text and drops only characters at or below U+0020 on either side |
| JavaText.ToLower | src/j4r/app/Startup.java:157 | ASCII case folding, which is all `toLowerCase` needs at its uses: the length is kept, no ASCII capital is left, every other character is kept and each ASCII capital moves 32 code points up to its small letter |
| JavaText.IndexOf | src/j4r/lang/J4RSystem.java:53-54 | `indexOf`: the first position holding the character, or -1 when it does not occur |
| JavaText.ParseInt | src/j4r/lang/codetranslator/REnvironment.java:295-296 | `Integer.parseInt` over ASCII digits: succeeds only on an optional sign followed by digits and only with a 32-bit value; a plain digit string within the range gives its value |
| JavaText.ParseLong | src/j4r/lang/codetranslator/REnvironment.java:880 | `Long.parseLong` over ASCII digits: the same, with a 64-bit value |
| JavaText.ParseIntToString | src/j4r/lang/codetranslator/REnvironment.java:181 | a printed 32-bit int parses back to itself |
| JavaText.ParseLongToString | src/j4r/lang/codetranslator/REnvironment.java:880 | a printed 64-bit long parses back to itself |
| JavaText.SplitJoinInts | src/j4r/app/Startup.java:57-64 | printed ints joined with a delimiter that no printed int contains split back into the printed ints |
| JavaText.IntTexts | src/j4r/net/server/JavaGatewayServer.java:262-268 | the decimal texts of a list of ints, one per int, in order |
| TypeCatalogue.RuntimeClass | src/j4r/lang/codetranslator/REnvironment.java:579 | `getClass` of a well-typed value is in the wrapper table exactly when the value is boxed |
| TypeCatalogue.ForName | src/j4r/lang/codetranslator/REnvironment.java:763 | `Class.forName` succeeds exactly for the catalogued names, and the class found has the requested name |
| Codec.Collapse | src/j4r/lang/codetranslator/REnvironment.java:516-522 | no output gives null, one output gives the wrapper itself, several give the whole list |
| Codec.ReferenceClassName | src/j4r/lang/codetranslator/REnvironment.java:188-194 | the class name shown in a reference is a prefix of `getName` |
| Codec.ReferenceKeyAfterAt | src/j4r/lang/codetranslator/REnvironment.java:194 | the text of a registered object carries exactly its `hash_collider` after the `@` |
| Codec.IntResultText | src/j4r/lang/codetranslator/REnvironment.java:181 | an int result prints as `in` followed by a decimal text that `Integer.parseInt` reads back |
| Codec.BoolResultText | src/j4r/lang/codetranslator/REnvironment.java:183 | a boolean result prints as `lotrue` or `lofalse`, and decoding the tail as `logical` gives it back |
| Codec.TagsArePrefixFree | src/j4r/lang/codetranslator/REnvironment.java:70-78 | no operand tag is a prefix of another, so the HashMap order in which tags are tried cannot matter |
| Codec.GetPrimitiveClass | src/j4r/lang/codetranslator/REnvironment.java:856-863 | the tag the operand starts with, or none when no tag starts it |
| Codec.DecodeOperand | src/j4r/lang/codetranslator/REnvironment.java:869-883 | a decoded value has its tag's class and collider 0; the only failure is a NumberFormatException on the value; a character value is decoded as a String |
| Codec.DecodeAllPointwise | src/j4r/lang/codetranslator/REnvironment.java:866-886 | a successful decoding yields one wrapper per `/,` value, in order; a failure names a value that does not parse |
| Codec.CreateFromPrimitiveClass | src/j4r/lang/codetranslator/REnvironment.java:866-886 | the loop yields the pointwise decoding of the values after the tag, or the first failure |
| Codec.IntegerVectorRoundTrip | test/j4r/lang/codetranslator/TranslationTest.java:99-108 | `integer` followed by printed ints joined with `/,` decodes to one int wrapper per value, in order |
| Scoring.Walk | src/j4r/lang/codetranslator/REnvironment.java:697-717 | the superclass walk throws nothing but a NullPointerException (its stops are stated by WalkAtFirstStop) |
| Scoring.IsAssignable | src/j4r/lang/codetranslator/REnvironment.java:697-717 | `isAssignableOfThisClass` throws nothing but a NullPointerException |
| Scoring.WalkAtFirstStop | src/j4r/lang/codetranslator/REnvironment.java:697-717 | the score is decided by the first class up the chain at which the walk stops |
| Scoring.WalkErrorMeansBrokenChain | src/j4r/lang/codetranslator/REnvironment.java:697-717 | the walk throws only when the superclass chain breaks before any stop |
| Scoring.SameClassScoresZero | src/j4r/lang/codetranslator/REnvironment.java:697-704 | a class scores 0 against itself |
| Scoring.PrimitiveWrapperScoresHalf | src/j4r/lang/codetranslator/REnvironment.java:666-676 | a primitive and its wrapper score a half step in both directions, not 0 |
| Scoring.PositionScore | src/j4r/lang/codetranslator/REnvironment.java:643-653 | an array parameter against a non-array argument does not match; the only exception is a NullPointerException |
| Scoring.SumFrom | src/j4r/lang/codetranslator/REnvironment.java:643-663 | the accumulating loop: an exception is one of the positional scores from the start position on, and a matching total is at least the running sum |
| Scoring.ParameterTypesScore | src/j4r/lang/codetranslator/REnvironment.java:636-664 | two nulls score 0; one null or unequal lengths score -1; otherwise the positional sum |
| Scoring.SumFromAllMatch | src/j4r/lang/codetranslator/REnvironment.java:643-663 | when every position matches, the score is the sum of the positional half-steps |
| Scoring.SumFromRejects | src/j4r/lang/codetranslator/REnvironment.java:655-657 | a position that does not match, after matching ones, rejects the whole list |
| Scoring.ParameterListScore | src/j4r/lang/codetranslator/REnvironment.java:636-664 | lists of equal length score the positional sum when all positions match, and -1 from the first that does not |
| Scoring.SubclassArrayScoresOneStep | test/j4r/lang/codetranslator/FindNearestMethodTest.java:29-37 | an array of the subclass passed for an array of the superclass scores one step (1.0) |
| Scoring.SuperclassDoesNotMatchSubclass | src/j4r/lang/codetranslator/REnvironment.java:697-717 | passing the superclass where the subclass is declared does not match |
| Scoring.Scores | src/j4r/lang/codetranslator/REnvironment.java:561-571 | one score per candidate |
| Scoring.Ranks | src/j4r/lang/codetranslator/REnvironment.java:561-571 | one rank per candidate |
| Scoring.SortedHeadFrom | src/j4r/lang/codetranslator/REnvironment.java:93-101 | the scan keeps the first of the lowest ranks seen |
| Scoring.SortedHead | src/j4r/lang/codetranslator/REnvironment.java:572-574 | a stable sort then `get(0)`: the index of the first lowest rank, and none without matches |
| Scoring.FirstError | src/j4r/lang/codetranslator/REnvironment.java:561-571 | the exception of the first score that throws |
| Scoring.NearestChoice | src/j4r/lang/codetranslator/REnvironment.java:557-575 | the chosen candidate is same-named (or a constructor), matches, and no candidate scores lower; ties go to catalogue order; NoSuchMethodException exactly when nothing matches |
| Scoring.ScanCandidates | src/j4r/lang/codetranslator/REnvironment.java:561-571 | the scoring loop yields the ranks of all candidates or the first exception |
| Scoring.FindNearest | src/j4r/lang/codetranslator/REnvironment.java:731-747 | `findNearestMethod` and `findNearestConstructor` return the head of the stably sorted matches, or the exception |
| Broadcast.MaxLength | src/j4r/lang/codetranslator/REnvironment.java:121-129 | the greatest vector length, or 0 without vectors |
| Broadcast.GetInnerSize | src/j4r/lang/codetranslator/REnvironment.java:121-129 | the loop returns the maximum vector length |
| Broadcast.MaxLengthIsLeast | src/j4r/lang/codetranslator/REnvironment.java:121-129 | any bound that some vector reaches (or 0) and no vector exceeds is the inner size |
| Broadcast.ArgumentsAt | src/j4r/lang/codetranslator/REnvironment.java:136-143 | the argument array of call `i`: a length-1 vector gives its sole element, a longer one element `i`, and a vector that is too short gives IndexOutOfBounds |
| Broadcast.ParameterArrayAsWritten | src/j4r/lang/codetranslator/REnvironment.java:131-145 | `getParameterArray` as written: an index above the inner size is refused, and the index equal to it is let through |
| Broadcast.ParameterArray | src/j4r/lang/codetranslator/REnvironment.java:131-145 | `getParameterArray` with the intended guard: every index from the inner size on is refused |
| Broadcast.FillArguments | src/j4r/lang/codetranslator/REnvironment.java:136-143 | the filling loop yields ArgumentsAt |
| Broadcast.GuardLetsInnerSizeThrough | src/j4r/lang/codetranslator/REnvironment.java:133 | with one vector of two elements, index 2 passes the written guard and fails on the vector instead |
| Broadcast.BroadcastNeverReachesGuard | src/j4r/lang/codetranslator/REnvironment.java:133 | every call of a broadcast asks for an argument index below the inner size, where the written and the intended guard both give the argument array of that index |
| Broadcast.ConsistentVectorsServeEveryCall | src/j4r/lang/codetranslator/REnvironment.java:131-145 | when every vector has length one or the inner size, every index below the inner size yields arguments: position j is the sole element or element i |
| Broadcast.ShortVectorFails | src/j4r/lang/codetranslator/REnvironment.java:136-143 | a vector of another length above one makes the calls past its end fail |
| Broadcast.CallsCoverBothSides | src/j4r/lang/codetranslator/REnvironment.java:498-513 | for compatible counts the broadcast makes max(#targets, innerSize) calls, every target and argument index is in range, and every target is called and every argument index used |
| ObjectRegistry.RegisterKeepsConsistent | src/j4r/lang/codetranslator/REnvironment.java:594-625 | registration keeps every bucket and every list non-empty and every collider positive |
| ObjectRegistry.RegisterFilesUnderCollider | src/j4r/lang/codetranslator/REnvironment.java:594-625 | an absent or empty bucket gives collider 1; an equal front element gets the object appended under its collider; otherwise the new collider is one above the largest, so distinct |
| ObjectRegistry.RegisterIsDeterminedByHits | src/j4r/lang/codetranslator/REnvironment.java:607-614 | with at most one equal collider, registration does not depend on the HashMap visiting order |
| ObjectRegistry.ParseReference | src/j4r/lang/codetranslator/REnvironment.java:325-327 | a parsed reference is two 32-bit ints; the failures are IndexOutOfBounds or NumberFormatException |
| ObjectRegistry.ReferenceKeyHasNoSlash | src/j4r/lang/codetranslator/REnvironment.java:323 | a reference key has no `/`, so the split on `/,` keeps it whole |
| ObjectRegistry.ParseReferenceKey | src/j4r/lang/codetranslator/REnvironment.java:194 | parsing the printed key of a hash and a collider gives them back |
| ObjectRegistry.FrontWrapper | src/j4r/lang/codetranslator/REnvironment.java:330-338 | the oldest occurrence (`get(0)`) as a wrapper; a null marker stands for a null of its declared class |
| ObjectRegistry.ResolveAll | src/j4r/lang/codetranslator/REnvironment.java:324-341 | a successful resolution gives one wrapper per reference |
| ObjectRegistry.Resolve | src/j4r/lang/codetranslator/REnvironment.java:319-345 | a text without the `java.objecthashcode` prefix resolves to no wrappers |
| ObjectRegistry.ResolveAllPointwise | src/j4r/lang/codetranslator/REnvironment.java:324-341 | when every reference resolves, wrapper i belongs to reference i |
| ObjectRegistry.ResolveAllFails | src/j4r/lang/codetranslator/REnvironment.java:324-341 | the first failing reference decides the exception |
| ObjectRegistry.ResolveKey | src/j4r/lang/codetranslator/REnvironment.java:319-345 | the key of a registered, non-null occurrence resolves to the oldest occurrence under its collider |
| ObjectRegistry.ResolveKeys | test/j4r/lang/codetranslator/TranslationTest.java:73-77 | the prefix followed by keys joined with `/,` resolves to one wrapper per key, in request order |
| ObjectRegistry.HeldKeyResolves | src/j4r/lang/codetranslator/REnvironment.java:194 | the reference round trip: the key after the `@` of a held object's text, behind the prefix, resolves to the oldest occurrence under its collider |
| ObjectRegistry.RegisteredResultResolves | src/j4r/lang/codetranslator/REnvironment.java:577-586 | the same round trip for a result just registered |
| ObjectRegistry.RegisterKeepsHolds | src/j4r/lang/codetranslator/REnvironment.java:594-625 | registration never loses an occurrence |
| ObjectRegistry.RecordsKeepConsistent | src/j4r/lang/codetranslator/REnvironment.java:577-586 | recording non-null results keeps the registry consistent at every step |
| ObjectRegistry.RecordedResultsHeld | src/j4r/lang/codetranslator/REnvironment.java:577-586 | after a handler has recorded its results, each registered result is held under its wrapper's collider in the final registry |
| ObjectRegistry.FlushRemovesOldest | src/j4r/lang/codetranslator/REnvironment.java:297-307 | flushing a key removes exactly its oldest occurrence; an emptied collider and an emptied bucket go too |
| ObjectRegistry.FlushKeyKeepsConsistent | src/j4r/lang/codetranslator/REnvironment.java:297-307 | flushing keeps the registry consistent |
| ObjectRegistry.FlushUndoesFreshRegistration | src/j4r/lang/codetranslator/REnvironment.java:297-307 | flushing the key of a fresh registration restores the registry |
| ObjectRegistry.FlushAfterRepeatRotates | src/j4r/lang/codetranslator/REnvironment.java:297-307 | after a repeated registration, a flush removes the oldest equal occurrence, not the newest |
| ObjectRegistry.SizeCountsLiveBuckets | src/j4r/lang/codetranslator/REnvironment.java:313-317 | in a consistent registry, `size()` is the number of buckets holding a live occurrence |
| Requests.Route | src/j4r/lang/codetranslator/REnvironment.java:230-241 | a code starting with `co` constructs; `method`, `field`, `cli`, `flush` and `size` must match exactly |
| Requests.ConstructionCodesRoute | src/j4r/lang/codetranslator/REnvironment.java:210-218 | every construction code, the null, array and null-array ones included, reaches construction |
| Requests.UnknownRequest | src/j4r/lang/codetranslator/REnvironment.java:243-247 | a request routed nowhere is a ClientRequest constant when the whole request names one, else "Request unknown!" |
| Requests.Marshall | src/j4r/lang/codetranslator/REnvironment.java:836-854 | a successful marshalling gives one vector per operand from position `i` on, with the types and vectors in agreement (each type is the class of its vector's first wrapper) |
| Requests.CallerFold | src/j4r/lang/codetranslator/REnvironment.java:525-542 | the caller fold throws only a NullPointerException, and a non-null caller is the held value or one of the wrapped values |
| Requests.CallerIsAmongWrappers | src/j4r/lang/codetranslator/REnvironment.java:525-542 | the chosen caller is null or one of the wrapped values, and a single wrapper is its own caller |
| Requests.ResolveCaller | src/j4r/lang/codetranslator/REnvironment.java:353-373 | registered objects give the class of the chosen caller (NullPointer when none); a single String naming a loadable class makes the call static |
| Requests.CallRequest | src/j4r/lang/codetranslator/REnvironment.java:444-465 | `requestStrings[1]` names the caller and the operands from position 3 on are marshalled |
| Requests.ExactMember | src/j4r/lang/codetranslator/REnvironment.java:472-474 | `getMethod` with exact classes finds the first considered member declaring exactly those types |
| Requests.FieldNamed | src/j4r/lang/codetranslator/REnvironment.java:385 | `getField` finds the first public field of that name |
| Requests.Outcomes | src/j4r/lang/codetranslator/REnvironment.java:498-514 | at most one value per remaining call, and no exception exactly when every call gave a value |
| Requests.OutcomesStopAtFirstFailure | src/j4r/lang/codetranslator/REnvironment.java:498-514 | calls that all return give one value per call; the first failing call decides the exception |
| Requests.MethodCalls | src/j4r/lang/codetranslator/REnvironment.java:492-514 | every call indexes a target, and there are max(#targets, innerSize) calls |
| Requests.NonNull | src/j4r/lang/codetranslator/REnvironment.java:577-586 | the kept results hold no null and are no more than the results |
| Requests.FieldReads | src/j4r/lang/codetranslator/REnvironment.java:402-411 | no exception exactly when every remaining target gave a value, and never more values than targets |
| Requests.FieldWrites | src/j4r/lang/codetranslator/REnvironment.java:412-429 | the exception of the first failing write, if any |
| Requests.ConstructedClass | src/j4r/lang/codetranslator/REnvironment.java:758-764 | a name that is not in the primitive table is looked up with `Class.forName` |
| Requests.Creations | src/j4r/lang/codetranslator/REnvironment.java:779-791 | no exception exactly when all `n - i` instances were created, and never more |
| Requests.CreationsAreNonNull | src/j4r/lang/codetranslator/REnvironment.java:802-826 | with a host that never returns null, every instance is non-null |
| Requests.InstantiateCreates | src/j4r/lang/codetranslator/REnvironment.java:802-826 | every kind of instantiation yields a non-null instance under that host |
| Requests.ConstructionRun | src/j4r/lang/codetranslator/REnvironment.java:770-791 | at most one instance without operands, and at most innerSize with them |
| Requests.CreationsInOrder | test/j4r/lang/codetranslator/TranslationTest.java:99-108 | when every creation succeeds, instance k is built at address `addr + k` and there are innerSize of them |
| Requests.PlainConstructionUsesIndexK | src/j4r/lang/codetranslator/REnvironment.java:787 | with consistent vectors, instance k of a plain construction gets the arguments of index k |
| Requests.MemberNames | src/j4r/lang/codetranslator/REnvironment.java:262-281 | one name per member, in order |
| Requests.ClassInfoNames | src/j4r/lang/codetranslator/REnvironment.java:252-286 | a non-array class name is described exactly when it is catalogued; the only failure is ClassNotFoundException for that name |
| Requests.NameWrappers | src/j4r/lang/codetranslator/REnvironment.java:577-586 | the names as unregistered String wrappers, in order |
| Requests.ClassInfoSplitsAtMarker | src/j4r/lang/codetranslator/REnvironment.java:252-286 | when no method is called `endOfMethods`, the part before the first marker is exactly the method names |
| Requests.MethodLookupPrefersExact | src/j4r/lang/codetranslator/REnvironment.java:470-482 | the exact method is preferred; only without one does the nearest-match ranking decide, and without operands there is no ranking |
| Requests.MethodPlanOf | src/j4r/lang/codetranslator/REnvironment.java:440-490 | an accepted method request has at least one target and a broadcast plan whose calls index the targets |
| Requests.MethodRequestDecisions | src/j4r/lang/codetranslator/REnvironment.java:440-498 | a method request goes ahead exactly when caller, operands, name and method are found, a static call finds a static method, and the sizes agree |
| Requests.FieldPlanOf | src/j4r/lang/codetranslator/REnvironment.java:349-399 | an accepted field request has at least one target and at most one operand; a write names a field and broadcasts, a read plans no calls |
| Requests.FieldDecision | src/j4r/lang/codetranslator/REnvironment.java:381-399 | `length` of an array without an operand is answered by Array.getLength; otherwise `getField` decides |
| Requests.FieldRequestDecisions | src/j4r/lang/codetranslator/REnvironment.java:349-415 | two operands or more are refused before the name is read; without an operand every target is read, with one the field is written |
| Requests.ConstructionPlanOf | src/j4r/lang/codetranslator/REnvironment.java:751-768 | an accepted construction request has a code and a class name, its kind is the code's, and it carries a constructor exactly when that kind needs one |
| Environment.Finish | src/j4r/lang/codetranslator/REnvironment.java:516-522 | a handler ends with its exception, or with its output collapsed |
| Environment.AnsweredValuesHeld | src/j4r/lang/codetranslator/REnvironment.java:577-586 | every value an answer reports as registered is held in the registry afterwards |
| Environment.Reserved | src/j4r/lang/codetranslator/REnvironment.java:779-791 | the addresses a construction sets aside: one per instance it can make |
| Environment.ClassInfoAnswer | src/j4r/lang/codetranslator/REnvironment.java:252-286 | getClassInfo answers with the names as String wrappers, collapsed |
| Environment.RemoveOldest | src/j4r/lang/codetranslator/REnvironment.java:297-307 | one reference of the flush: the oldest occurrence goes, with an emptied list and an emptied bucket; an absent hash changes nothing |
| Environment.SearchColliders | src/j4r/lang/codetranslator/REnvironment.java:607-623 | the collider loop returns a hit when there is one, else one above the largest collider |
| Environment.REnvironment.constructor | src/j4r/lang/codetranslator/REnvironment.java:53 | a new environment has an empty registry |
| Environment.REnvironment.RegisterInMap | src/j4r/lang/codetranslator/REnvironment.java:594-625 | the registry after registration is the registration function of the old one, consistency is kept, and the collider is returned |
| Environment.REnvironment.RegisterMethodOutput | src/j4r/lang/codetranslator/REnvironment.java:577-586 | a null result is skipped; a boxed primitive or a String is listed without registration; anything else is registered and listed with its collider |
| Environment.REnvironment.RegisterNewInstance | src/j4r/lang/codetranslator/REnvironment.java:829-832 | every new instance is registered and listed, whatever its class |
| Environment.REnvironment.FindObjectInEnvironment | src/j4r/lang/codetranslator/REnvironment.java:319-345 | the result is Resolve of the text; the registry is unchanged |
| Environment.REnvironment.GetCallerAmongWrappers | src/j4r/lang/codetranslator/REnvironment.java:525-542 | the loop yields CallerFold of the wrapped values |
| Environment.REnvironment.CallerOf | src/j4r/lang/codetranslator/REnvironment.java:353-373 | the caller of a request is ResolveCaller |
| Environment.REnvironment.ParseOperand | src/j4r/lang/codetranslator/REnvironment.java:839-845 | a tagged operand is decoded; anything else is looked up in the registry |
| Environment.REnvironment.MarshallParameters | src/j4r/lang/codetranslator/REnvironment.java:836-854 | the loop yields Marshall of the operands from `start` |
| Environment.REnvironment.LookUpMethod | src/j4r/lang/codetranslator/REnvironment.java:470-482 | exact `getMethod`, else `findNearestMethod` when there are operands |
| Environment.REnvironment.PlanMethodCall | src/j4r/lang/codetranslator/REnvironment.java:440-490 | the result is MethodPlanOf of the request |
| Environment.REnvironment.PlanFieldAccess | src/j4r/lang/codetranslator/REnvironment.java:349-399 | the result is FieldPlanOf of the request |
| Environment.REnvironment.ChooseField | src/j4r/lang/codetranslator/REnvironment.java:381-399 | the result is FieldDecision |
| Environment.REnvironment.LookUpConstructor | src/j4r/lang/codetranslator/REnvironment.java:765-768 | exact `getConstructor`, else `findNearestConstructor` |
| Environment.REnvironment.PlanConstruction | src/j4r/lang/codetranslator/REnvironment.java:751-768 | the result is ConstructionPlanOf of the request |
| Environment.REnvironment.InvokeAll | src/j4r/lang/codetranslator/REnvironment.java:492-515 | the loops make the calls MethodCalls lists and record their results in order; the first exception stops them |
| Environment.REnvironment.InvokeOnce | src/j4r/lang/codetranslator/REnvironment.java:511 | call i invokes the method on target k with the argument array of index j |
| Environment.REnvironment.ReadFields | src/j4r/lang/codetranslator/REnvironment.java:402-411 | every target is read (Array.getLength or Field.get), each result through registerMethodOutput |
| Environment.REnvironment.WriteOnce | src/j4r/lang/codetranslator/REnvironment.java:426 | write i sets the field of target k to element 0 of the arguments of index j |
| Environment.REnvironment.WriteFields | src/j4r/lang/codetranslator/REnvironment.java:412-429 | max(#targets, innerSize) writes; the result is FieldWrites; the registry is unchanged |
| Environment.REnvironment.GetNewInstance | src/j4r/lang/codetranslator/REnvironment.java:802-826 | without arguments `newInstance`; with arguments a new array or the constructor applied |
| Environment.REnvironment.CreateOnce | src/j4r/lang/codetranslator/REnvironment.java:780-788 | instance i: a typed null, a null of the array class, or a new instance |
| Environment.REnvironment.CreateInstances | src/j4r/lang/codetranslator/REnvironment.java:770-791 | the instances are ConstructionRun, all registered in order |
| Environment.REnvironment.CreateWithoutOperands | src/j4r/lang/codetranslator/REnvironment.java:770-777 | one instance: a typed null or `newInstance` without arguments |
| Environment.REnvironment.CreateWithOperands | src/j4r/lang/codetranslator/REnvironment.java:778-790 | the loop over the indices below the inner size: its instances and exception are Creations from index 0 at the addresses from nextAddress on, each recorded by registerNewInstance; nextAddress advances by the inner size |
| Environment.REnvironment.ProcessMethod | src/j4r/lang/codetranslator/REnvironment.java:440-523 | the plan, then the calls; the output collapsed, or the exception |
| Environment.REnvironment.ProcessField | src/j4r/lang/codetranslator/REnvironment.java:349-437 | the plan, then the reads without an operand or the writes with one |
| Environment.REnvironment.CreateObjectFromRequestStrings | src/j4r/lang/codetranslator/REnvironment.java:751-799 | the plan, then the instances; the output collapsed, or the exception |
| Environment.REnvironment.AppendNames | src/j4r/lang/codetranslator/REnvironment.java:262-281 | the member names appended as unregistered String wrappers |
| Environment.REnvironment.GetClassInfo | src/j4r/lang/codetranslator/REnvironment.java:252-286 | the answer is ClassInfoAnswer of the class; the registry is unchanged |
| Environment.REnvironment.FlushTheseObjects | src/j4r/lang/codetranslator/REnvironment.java:289-311 | every reference removes its oldest occurrence in turn, the first failure ends the flush, and the answer is null |
| Environment.REnvironment.GetInternalMapSize | src/j4r/lang/codetranslator/REnvironment.java:313-317 | a one-element list holding the number of buckets, unregistered |
| Environment.REnvironment.ProcessCode | src/j4r/lang/codetranslator/REnvironment.java:227-249 | a split on `/;`, then the handler Route picks, or the ClientRequest constant or the unknown-request error |
| GatewayProtocol.ProcessRequest | src/j4r/net/server/JavaGatewayServer.java:164-182 | the gateway dialect: a String that trims to `closeConnection` closes, a `time` prefix must parse as a long, any other String goes to processCode, a non-String gives null; the local dialect returns ClientRequest objects unchanged |
| GatewayProtocol.AnswersAreNotNamed | src/j4r/lang/codetranslator/REnvironment.java:516-522 | a handler that records its results answers with wrappers or an exception, never with a ClientRequest constant |
| GatewayProtocol.HandlersAreNotNamed | src/j4r/lang/codetranslator/REnvironment.java:230-241 | construction, method calls and field accesses never answer with a ClientRequest constant |
| GatewayProtocol.NamedOnlyByUnknownRequest | src/j4r/lang/codetranslator/REnvironment.java:243-247 | processCode answers with a ClientRequest constant only through its last branch |
| GatewayProtocol.CloseNameIsPlain | src/j4r/net/server/JavaGatewayServer.java:168-171 | `closeConnection` is already trimmed and does not start with `time` |
| GatewayProtocol.CloseNameSplitsWhole | src/j4r/lang/codetranslator/REnvironment.java:229 | `closeConnection` holds no `/`, so the split leaves it whole |
| GatewayProtocol.CloseNameRoutesNowhere | src/j4r/lang/codetranslator/REnvironment.java:230-241 | `closeConnection` matches no handler code: it starts with `cl`, not with `co` |
| GatewayProtocol.ProcessesClosesOnName | src/j4r/lang/codetranslator/REnvironment.java:243-247 | processCode answers with the close constant exactly for the String `closeConnection` |
| GatewayProtocol.ClosesExactlyOnCloseRequest | src/j4r/net/server/JavaGatewayServer.java:121-122 | a handled object closes the conversation exactly when it is a close request, and a close leaves the environment unchanged |
| GatewayProtocol.PaddedCloseByDialect | trunk/src/j4r/net/server/JavaLocalGatewayServer.java:178-193 | only the gateway servers trim: a close padded with a blank closes there and not in the local server |
| GatewayProtocol.React | src/j4r/net/server/JavaGatewayServer.java:116-152 | null is answered Done, the close sentinel closes, an IOException loses the connection; any other result is echoed and any other exception answered with a JavaGatewayException |
| GatewayProtocol.ReactionDeterminesOutcome | src/j4r/net/server/JavaGatewayServer.java:116-152 | the reply identifies the result it stands for; only lost connections are alike |
| GatewayProtocol.Written | src/j4r/net/server/JavaGatewayServer.java:116-152 | a reaction writes at most one reply, and nothing exactly when the connection is lost |
| GatewayProtocol.Replies | src/j4r/net/server/JavaGatewayServer.java:114-153 | never more replies than results |
| GatewayProtocol.EndOf | src/j4r/net/server/JavaGatewayServer.java:114 | the conversation is open until a result closes it or loses it |
| GatewayProtocol.Serve | src/j4r/net/server/JavaGatewayServer.java:114-153 | the inner loop handles the requests in order until a close or a lost connection; the replies, the ending and the final environment are those of the conversation |
| GatewayServer.AfterClose | src/j4r/net/server/JavaGatewayServer.java:125-128 | the worker leaves the record; the address keeps its environment only if another worker still serves it |
| GatewayServer.LastCloseDropsEnvironment | src/j4r/net/server/JavaGatewayServer.java:125-128 | the last worker of an address to close drops its environment; any other keeps it unchanged |
| GatewayServer.Server.constructor | src/j4r/net/server/JavaGatewayServer.java:198-204 | no client yet; shutdown on a closed connection exactly for a private server |
| GatewayServer.Server.RegisterClient | src/j4r/net/server/JavaGatewayServer.java:221-226 | insert-if-absent: a known address keeps its environment, and a new one gets a fresh, empty environment |
| GatewayServer.Server.Enroll | src/j4r/net/server/JavaGatewayServer.java:111-112 | the client's environment is registered and the worker is recorded as working for its address |
| GatewayServer.Server.Conclude | src/j4r/net/server/JavaGatewayServer.java:121-132 | a close applies AfterClose and, on a private server, requests shutdown; a closed or lost connection ends the thread of a server that shuts down on a closed connection |
| GatewayServer.Server.Attend | src/j4r/net/server/JavaGatewayServer.java:108-153 | the client is enrolled and its conversation is held on its environment |
| GatewayServer.Server.Hold | src/j4r/net/server/JavaGatewayServer.java:114-153 | the conversation on an environment of the server; the server stays valid |
| GatewayServer.Server.Session | src/j4r/net/server/JavaGatewayServer.java:105-160 | one client served: the conversation, then the close bookkeeping and the shutdown decision |
| GatewayServer.Server.CreateFileInfoForLocalServer | src/j4r/net/server/JavaGatewayServer.java:251-275 | no working directory gives a null pointer; otherwise lock file, content `key;backdoor:gc;ports`, then the lock is deleted |
| GatewayServer.IsPublicServerRunning | src/j4r/net/server/JavaGatewayServer.java:233-239 | false without an instance, otherwise not private |
| TrunkGatewayServer.Server.constructor | trunk/src/j4r/net/server/JavaGatewayServer.java:173-178 | no client yet; shutdown on a closed connection exactly for a private server; the back door is running |
| TrunkGatewayServer.Server.RegisterClient | trunk/src/j4r/net/server/JavaGatewayServer.java:190-195 | insert-if-absent per address |
| TrunkGatewayServer.Server.Enroll | trunk/src/j4r/net/server/JavaGatewayServer.java:86-87 | the client's environment is registered and the worker is recorded |
| TrunkGatewayServer.Server.Conclude | trunk/src/j4r/net/server/JavaGatewayServer.java:96-105 | a close applies AfterClose and requests shutdown on any server |
| TrunkGatewayServer.Server.Attend | trunk/src/j4r/net/server/JavaGatewayServer.java:84-125 | the client is enrolled and its conversation is held |
| TrunkGatewayServer.Server.Hold | trunk/src/j4r/net/server/JavaGatewayServer.java:89-125 | the conversation on an environment of the server; the server stays valid |
| TrunkGatewayServer.Server.Session | trunk/src/j4r/net/server/JavaGatewayServer.java:80-134 | one client served: the conversation, then the close bookkeeping and the shutdown decision |
| TrunkGatewayServer.Server.Shutdown | trunk/src/j4r/net/server/JavaGatewayServer.java:222-230 | a live back door gets a soft exit; the inherited shutdown runs unless bypassed for testing |
| TrunkGatewayServer.Server.CreateFileInfoForLocalServer | trunk/src/j4r/net/server/JavaGatewayServer.java:233-249 | no working directory gives a null pointer; otherwise the content `key;backdoor:gc;ports` is written with no lock |
| LocalGatewayServer.Server.constructor | trunk/src/j4r/net/server/JavaLocalGatewayServer.java:208-210 | shuts down on a closed connection; the back door runs on the internal port |
| LocalGatewayServer.Server.ForTesting | trunk/src/j4r/net/server/JavaLocalGatewayServer.java:233-238 | as the public constructor, with the shutdown on a closed connection chosen by the caller |
| LocalGatewayServer.Server.Conclude | trunk/src/j4r/net/server/JavaLocalGatewayServer.java:141-146 | a close requests shutdown; a closed or lost connection ends the thread of a server that shuts down on a closed connection |
| LocalGatewayServer.Server.Session | trunk/src/j4r/net/server/JavaLocalGatewayServer.java:128-175 | the conversation in the local dialect on the single environment, then Conclude |
| LocalGatewayServer.Server.Shutdown | trunk/src/j4r/net/server/JavaLocalGatewayServer.java:246-255 | a live back door gets a soft exit; the inherited shutdown runs unless bypassed |
| LocalGatewayServer.Server.CreateFileInfoForLocalServer | trunk/src/j4r/net/server/JavaLocalGatewayServer.java:257-274 | no working directory gives a null pointer; otherwise the content `key;backdoor;ports` is written with no lock |
| ControlChannel.Events | trunk/src/j4r/net/server/JavaLocalGatewayServer.java:63-90 | one turn: CallAccepted first; an emergency shutdown exits with 1 before the client is closed; a soft exit closes the listener; the client is closed in `finally` |
| ControlChannel.Served | trunk/src/j4r/net/server/JavaLocalGatewayServer.java:63-90 | the loop takes all the calls, or the calls up to and including the first that stops it |
| ControlChannel.TraceOfPrefix | trunk/src/j4r/net/server/JavaLocalGatewayServer.java:63-90 | calls that do not stop the loop are taken one after the other |
| ControlChannel.StopEndsTrace | trunk/src/j4r/net/server/JavaLocalGatewayServer.java:63-90 | the first stopping call ends the listener; later calls are never accepted |
| ControlChannel.SoftExitEndsListener | trunk/src/j4r/net/server/JavaLocalGatewayServer.java:76-80 | a soft exit is acknowledged, closes the listener and then its client |
| ControlChannel.EmergencyExitSkipsClose | trunk/src/j4r/net/server/JavaLocalGatewayServer.java:72-75 | an emergency shutdown is acknowledged and exits with 1; its client is never closed |
| ControlChannel.BackDoorThread.constructor | trunk/src/j4r/net/server/JavaLocalGatewayServer.java:55-60 | the listener opens on the port and runs with an empty log |
| ControlChannel.BackDoorThread.Step | trunk/src/j4r/net/server/JavaLocalGatewayServer.java:65-88 | one turn appends the Events of the call and stops exactly on a stopping command |
| ControlChannel.BackDoorThread.Run | trunk/src/j4r/net/server/JavaLocalGatewayServer.java:63-90 | the loop takes the Served calls and logs their events in order |
| ControlChannel.BackDoorThread.SoftExitCall | trunk/src/j4r/net/server/JavaLocalGatewayServer.java:92-100 | softExit connects to its own port and sends `softExit`: acknowledged, listener closed, client closed, thread stopped |
| Discovery.RealizedListeningPorts | src/j4r/net/server/JavaGatewayServer.java:262-268 | the receiver ports in order, with `:` between them |
| Discovery.GatewayContentFields | src/j4r/net/server/JavaGatewayServer.java:269-271 | the gateway content splits into the key, the two control ports and the listening ports |
| Discovery.GatewayContentReadBack | test/j4r/net/server/StartupTest.java:69-72 | the content has three `;` fields, which parse back to the key, the backdoor and gc ports, and the listening ports |
| Discovery.LocalContentReadBack | trunk/src/j4r/net/server/JavaLocalGatewayServer.java:268-270 | the local content has three fields: the key, the backdoor port and the listening ports |
| Discovery.LockedPublication | src/j4r/net/server/JavaGatewayServer.java:252-274 | three file actions, the second of which writes the content (the lock around it is LockGuardsWrite) |
| Discovery.LockGuardsWrite | src/j4r/net/server/JavaGatewayServer.java:252-274 | the lock exists while the content is written and is gone afterwards, and the discovery file stays |
| Discovery.PlainPublication | trunk/src/j4r/net/server/JavaGatewayServer.java:246-248 | the content alone, written directly |
| J4RSystem.VersionAndRevision | src/j4r/lang/J4RSystem.java:50-59 | the version before the first `_` and the revision after it; without `_` the revision is "unknown" |
| J4RSystem.ParseJVMVersion | src/j4r/lang/J4RSystem.java:87-95 | a parsed major version is a 32-bit int (which component is taken is ParseJVMVersionOfComponents) |
| J4RSystem.ParseJVMVersionOfComponents | src/j4r/lang/J4RSystem.java:87-95 | a version printed as components parses to its first component, or to its second when the first is 1 |
| J4RSystem.LegacyVersionExample | src/j4r/lang/J4RSystem.java:80-86 | `1.8.0` is Java 8 |
| J4RSystem.ModernVersionExample | src/j4r/lang/J4RSystem.java:80-86 | `11.0.6` is Java 11 |
| J4RSystem.IsCurrentJVMLaterThanThisVersion | src/j4r/lang/J4RSystem.java:103-111 | a strict comparison of the parsed majors |
| J4RSystem.LaterThanIgnoresFlag | src/j4r/lang/J4RSystem.java:120-122 | `upToThirdDigit` never changes the answer, and no version is later than itself |
| J4RSystem.SetClassicalOptions | src/j4r/lang/J4RSystem.java:132-142 | the arguments as a list in the same order; an empty list for none |
| J4RSystem.IndexOfElement | src/j4r/lang/J4RSystem.java:151-152 | `List.indexOf`: the first position holding the element, or -1 |
| J4RSystem.RetrieveArgument | src/j4r/lang/J4RSystem.java:150-156 | the element after the first occurrence of the option; null when it is absent or last |
| J4RSystem.RetrieveArgumentFindsValue | src/j4r/lang/J4RSystem.java:150-156 | an option followed by a value, with no earlier occurrence, retrieves that value |
| J4RSystem.RetrieveArgumentAbsentOrLast | src/j4r/lang/J4RSystem.java:150-156 | an absent option, or one only present last, retrieves nothing |
| J4RSystem.Missing | src/j4r/lang/J4RSystem.java:209-224 | never more patterns than given (which are reported is MissingMembers) |
| J4RSystem.MissingMembers | src/j4r/lang/J4RSystem.java:209-224 | a pattern is reported exactly when it is a pattern and no URL contains it |
| J4RSystem.CheckIfPatternsAreInClassPath | src/j4r/lang/J4RSystem.java:209-224 | the nested loop with its `found` flag reports Missing |
| J4RSystem.PatternsExample | test/j4r/lang/J4RSystemTest.java:83-92 | with only junit and hamcrest on the class path, both library patterns are reported, in order |
| ServerConfig.CheckPort | src/j4r/net/server/ServerConfiguration.java:112-116 | a port is valid when it is 0 or in 1024..65535; otherwise InvalidParameterException |
| ServerConfig.CheckPorts | src/j4r/net/server/ServerConfiguration.java:67-69 | the first port checkPort refuses ends construction |
| ServerConfig.Clamped | src/j4r/net/server/ServerConfiguration.java:73-77 | a negative waiting-list size is stored as 0, anything else unchanged |
| ServerConfig.Make | src/j4r/net/server/ServerConfiguration.java:57-88 | construction succeeds exactly when threads are in 0..10, the ports are present and every port is valid; the fields are then the arguments, with the clamped waiting list and the working directory if it exists, else the temporary one |
| ServerConfig.Public | src/j4r/net/server/ServerConfiguration.java:52-54 | not local, key -1 and no working directory |
| ServerConfig.Local | src/j4r/net/server/ServerConfiguration.java:98-100 | one thread, no waiting list, local |
| ServerConfig.ZeroThreadsAccepted | src/j4r/net/server/ServerConfiguration.java:59-60 | 0 threads pass the bound |
| TrunkServerConfig.Make | trunk/src/j4r/net/server/ServerConfiguration.java:81-120 | succeeds exactly when threads are in 0..10 and every listening and internal port is valid; a null internal array is a null pointer; otherwise the fields are the arguments with the clamped waiting list |
| TrunkServerConfig.Public | trunk/src/j4r/net/server/ServerConfiguration.java:55-57 | not private and no working directory |
| TrunkServerConfig.Private | trunk/src/j4r/net/server/ServerConfiguration.java:131-133 | one thread per receiver, no waiting list, private; the working directory if it exists, else the temporary one |
| Startup.ParseAll | src/j4r/app/Startup.java:57-64 | a successful parse has one value per field (the first failure is ParseAllMeaning) |
| Startup.ParseAllMeaning | src/j4r/app/Startup.java:57-64 | success exactly when every field parses, with one value per field in order; otherwise the first bad field |
| Startup.ParseAllFirstFailure | src/j4r/app/Startup.java:60-62 | the first bad field decides the error, whatever follows |
| Startup.ParsePorts | src/j4r/app/Startup.java:57-64 | the loop fills an array with ParseAll of the `:` fields |
| Startup.PortsRoundTrip | src/j4r/app/Startup.java:57-64 | a non-empty port list written with `:` parses back to itself |
| Startup.EmptyPortsRefused | src/j4r/app/Startup.java:57-64 | an empty text is one empty field, which does not parse |
| Startup.ListeningPorts | src/j4r/app/Startup.java:133-146 | `-ports` if given, else `-nbports` zeros, one by default |
| Startup.BackdoorPorts | src/j4r/app/Startup.java:147-153 | `-backdoorports` if given, else `[0, 0]` |
| Startup.SecurityKey | src/j4r/app/Startup.java:154-172 | the parsable `-key` of a public server, otherwise the generated key |
| Startup.Configure | src/j4r/app/Startup.java:116-181 | a public server gets (1, 10, ports, backdoor, key) and a private one (ports, backdoor, key, wd) |
| Startup.Launch | src/j4r/app/Startup.java:104-190 | null or empty arguments print usage and start nothing; a failure is rethrown in test mode and exits with 1 otherwise |
| Startup.DefaultPorts | src/j4r/app/Startup.java:133-153 | without port options: one listening port and two backdoor ports, all 0 |
| Startup.PrivateArguments | src/j4r/app/Startup.java:116-179 | `-ports p -backdoorports b` gives those ports, a private server and the generated key |
| Startup.PortOptions | src/j4r/app/Startup.java:133-153 | what `-ports` and `-backdoorports` retrieve when followed by values that are not options |
| Startup.PrivateLaunch | test/j4r/net/server/StartupTest.java:51-72 | a private launch with valid explicit ports starts a server bound to those ports with one thread and no waiting list |
| Startup.FailedStart | test/j4r/net/server/StartupTest.java:125-181 | test mode rethrows the failure; normal mode exits with status 1 |
| GenericTask.Task.constructor | src/j4r/app/AbstractGenericTask.java:56 | not started, not over, not cancelled, no name and no failure |
| GenericTask.Task.Run | src/j4r/app/AbstractGenericTask.java:95-110 | a cancelled task skips its job and still ends correctly terminated; a job throwing an exception records it as the failure; both then end over; an error thrown by the job escapes run and only `isStarted` changes |
| GenericTask.Task.Cancel | src/j4r/app/AbstractGenericTask.java:121-132 | refused once over; granted before start; while running, granted only when interruption is allowed, and then a task is marked cancelled |
| GenericTask.Task.Get | src/j4r/app/AbstractGenericTask.java:146-165 | once over, whether a task terminated correctly |
| GenericTask.Task.SetName | src/j4r/app/AbstractGenericTask.java:80 | the name is set |
| GenericTask.Task.ToString | src/j4r/app/AbstractGenericTask.java:85-91 | the name when set and non-empty, else the default text |
| GenericTask.CancelledBeforeStart | src/j4r/app/AbstractGenericTask.java:97-101 | a task cancelled before it starts never runs its job and ends correctly terminated |
| GenericTask.FailedJob | src/j4r/app/AbstractGenericTask.java:102-105 | a job throwing an exception makes get report false, with the exception as the failure reason |
| GenericTask.EscapedError | src/j4r/app/AbstractGenericTask.java:96-110 | an error thrown by the job escapes run and leaves a started task that is neither over nor done, so get still waits |
| GenericTask.CancelAfterStart | src/j4r/app/AbstractGenericTask.java:127-131 | a started task is cancelled only when interruption is allowed, and a finished one never |

## Left out

- **Reflection.** `Class.forName`, `getMethods`, `getFields`, `getConstructors`, `invoke`, `Field.get`/`set`, `newInstance`, `Array.newInstance`/`getLength` and enum `valueOf` are uninterpreted functions of a host over a catalogue. The ReflectUtility tables are given tables.
- **Identity and equality.** `System.identityHashCode` and `Object.equals` are host oracles, not hashing.
- **HashMap order.** The colliders of a bucket are visited in an order the model does not fix. RegisterIsDeterminedByHits shows that the order matters only when several colliders hold equal objects.
- **Floating point.** Doubles and floats are kept as abstract decoded values. Their text is not parsed.
- **Timing.** The timing arithmetic of processRequest is left out. Only the `parseLong` of the `time` prefix, which can throw, is modelled.
- **Sockets, threads and the client queue.** A client thread's work on one client is a method over the sequence of objects it reads. A lost connection is an IOException result. The following are not modelled:
  - `Thread.interrupted`;
  - `firePropertyChange`;
  - the outer `while (!shutdownCall)` / `while (true)` loops;
  - concurrent access to the maps.
- **Bound ports.** The ports the call receivers and the back door are bound to are parameters of CreateFileInfoForLocalServer.
- **AbstractServer.** It is not part of this model:
  - `isPrivate` is the configuration's private flag;
  - `requestShutdown` sets a flag;
  - the inherited `shutdown` is recorded as the code it was called with;
  - the back door of the gateway servers is taken to be the BackDoorThread.
- **Back-door failures.** A failure to bind the back door is not modelled.
- **File I/O.** The discovery and lock files are lists of file actions. Directory existence and the temporary directory are inputs.
- **Logging.** Not modelled.
- **Process exits.** `System.exit` is a value the model returns.
- **The security key.** The `Random` key is given as an input.
- **Startup details.** `Startup.createLogFile` and the log-level options are left out.
- **Test support.** `getMainInstance`, `cleanupAfterTesting`, `AbstractGenericEngine`, `JavaProcessWrapper`, `J4RTranslator` and `PortBindingException` are left out.
- **J4RSystem platform queries.** `getJavaIOTmpDir`, `getJavaArchitecture`, `isRunningOnWindows`, `getClassPathURLs`, `addToClassPath` and the class-loader helpers are left out. They read system properties or the class loader. `CheckIfPatternsAreInClassPath` takes the URLs as a parameter.
- JavaText.ParseInt / JavaText.ParseLong: only ASCII digits; Java also accepts other Unicode decimal digits (through `Character.digit`), which the model refuses with a NumberFormatException. The same holds for ParseDecimal, which both share.
- JavaText.ToLower: non-ASCII case folding is not modelled. Java's `toLowerCase` also lowers non-ASCII capitals and may change the length ("İ"). At its two uses, the comparisons with "on" (src/j4r/app/Startup.java:157) and with "true" (src/j4r/lang/codetranslator/REnvironment.java:877-878), only ASCII letters can match, so the outcome of those comparisons is the same.
- GenericTask.Task.Get: waiting is left out. A task that is not over yields `None` instead of blocking on the monitor.
- **Where the code and its own documentation part.** The Javadoc of `isAssignableOfThisClass` (src/j4r/lang/codetranslator/REnvironment.java:686-696) speaks of proximity 0 for the same class only. A primitive/wrapper pair passes through `implementThisClassAsAnInterface` and scores 0.5 (PrimitiveWrapperScoresHalf). The thread-count message asks for 1 to 10, but the test accepts 0 (ZeroThreadsAccepted). The model follows the code in both cases.

## Findings

| source | as written | input that shows it | evidently intended | confidence | as-written member | corrected member |
|---|---|---|---|---|---|---|
| src/j4r/lang/codetranslator/REnvironment.java:133 | the guard of `getParameterArray` refuses only `i > getInnerSize()`, so `i == getInnerSize()` passes it | one parameter vector of two elements and index 2: the guard passes and `get(2)` throws IndexOutOfBounds instead of the guard's message | refuse every `i >= getInnerSize()` | not executed | Broadcast.ParameterArrayAsWritten, Broadcast.GuardLetsInnerSizeThrough | Broadcast.ParameterArray |
