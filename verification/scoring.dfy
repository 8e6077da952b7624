/**
 * Nearest-match overload resolution of REnvironment: the proximity of an
 * observed class to a declared parameter class, counted in superclass steps
 * with half a step for an interface or a primitive/wrapper match; the score of
 * a whole parameter list; and the choice of the best-scoring method or
 * constructor. Scores are kept exactly as integer half-steps.
 */
module Scoring {
  import opened Wrappers
  import opened JavaText
  import opened TypeCatalogue

  /** A degree of proximity: -1 in the source, or a count of half superclass steps. */
  datatype Proximity = NoMatch | Distance(halfSteps: nat)

  /**
   * implementThisClassAsAnInterface: `cl` is the primitive of wrapper `ref`, or the
   * wrapper of primitive `ref`, or one of `cl`'s direct interfaces has `ref`'s name.
   */
  predicate ImplementsAsInterface(cat: Catalogue, ref: JType, cl: JType) {
    (ref.Named? && ref.name in WrapperToPrimitive && cl == Named(WrapperToPrimitive[ref.name])) ||
    (ref.Named? && ref.name in PrimitiveToWrapper && cl == Named(PrimitiveToWrapper[ref.name])) ||
    JavaName(ref) in Interfaces(cat, cl)
  }

  /** The walk stops at `c`: the names agree, `ref` is implemented as an interface, or Object is reached. */
  predicate Stops(cat: Catalogue, ref: JType, c: JType) {
    JavaName(ref) == JavaName(c) || ImplementsAsInterface(cat, ref, c) || JavaName(c) == ObjectClass
  }

  /** The score of stopping at a class `d` steps up: d, d + 0.5, or -1. */
  function Verdict(cat: Catalogue, ref: JType, c: JType, d: nat): Proximity {
    if JavaName(ref) == JavaName(c) then Distance(2 * d)
    else if ImplementsAsInterface(cat, ref, c) then Distance(2 * d + 1)
    else NoMatch
  }

  /** One step up: a primitive's parent is taken to be Object, anything else has getSuperclass(). */
  function Parent(cat: Catalogue, c: JType): Option<JType> {
    if IsPrimitive(c) then Some(Named(ObjectClass)) else Superclass(cat, c)
  }

  /** The class `d` steps above `c`, None once the chain has run out. */
  function Ancestor(cat: Catalogue, c: JType, d: nat): Option<JType>
    decreases d
  {
    if d == 0 then Some(c)
    else match Parent(cat, c)
      case None => None
      case Some(p) => Ancestor(cat, p, d - 1)
  }

  /** The loop of isAssignableOfThisClass from class `cl` after `degree` steps; a null superclass throws. */
  function Walk(cat: Catalogue, ref: JType, cl: JType, degree: nat): (r: Result<Proximity, JavaException>)
    requires WellFormed(cat)
    ensures r.Err? ==> r.error == NullPointer
    decreases Height(cat, cl)
  {
    if Stops(cat, ref, cl) then Ok(Verdict(cat, ref, cl, degree))
    else match Parent(cat, cl)
      case None => Err(NullPointer)
      case Some(p) =>
        assert Height(cat, p) < Height(cat, cl) by {
          if !IsPrimitive(cl) { SuperclassIsLower(cat, cl); }
        }
        Walk(cat, ref, p, degree + 1)
  }

  /** isAssignableOfThisClass(ref, cl). */
  function IsAssignable(cat: Catalogue, ref: JType, cl: JType): (r: Result<Proximity, JavaException>)
    requires WellFormed(cat)
    ensures r.Err? ==> r.error == NullPointer
  {
    Walk(cat, ref, cl, 0)
  }

  /** No class strictly below step `d` stops the walk. */
  ghost predicate NoStopBefore(cat: Catalogue, ref: JType, cl: JType, d: nat) {
    forall e :: 0 <= e < d ==> Ancestor(cat, cl, e).Some? && !Stops(cat, ref, Ancestor(cat, cl, e).value)
  }

  /**
   * The walk is scored at the first class up the chain where it stops: a class
   * with `ref`'s name gives its step count, one implementing `ref` gives the
   * count plus a half, and Object gives no match.
   */
  lemma {:induction false} WalkAtFirstStop(cat: Catalogue, ref: JType, cl: JType, k: nat, d: nat)
    requires WellFormed(cat)
    requires Ancestor(cat, cl, d).Some? && Stops(cat, ref, Ancestor(cat, cl, d).value)
    requires NoStopBefore(cat, ref, cl, d)
    ensures Walk(cat, ref, cl, k) == Ok(Verdict(cat, ref, Ancestor(cat, cl, d).value, k + d))
    decreases d
  {
    if d > 0 {
      assert Ancestor(cat, cl, 0) == Some(cl);
      assert !Stops(cat, ref, cl);
      var p := Parent(cat, cl).value;
      forall e | 0 <= e < d - 1
        ensures Ancestor(cat, p, e).Some? && !Stops(cat, ref, Ancestor(cat, p, e).value)
      {
        assert Ancestor(cat, cl, e + 1) == Ancestor(cat, p, e);
      }
      WalkAtFirstStop(cat, ref, p, k + 1, d - 1);
    }
  }

  /** The walk throws only when the superclass chain breaks before any stop. */
  lemma {:induction false} WalkErrorMeansBrokenChain(cat: Catalogue, ref: JType, cl: JType, k: nat)
    requires WellFormed(cat) && Walk(cat, ref, cl, k).Err?
    ensures exists d: nat :: Ancestor(cat, cl, d).None? && NoStopBefore(cat, ref, cl, d)
    decreases Height(cat, cl)
  {
    assert !Stops(cat, ref, cl);
    match Parent(cat, cl)
    case None =>
      assert Ancestor(cat, cl, 1).None? && NoStopBefore(cat, ref, cl, 1);
    case Some(p) =>
      if !IsPrimitive(cl) { SuperclassIsLower(cat, cl); }
      WalkErrorMeansBrokenChain(cat, ref, p, k + 1);
      var d: nat :| Ancestor(cat, p, d).None? && NoStopBefore(cat, ref, p, d);
      assert Ancestor(cat, cl, d + 1) == Ancestor(cat, p, d);
      forall e | 0 <= e < d + 1
        ensures Ancestor(cat, cl, e).Some? && !Stops(cat, ref, Ancestor(cat, cl, e).value)
      {
        if e > 0 {
          assert Ancestor(cat, cl, e) == Ancestor(cat, p, e - 1);
        }
      }
  }

  /** A class scores 0 against itself. */
  lemma SameClassScoresZero(cat: Catalogue, t: JType)
    requires WellFormed(cat)
    ensures IsAssignable(cat, t, t) == Ok(Distance(0))
  {
  }

  /** A primitive and its wrapper score a half step, in both directions, rather than 0. */
  lemma PrimitiveWrapperScoresHalf(cat: Catalogue, prim: string)
    requires WellFormed(cat)
    requires prim in PrimitiveToWrapper && prim != StringClass
    ensures IsAssignable(cat, Named(PrimitiveToWrapper[prim]), Named(prim)) == Ok(Distance(1))
    ensures IsAssignable(cat, Named(prim), Named(PrimitiveToWrapper[prim])) == Ok(Distance(1))
  {
  }

  // ---------------------------------------------------------------------------
  // Parameter lists
  // ---------------------------------------------------------------------------

  /** The score of one position: an array parameter needs an array argument and compares component types. */
  function PositionScore(cat: Catalogue, ref: JType, obs: JType): (r: Result<Proximity, JavaException>)
    requires WellFormed(cat)
    ensures r.Err? ==> r.error == NullPointer
    ensures ref.ArrayOf? && !obs.ArrayOf? ==> r == Ok(NoMatch)
  {
    if ref.ArrayOf? then
      if !obs.ArrayOf? then Ok(NoMatch) else IsAssignable(cat, ref.component, obs.component)
    else IsAssignable(cat, ref, obs)
  }

  /** The score of every position, left to right. */
  function PositionScores(cat: Catalogue, ref: seq<JType>, obs: seq<JType>): seq<Result<Proximity, JavaException>>
    requires WellFormed(cat) && |ref| == |obs|
  {
    seq(|ref|, j requires 0 <= j < |ref| => PositionScore(cat, ref[j], obs[j]))
  }

  /**
   * The accumulating loop of doParameterTypesMatch from position `i`, with the
   * sum so far: the first error or no-match ends it, otherwise the sum.
   */
  function SumFrom(scores: seq<Result<Proximity, JavaException>>, i: nat, sum: nat): (r: Result<Proximity, JavaException>)
    requires i <= |scores|
    ensures r.Err? ==> exists j :: i <= j < |scores| && scores[j] == r
    ensures r.Ok? && r.value.Distance? ==> r.value.halfSteps >= sum
    decreases |scores| - i
  {
    if i == |scores| then Ok(Distance(sum))
    else match scores[i]
      case Err(e) => Err(e)
      case Ok(NoMatch) => Ok(NoMatch)
      case Ok(Distance(h)) => SumFrom(scores, i + 1, sum + h)
  }

  /** doParameterTypesMatch: 0 for two nulls, -1 for one null or a length mismatch, else the positional sum. */
  function ParameterTypesScore(cat: Catalogue, ref: Option<seq<JType>>, obs: Option<seq<JType>>): (r: Result<Proximity, JavaException>)
    requires WellFormed(cat)
    ensures ref.None? && obs.None? ==> r == Ok(Distance(0))
    ensures ref.None? != obs.None? ==> r == Ok(NoMatch)
    ensures ref.Some? && obs.Some? && |ref.value| != |obs.value| ==> r == Ok(NoMatch)
    ensures r.Err? ==> r.error == NullPointer
  {
    if ref.None? && obs.None? then Ok(Distance(0))
    else if ref.Some? && obs.Some? && |ref.value| == |obs.value| then SumFrom(PositionScores(cat, ref.value, obs.value), 0, 0)
    else Ok(NoMatch)
  }

  /** Every score from position `i` on is a match. */
  predicate AllMatch(scores: seq<Result<Proximity, JavaException>>, i: nat) {
    forall j :: i <= j < |scores| ==> scores[j].Ok? && scores[j].value.Distance?
  }

  /** The sum of the half-steps from position `i` on, when they are all matches. */
  function PositionSum(scores: seq<Result<Proximity, JavaException>>, i: nat): nat
    requires i <= |scores| && AllMatch(scores, i)
    decreases |scores| - i
  {
    if i == |scores| then 0 else scores[i].value.halfSteps + PositionSum(scores, i + 1)
  }

  /** A list whose positions all match scores the sum of the positional half-steps. */
  lemma {:induction false} SumFromAllMatch(scores: seq<Result<Proximity, JavaException>>, i: nat, sum: nat)
    requires i <= |scores| && AllMatch(scores, i)
    ensures SumFrom(scores, i, sum) == Ok(Distance(sum + PositionSum(scores, i)))
    decreases |scores| - i
  {
    if i < |scores| {
      SumFromAllMatch(scores, i + 1, sum + scores[i].value.halfSteps);
    }
  }

  /** Position `j` is the first one that does not match, every earlier one matching. */
  predicate FirstMismatch(scores: seq<Result<Proximity, JavaException>>, j: int) {
    0 <= j < |scores| && scores[j] == Ok(NoMatch) && forall l :: 0 <= l < j ==> scores[l].Ok? && scores[l].value.Distance?
  }

  /** A position that does not match rejects the whole list when every earlier position matched. */
  lemma {:induction false} SumFromRejects(scores: seq<Result<Proximity, JavaException>>, i: nat, sum: nat, j: nat)
    requires i <= j && FirstMismatch(scores, j)
    ensures SumFrom(scores, i, sum) == Ok(NoMatch)
    decreases j - i
  {
    if i < j {
      SumFromRejects(scores, i + 1, sum + scores[i].value.halfSteps, j);
    }
  }

  /**
   * Two parameter lists of one length whose positions all match score the sum
   * of the positional scores; the first position that does not match, after
   * matching ones, makes the lists not match.
   */
  lemma ParameterListScore(cat: Catalogue, ref: seq<JType>, obs: seq<JType>)
    requires WellFormed(cat) && |ref| == |obs|
    ensures AllMatch(PositionScores(cat, ref, obs), 0) ==>
      ParameterTypesScore(cat, Some(ref), Some(obs)) == Ok(Distance(PositionSum(PositionScores(cat, ref, obs), 0)))
    ensures forall j :: FirstMismatch(PositionScores(cat, ref, obs), j) ==> ParameterTypesScore(cat, Some(ref), Some(obs)) == Ok(NoMatch)
  {
    var scores := PositionScores(cat, ref, obs);
    if AllMatch(scores, 0) {
      SumFromAllMatch(scores, 0, 0);
    }
    forall j | FirstMismatch(scores, j)
      ensures ParameterTypesScore(cat, Some(ref), Some(obs)) == Ok(NoMatch)
    {
      SumFromRejects(scores, 0, 0, j);
    }
  }

  /** Two test fixtures: FakeClass extends Object, FakeClass2 extends FakeClass. */
  const FakeClass := "j4r.lang.codetranslator.FakeClass"
  const FakeClass2 := "j4r.lang.codetranslator.FakeClass2"

  function FixtureCatalogue(): (cat: Catalogue)
    ensures WellFormed(cat)
  {
    Catalogue(
      map[FakeClass := ClassInfo(Some(ObjectClass), [], [], [], [], false, 1),
          FakeClass2 := ClassInfo(Some(FakeClass), [], [], [], [], false, 2)],
      map[], (a: JType, b: JType) => false, {})
  }

  /** An array of the subclass passed for an array of the superclass scores one step (1.0). */
  lemma SubclassArrayScoresOneStep()
    ensures ParameterTypesScore(FixtureCatalogue(), Some([ArrayOf(Named(FakeClass))]), Some([ArrayOf(Named(FakeClass2))])) == Ok(Distance(2))
  {
    var cat := FixtureCatalogue();
    var ref, obs := [ArrayOf(Named(FakeClass))], [ArrayOf(Named(FakeClass2))];
    assert FakeClass !in WrapperToPrimitive && FakeClass !in PrimitiveToWrapper;
    assert !Stops(cat, Named(FakeClass), Named(FakeClass2));
    assert Parent(cat, Named(FakeClass2)) == Some(Named(FakeClass));
    assert Walk(cat, Named(FakeClass), Named(FakeClass), 1) == Ok(Distance(2));
    assert PositionScores(cat, ref, obs) == [Ok(Distance(2))];
    assert SumFrom([Ok(Distance(2))], 1, 2) == Ok(Distance(2));
  }

  /** Passing the superclass where the subclass is declared does not match: the walk reaches Object. */
  lemma SuperclassDoesNotMatchSubclass()
    ensures IsAssignable(FixtureCatalogue(), Named(FakeClass2), Named(FakeClass)) == Ok(NoMatch)
  {
    var cat := FixtureCatalogue();
    assert Superclass(cat, Named(FakeClass)) == Some(Named(ObjectClass));
    assert Walk(cat, Named(FakeClass2), Named(ObjectClass), 1) == Ok(NoMatch);
  }

  // ---------------------------------------------------------------------------
  // Choosing the nearest method or constructor
  // ---------------------------------------------------------------------------

  /** `getSimpleName()` for the messages: the name after the last `.` or `$`, and `[]` per array level. */
  function SimpleName(t: JType): string {
    match t
    case ArrayOf(c) => SimpleName(c) + "[]"
    case Named(n) => AfterLast(n)
  }

  function AfterLast(n: string): (r: string)
    ensures |r| <= |n| && r == n[|n| - |r|..]
    ensures '.' !in r && '$' !in r
  {
    if n == "" then ""
    else if n[|n| - 1] == '.' || n[|n| - 1] == '$' then ""
    else
      var front := AfterLast(n[..|n| - 1]);
      assert n[|n| - |front| - 1..] == n[..|n| - 1][|n| - 1 - |front|..] + [n[|n| - 1]];
      front + [n[|n| - 1]]
  }

  /** The score a candidate gets against the observed argument classes. */
  function CandidateScore(cat: Catalogue, m: Member, obs: seq<JType>): Result<Proximity, JavaException>
    requires WellFormed(cat)
  {
    ParameterTypesScore(cat, Some(m.params), Some(obs))
  }

  /** A candidate that is considered at all: any constructor, or a method with the requested name. */
  predicate Considered(m: Member, name: Option<string>) {
    name.None? || m.name == name.value
  }

  /** What the loop computes for a candidate: its score when it is considered, None when it is skipped. */
  function Scored(cat: Catalogue, m: Member, name: Option<string>, obs: seq<JType>): Option<Result<Proximity, JavaException>>
    requires WellFormed(cat)
  {
    if Considered(m, name) then Some(CandidateScore(cat, m, obs)) else None
  }

  /** The score of every candidate, in catalogue order. */
  function Scores(cat: Catalogue, candidates: seq<Member>, name: Option<string>, obs: seq<JType>): (r: seq<Option<Result<Proximity, JavaException>>>)
    requires WellFormed(cat)
    ensures |r| == |candidates|
  {
    seq(|candidates|, j requires 0 <= j < |candidates| => Scored(cat, candidates[j], name, obs))
  }

  /** The half-steps of a score that matches: what the candidate is sorted by once it is a possible match. */
  function RankOf(s: Option<Result<Proximity, JavaException>>): Option<nat> {
    if s.Some? && s.value.Ok? && s.value.value.Distance? then Some(s.value.value.halfSteps) else None
  }

  /** The rank of every candidate, in catalogue order. */
  function Ranks(cat: Catalogue, candidates: seq<Member>, name: Option<string>, obs: seq<JType>): (r: seq<Option<nat>>)
    requires WellFormed(cat)
    ensures |r| == |candidates|
  {
    var scores := Scores(cat, candidates, name, obs);
    seq(|scores|, j requires 0 <= j < |scores| => RankOf(scores[j]))
  }

  /**
   * Among the first `n` ranks, rank `best` is `score`, no rank is lower, and
   * every rank before it is strictly higher or absent: the one a stable sort
   * by rank puts first.
   */
  predicate Leading(ranks: seq<Option<nat>>, n: nat, best: nat, score: nat)
    requires n <= |ranks|
  {
    best < n && ranks[best] == Some(score) &&
    (forall l :: 0 <= l < n && ranks[l].Some? ==> score <= ranks[l].value) &&
    (forall l :: 0 <= l < best && ranks[l].Some? ==> score < ranks[l].value)
  }

  /** Candidate `i` is the one the sort puts first. */
  predicate NearestAt(cat: Catalogue, candidates: seq<Member>, name: Option<string>, obs: seq<JType>, i: int)
    requires WellFormed(cat)
  {
    0 <= i < |candidates| && Ranks(cat, candidates, name, obs)[i].Some? &&
      Leading(Ranks(cat, candidates, name, obs), |candidates|, i, Ranks(cat, candidates, name, obs)[i].value)
  }

  /** `m` is the candidate the sort puts first. */
  ghost predicate IsNearest(cat: Catalogue, candidates: seq<Member>, name: Option<string>, obs: seq<JType>, m: Member)
    requires WellFormed(cat)
  {
    exists i :: NearestAt(cat, candidates, name, obs, i) && candidates[i] == m
  }

  /**
   * The head of the stably sorted list of matches, scanning from rank `i` with
   * the head `best` of the ranks before it: the first of the lowest ranks.
   */
  function SortedHeadFrom(ranks: seq<Option<nat>>, i: nat, best: Option<nat>): (r: Option<nat>)
    requires i <= |ranks|
    requires best.Some? ==> best.value < i && ranks[best.value].Some? && Leading(ranks, i, best.value, ranks[best.value].value)
    requires best.None? ==> forall l :: 0 <= l < i ==> ranks[l].None?
    ensures r.None? <==> forall l :: 0 <= l < |ranks| ==> ranks[l].None?
    ensures r.Some? ==> r.value < |ranks| && ranks[r.value].Some? && Leading(ranks, |ranks|, r.value, ranks[r.value].value)
    decreases |ranks| - i
  {
    if i == |ranks| then best
    else if ranks[i].Some? && (best.None? || ranks[i].value < ranks[best.value].value) then SortedHeadFrom(ranks, i + 1, Some(i))
    else SortedHeadFrom(ranks, i + 1, best)
  }

  /** Collections.sort then get(0) on the matches: the index of the first lowest rank, None without matches. */
  function SortedHead(ranks: seq<Option<nat>>): (r: Option<nat>)
    ensures r.None? <==> forall l :: 0 <= l < |ranks| ==> ranks[l].None?
    ensures r.Some? ==> r.value < |ranks| && ranks[r.value].Some? && Leading(ranks, |ranks|, r.value, ranks[r.value].value)
  {
    SortedHeadFrom(ranks, 0, None)
  }

  /** Every considered candidate before `n` is scored without an exception. */
  predicate ScoredWithoutError(cat: Catalogue, candidates: seq<Member>, name: Option<string>, obs: seq<JType>, n: nat)
    requires WellFormed(cat) && n <= |candidates|
  {
    forall l :: 0 <= l < n && Considered(candidates[l], name) ==> CandidateScore(cat, candidates[l], obs).Ok?
  }

  /** Scoring candidate `j` is the first to throw `e`. */
  predicate ThrowsFirstAt(cat: Catalogue, candidates: seq<Member>, name: Option<string>, obs: seq<JType>, j: int, e: JavaException)
    requires WellFormed(cat)
  {
    0 <= j < |candidates| && Considered(candidates[j], name) && CandidateScore(cat, candidates[j], obs) == Err(e) &&
    ScoredWithoutError(cat, candidates, name, obs, j)
  }

  /** No considered candidate matches. */
  predicate NoneMatch(cat: Catalogue, candidates: seq<Member>, name: Option<string>, obs: seq<JType>)
    requires WellFormed(cat)
  {
    forall l :: 0 <= l < |candidates| && Considered(candidates[l], name) ==> CandidateScore(cat, candidates[l], obs) == Ok(NoMatch)
  }

  /** No score from position `i` up to `j` throws. */
  predicate OkBetween(scores: seq<Option<Result<Proximity, JavaException>>>, i: nat, j: nat)
    requires i <= j <= |scores|
  {
    forall l :: i <= l < j && scores[l].Some? ==> scores[l].value.Ok?
  }

  /** Score `j` is the first from position `i` on to throw `e`. */
  predicate FirstThrowAt(scores: seq<Option<Result<Proximity, JavaException>>>, i: nat, j: nat, e: JavaException)
    requires i <= j < |scores|
  {
    scores[j] == Some(Err(e)) && OkBetween(scores, i, j)
  }

  /** The exception of the first score, from position `i` on, that throws. */
  function FirstError(scores: seq<Option<Result<Proximity, JavaException>>>, i: nat): (r: Option<JavaException>)
    requires i <= |scores|
    ensures r.None? <==> OkBetween(scores, i, |scores|)
    ensures r.Some? ==> exists j :: i <= j < |scores| && FirstThrowAt(scores, i, j, r.value)
    decreases |scores| - i
  {
    if i == |scores| then None
    else if scores[i].Some? && scores[i].value.Err? then
      assert FirstThrowAt(scores, i, i, scores[i].value.error);
      Some(scores[i].value.error)
    else
      var r := FirstError(scores, i + 1);
      if r.Some? then
        var j :| i + 1 <= j < |scores| && FirstThrowAt(scores, i + 1, j, r.value);
        assert FirstThrowAt(scores, i, j, r.value);
        r
      else r
  }

  /** A score that does not throw passes the search for the first exception on to the next position. */
  lemma FirstErrorSkips(scores: seq<Option<Result<Proximity, JavaException>>>, i: nat)
    requires i < |scores| && (scores[i].None? || scores[i].value.Ok?)
    ensures FirstError(scores, i) == FirstError(scores, i + 1)
  {
  }

  /** The ranks of the first `n` scores. */
  predicate RanksUpTo(matches: seq<Option<nat>>, scores: seq<Option<Result<Proximity, JavaException>>>, n: nat)
    requires n <= |scores|
  {
    |matches| == n && forall l :: 0 <= l < n ==> matches[l] == RankOf(scores[l])
  }

  /** Appending the rank of score `n` extends the ranks of the first `n` scores by one. */
  lemma RanksUpToStep(matches: seq<Option<nat>>, scores: seq<Option<Result<Proximity, JavaException>>>, n: nat)
    requires n < |scores| && RanksUpTo(matches, scores, n)
    ensures RanksUpTo(matches + [RankOf(scores[n])], scores, n + 1)
  {
  }

  /** The NoSuchMethodException message of findNearestMethod (with `name`) or findNearestConstructor. */
  function NotFoundMessage(cls: JType, name: Option<string>): string {
    if name.Some? then "Method " + name.value + " cannot be found in the class " + SimpleName(cls)
    else "No public constructor was found in the class " + SimpleName(cls)
  }

  /**
   * findNearestMethod (with `name`) and findNearestConstructor (without): the
   * exception of a score that throws, else the head of the matches sorted by
   * score, else NoSuchMethodException.
   */
  function Nearest(cat: Catalogue, cls: JType, candidates: seq<Member>, name: Option<string>, obs: seq<JType>): Result<Member, JavaException>
    requires WellFormed(cat)
  {
    match FirstError(Scores(cat, candidates, name, obs), 0)
    case Some(e) => Err(e)
    case None =>
      match SortedHead(Ranks(cat, candidates, name, obs))
      case None => Err(NoSuchMethod(NotFoundMessage(cls, name)))
      case Some(k) => Ok(candidates[k])
  }

  /**
   * The choice of findNearestMethod and findNearestConstructor: the candidate a
   * stable sort by score puts first; NoSuchMethodException exactly when no
   * considered candidate matches; otherwise the exception of the first
   * candidate whose score throws.
   */
  lemma NearestChoice(cat: Catalogue, cls: JType, candidates: seq<Member>, name: Option<string>, obs: seq<JType>)
    requires WellFormed(cat)
    ensures var r := Nearest(cat, cls, candidates, name, obs);
      (r.Ok? ==> IsNearest(cat, candidates, name, obs, r.value)) &&
      (r.Err? && r.error.NoSuchMethod? <==> NoneMatch(cat, candidates, name, obs)) &&
      (r.Err? && r.error.NoSuchMethod? ==> r.error.message == NotFoundMessage(cls, name)) &&
      (r.Err? && !r.error.NoSuchMethod? ==> exists j :: ThrowsFirstAt(cat, candidates, name, obs, j, r.error))
  {
    var scores := Scores(cat, candidates, name, obs);
    var ranks := Ranks(cat, candidates, name, obs);
    match FirstError(scores, 0)
    case Some(e) =>
      var j :| 0 <= j < |scores| && FirstThrowAt(scores, 0, j, e);
      assert scores[j] == Scored(cat, candidates[j], name, obs);
      forall l | 0 <= l < j && Considered(candidates[l], name)
        ensures CandidateScore(cat, candidates[l], obs).Ok?
      {
        assert scores[l] == Scored(cat, candidates[l], name, obs);
      }
      assert ThrowsFirstAt(cat, candidates, name, obs, j, e);
      assert e == NullPointer;
    case None =>
      match SortedHead(ranks)
      case None =>
        forall l | 0 <= l < |candidates| && Considered(candidates[l], name)
          ensures CandidateScore(cat, candidates[l], obs) == Ok(NoMatch)
        {
          assert scores[l] == Scored(cat, candidates[l], name, obs);
          assert ranks[l] == RankOf(scores[l]);
        }
      case Some(k) =>
        assert NearestAt(cat, candidates, name, obs, k);
        assert scores[k] == Scored(cat, candidates[k], name, obs);
        assert ranks[k] == RankOf(scores[k]);
        assert CandidateScore(cat, candidates[k], obs) != Ok(NoMatch);
  }

  /**
   * The loop of findNearestMethod and findNearestConstructor: it scores every
   * considered candidate into the list of possible matches (kept here as the
   * rank of every candidate scanned) and stops at the first score that throws.
   */
  method ScanCandidates(cat: Catalogue, candidates: seq<Member>, name: Option<string>, obs: seq<JType>)
    returns (r: Result<seq<Option<nat>>, JavaException>)
    requires WellFormed(cat)
    ensures r.Err? ==> FirstError(Scores(cat, candidates, name, obs), 0) == Some(r.error)
    ensures r.Ok? ==> FirstError(Scores(cat, candidates, name, obs), 0).None? && r.value == Ranks(cat, candidates, name, obs)
  {
    ghost var scores := Scores(cat, candidates, name, obs);
    var matches: seq<Option<nat>> := [];
    var i := 0;
    while i < |candidates|
      invariant 0 <= i <= |candidates|
      invariant FirstError(scores, 0) == FirstError(scores, i)
      invariant RanksUpTo(matches, scores, i)
    {
      var score := Scored(cat, candidates[i], name, obs);
      assert scores[i] == score;
      if score.Some? && score.value.Err? {
        return Err(score.value.error);
      }
      FirstErrorSkips(scores, i);
      RanksUpToStep(matches, scores, i);
      matches := matches + [RankOf(score)];
      i := i + 1;
    }
    return Ok(matches);
  }

  /** findNearestMethod and findNearestConstructor: the head of the sorted matches, or the exception. */
  method FindNearest(cat: Catalogue, cls: JType, candidates: seq<Member>, name: Option<string>, obs: seq<JType>)
    returns (r: Result<Member, JavaException>)
    requires WellFormed(cat)
    ensures r == Nearest(cat, cls, candidates, name, obs)
  {
    var scanned := ScanCandidates(cat, candidates, name, obs);
    if scanned.Err? {
      return Err(scanned.error);
    }
    var head := SortedHead(scanned.value);
    if head.None? {
      return Err(NoSuchMethod(NotFoundMessage(cls, name)));
    }
    return Ok(candidates[head.value]);
  }
}
