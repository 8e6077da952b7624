/**
 * The string and list helpers of J4RSystem: the split of the `java.version`
 * property into version and revision, the major-version parser and
 * comparison, the handling of command-line arguments, and the search of
 * class-path patterns among the class-path URLs.
 */
module J4RSystem {
  import opened Wrappers
  import opened JavaText
  import opened TypeCatalogue

  const UnknownRevision := "unknown"

  /**
   * The static initialiser: the version before the first `_` and the
   * revision after it; without `_` the substring call throws and the whole
   * property is the version, with an unknown revision.
   */
  function VersionAndRevision(completeJREVersion: string): (r: (string, string))
    ensures '_' in completeJREVersion ==> r.0 + "_" + r.1 == completeJREVersion && '_' !in r.0
    ensures '_' !in completeJREVersion ==> r == (completeJREVersion, UnknownRevision)
  {
    var k := IndexOf(completeJREVersion, '_');
    if k == -1 then (completeJREVersion, UnknownRevision)
    else
      assert completeJREVersion[..k] + "_" + completeJREVersion[k + 1..] == completeJREVersion by {
        assert completeJREVersion == completeJREVersion[..k] + [completeJREVersion[k]] + completeJREVersion[k + 1..];
      }
      (completeJREVersion[..k], completeJREVersion[k + 1..])
  }

  /**
   * parseJVMVersion: the first `.`-separated component, or the second when
   * the first is 1 (`1.8.0` is Java 8, `11.0.6` is Java 11). A missing
   * component is an index out of bounds, a non-number a NumberFormatException.
   */
  function ParseJVMVersion(jvmVersion: string): (r: Result<int, JavaException>)
    ensures r.Ok? ==> IsInt32(r.value)
  {
    var splittedDigits := Split(jvmVersion, ".");
    if splittedDigits == [] then Err(IndexOutOfBounds)
    else
      match ParseInt(splittedDigits[0])
      case None => Err(NumberFormat(splittedDigits[0]))
      case Some(firstInteger) =>
        if firstInteger != 1 then Ok(firstInteger)
        else if |splittedDigits| < 2 then Err(IndexOutOfBounds)
        else
          match ParseInt(splittedDigits[1])
          case None => Err(NumberFormat(splittedDigits[1]))
          case Some(second) => Ok(second)
  }

  /**
   * A version printed as integer components joined by `.` parses to its
   * first component, or to its second when the first is 1.
   */
  lemma ParseJVMVersionOfComponents(xs: seq<int>)
    requires xs != [] && forall k :: 0 <= k < |xs| ==> IsInt32(xs[k])
    requires xs[0] == 1 ==> |xs| >= 2
    ensures ParseJVMVersion(Join(IntTexts(xs), ".")) == Ok(if xs[0] != 1 then xs[0] else xs[1])
  {
    SplitJoinInts(xs, ".");
    ParseIntToString(xs[0]);
    if xs[0] == 1 {
      ParseIntToString(xs[1]);
    }
  }

  /** The legacy version style the comment of parseJVMVersion names: `1.8.0` is Java 8. */
  lemma LegacyVersionExample()
    ensures ParseJVMVersion("1.8.0") == Ok(8)
  {
    assert IntTexts([1, 8, 0]) == ["1", "8", "0"];
    assert Join(["1", "8", "0"], ".") == "1.8.0";
    ParseJVMVersionOfComponents([1, 8, 0]);
  }

  /** The modern version style the comment of parseJVMVersion names: `11.0.6` is Java 11. */
  lemma ModernVersionExample()
    ensures ParseJVMVersion("11.0.6") == Ok(11)
  {
    assert IntToString(11) == "11" by {
      assert NatToString(11) == NatToString(1) + "1";
    }
    assert IntTexts([11, 0, 6]) == ["11", "0", "6"];
    assert Join(["11", "0", "6"], ".") == "11.0.6";
    ParseJVMVersionOfComponents([11, 0, 6]);
  }

  /**
   * isCurrentJVMLaterThanThisVersion: a strict comparison of the majors of
   * the running version (the version part of `java.version`) and the target;
   * the flag `upToThirdDigit` plays no part. A parse failure of the running
   * version is reported before one of the target.
   */
  function IsCurrentJVMLaterThanThisVersion(completeJREVersion: string, targetJVM: string, upToThirdDigit: bool): (r: Result<bool, JavaException>)
    ensures var current := ParseJVMVersion(VersionAndRevision(completeJREVersion).0);
      var target := ParseJVMVersion(targetJVM);
      (r.Ok? <==> current.Ok? && target.Ok?) &&
      (r.Ok? ==> (r.value <==> current.value > target.value)) &&
      (current.Err? ==> r == Err(current.error)) &&
      (current.Ok? && target.Err? ==> r == Err(target.error))
  {
    var currentVersion :- ParseJVMVersion(VersionAndRevision(completeJREVersion).0);
    var targetVersion :- ParseJVMVersion(targetJVM);
    if currentVersion > targetVersion then Ok(true) else Ok(false)
  }

  /** Both overloads agree: the flag never changes the answer, and no version is later than itself. */
  lemma LaterThanIgnoresFlag(completeJREVersion: string, targetJVM: string)
    ensures IsCurrentJVMLaterThanThisVersion(completeJREVersion, targetJVM, true) ==
            IsCurrentJVMLaterThanThisVersion(completeJREVersion, targetJVM, false)
    ensures var v := VersionAndRevision(completeJREVersion).0;
      IsCurrentJVMLaterThanThisVersion(completeJREVersion, v, false).Ok? ==>
        !IsCurrentJVMLaterThanThisVersion(completeJREVersion, v, false).value
  {
  }

  /** setClassicalOptions: the arguments as a list, in the same order (empty for no arguments). */
  function SetClassicalOptions(args: seq<string>): (r: seq<string>)
    ensures |r| == |args| && forall k :: 0 <= k < |args| ==> r[k] == args[k]
  {
    if |args| == 0 then [] else args
  }

  /** `List.indexOf`: the first position holding `x`, -1 when there is none. */
  function IndexOfElement(list: seq<string>, x: string): (r: int)
    ensures -1 <= r < |list|
    ensures r == -1 <==> x !in list
    ensures r >= 0 ==> list[r] == x && x !in list[..r]
  {
    if list == [] then -1
    else if list[0] == x then 0
    else
      var k := IndexOfElement(list[1..], x);
      if k == -1 then -1
      else
        assert list[..k + 1] == [list[0]] + list[1..][..k];
        k + 1
  }

  /** retrieveArgument: the element right after the first occurrence of the option; `null` when absent or last. */
  function RetrieveArgument(option: string, argumentList: seq<string>): (r: Option<string>)
    ensures r.Some? <==> option in argumentList && IndexOfElement(argumentList, option) + 1 < |argumentList|
    ensures r.Some? ==> r.value == argumentList[IndexOfElement(argumentList, option) + 1]
  {
    if option in argumentList && IndexOfElement(argumentList, option) + 1 < |argumentList| then
      Some(argumentList[IndexOfElement(argumentList, option) + 1])
    else None
  }

  /** An option followed by a value, with no earlier occurrence of the option, retrieves that value. */
  lemma RetrieveArgumentFindsValue(before: seq<string>, option: string, value: string, after: seq<string>)
    requires option !in before
    ensures RetrieveArgument(option, before + [option, value] + after) == Some(value)
  {
    var list := before + [option, value] + after;
    assert list[|before|] == option && list[|before| + 1] == value;
    assert list[..|before|] == before;
    var k := IndexOfElement(list, option);
    assert k == |before|;
  }

  /** An option that is absent, or only present as the last argument, retrieves nothing. */
  lemma RetrieveArgumentAbsentOrLast(before: seq<string>, option: string)
    requires option !in before
    ensures RetrieveArgument(option, before) == None
    ensures RetrieveArgument(option, before + [option]) == None
  {
    var list := before + [option];
    assert list[..|before|] == before;
    var k := IndexOfElement(list, option);
    assert k == |before|;
  }

  // ---------------------------------------------------------------------------
  // checkIfPatternsAreInClassPath
  // ---------------------------------------------------------------------------

  /** Some URL of the class path contains the pattern. */
  predicate FoundIn(pattern: string, urls: seq<string>) {
    exists k :: 0 <= k < |urls| && Contains(urls[k], pattern)
  }

  /** The patterns that no URL contains, in the order of the patterns. */
  function Missing(patterns: seq<string>, urls: seq<string>): (r: seq<string>)
    ensures |r| <= |patterns|
  {
    if patterns == [] then []
    else
      var last := patterns[|patterns| - 1];
      Missing(patterns[..|patterns| - 1], urls) + (if FoundIn(last, urls) then [] else [last])
  }

  /** A pattern is reported exactly when it is one of the patterns and no URL contains it. */
  lemma {:induction false} MissingMembers(patterns: seq<string>, urls: seq<string>)
    ensures forall p :: p in Missing(patterns, urls) <==> p in patterns && !FoundIn(p, urls)
    decreases |patterns|
  {
    if patterns != [] {
      var front := patterns[..|patterns| - 1];
      MissingMembers(front, urls);
      assert patterns == front + [patterns[|patterns| - 1]];
    }
  }

  /** The search distributes over concatenation, so the reported patterns keep the input order. */
  lemma {:induction false} MissingAppend(ps: seq<string>, qs: seq<string>, urls: seq<string>)
    ensures Missing(ps + qs, urls) == Missing(ps, urls) + Missing(qs, urls)
    decreases |qs|
  {
    if qs == [] {
      assert ps + qs == ps;
    } else {
      var front := qs[..|qs| - 1];
      MissingAppend(ps, front, urls);
      assert (ps + qs)[..|ps + qs| - 1] == ps + front;
    }
  }

  /**
   * checkIfPatternsAreInClassPath with the class-path URLs given: for each
   * pattern, the URLs are scanned until one contains it; the patterns left
   * unmatched are returned.
   */
  method CheckIfPatternsAreInClassPath(patterns: seq<string>, currentURLs: seq<string>) returns (patternsNotFound: seq<string>)
    ensures patternsNotFound == Missing(patterns, currentURLs)
  {
    patternsNotFound := [];
    var i := 0;
    while i < |patterns|
      invariant 0 <= i <= |patterns|
      invariant patternsNotFound == Missing(patterns[..i], currentURLs)
    {
      var p := patterns[i];
      var found := false;
      var j := 0;
      while j < |currentURLs|
        invariant 0 <= j <= |currentURLs|
        invariant forall k :: 0 <= k < j ==> !Contains(currentURLs[k], p)
      {
        if Contains(currentURLs[j], p) {
          found := true;
          break;
        }
        j := j + 1;
      }
      assert found <==> FoundIn(p, currentURLs);
      if !found {
        patternsNotFound := patternsNotFound + [p];
      }
      assert patterns[..i + 1][..i] == patterns[..i];
      i := i + 1;
    }
    assert patterns[..i] == patterns;
  }

  /** The library names of the pattern test are reported, in order, when the class path holds only junit and hamcrest. */
  lemma PatternsExample()
    ensures Missing(["junit", "hamcrest", "myLibrary1", "myLibrary2"], ["junit.jar", "hamcrest"]) == ["myLibrary1", "myLibrary2"]
  {
    var urls := ["junit.jar", "hamcrest"];
    assert Contains(urls[0], "junit") by { assert MatchAt(urls[0], "junit", 0); }
    assert FoundIn("junit", urls);
    assert Contains(urls[1], "hamcrest") by { assert MatchAt(urls[1], "hamcrest", 0); }
    assert FoundIn("hamcrest", urls);
    assert !FoundIn("myLibrary1", urls) && !FoundIn("myLibrary2", urls);
    var ps := ["junit", "hamcrest", "myLibrary1", "myLibrary2"];
    assert Missing(ps[..1], urls) == [] by {
      assert ps[..1][..0] == [];
    }
    assert Missing(ps[..2], urls) == [] by {
      assert ps[..2][..1] == ps[..1];
    }
    assert Missing(ps[..3], urls) == ["myLibrary1"] by {
      assert ps[..3][..2] == ps[..2];
    }
    assert ps[..3] == ps[..|ps| - 1];
  }
}
