/**
 * The pieces of java.lang.String and java.lang.Integer that the server's textual
 * protocol is built on, stated exactly: split with a literal delimiter, the
 * decimal integer parser and printer, trim, prefix, substring and index search.
 */
module JavaText {
  import opened Wrappers

  predicate StartsWith(s: string, prefix: string) {
    |prefix| <= |s| && s[..|prefix|] == prefix
  }

  /** `s.contains(p)`: p occurs somewhere in s. */
  predicate Contains(s: string, p: string) {
    exists i :: 0 <= i <= |s| && MatchAt(s, p, i)
  }

  /** `d` occurs in `s` starting at position `i`. */
  predicate MatchAt(s: string, d: string, i: int) {
    0 <= i && i + |d| <= |s| && s[i..i + |d|] == d
  }

  predicate IsInt32(n: int) {
    -0x8000_0000 <= n < 0x8000_0000
  }

  predicate IsInt64(n: int) {
    -0x8000_0000_0000_0000 <= n < 0x8000_0000_0000_0000
  }

  // ---------------------------------------------------------------------------
  // String.split with a literal (metacharacter-free) delimiter
  // ---------------------------------------------------------------------------

  /** The fields between the leftmost non-overlapping occurrences of `d`, all kept. */
  function SplitFields(s: string, d: string): (r: seq<string>)
    requires |d| > 0
    ensures |r| >= 1
    decreases |s|
  {
    if |d| <= |s| && s[..|d|] == d then [""] + SplitFields(s[|d|..], d)
    else if s == [] then [""]
    else
      var rest := SplitFields(s[1..], d);
      [[s[0]] + rest[0]] + rest[1..]
  }

  /** Java drops the trailing empty strings of a split (limit 0). */
  function DropTrailingEmpty(fields: seq<string>): (r: seq<string>)
    ensures r <= fields
    ensures r == [] || r[|r| - 1] != ""
    ensures forall i :: |r| <= i < |fields| ==> fields[i] == ""
  {
    if fields == [] then []
    else if fields[|fields| - 1] == "" then DropTrailingEmpty(fields[..|fields| - 1])
    else fields
  }

  /**
   * `s.split(d)`: when nothing matches the result is `[s]` (so `""` gives `[""]`),
   * otherwise the fields with trailing empty ones removed (so `"/;"` gives `[]`).
   */
  function Split(s: string, d: string): (r: seq<string>)
    requires |d| > 0
    ensures s == "" ==> r == [""]
    ensures s != "" ==> r == [] || r[|r| - 1] != ""
  {
    if s == "" then [""] else DropTrailingEmpty(SplitFields(s, d))
  }

  /** The inverse of split for well-behaved parts: parts separated by `d`. */
  function Join(parts: seq<string>, d: string): string {
    if parts == [] then ""
    else if |parts| == 1 then parts[0]
    else parts[0] + d + Join(parts[1..], d)
  }

  /** No occurrence of `d` starts before position `n` of `s`. */
  ghost predicate NoMatchBefore(s: string, d: string, n: int) {
    forall i :: 0 <= i < n ==> !MatchAt(s, d, i)
  }

  /** Dropping the first character keeps the delimiter absent from the shorter prefix. */
  lemma NoMatchShifts(s: string, d: string, n: nat)
    requires 0 < n <= |s| && NoMatchBefore(s, d, n)
    ensures NoMatchBefore(s[1..], d, n - 1)
  {
    var t := s[1..];
    forall i | 0 <= i < n - 1
      ensures !MatchAt(t, d, i)
    {
      assert !MatchAt(s, d, i + 1);
      if i + |d| <= |t| {
        assert t[i..i + |d|] == s[i + 1..i + 1 + |d|];
      }
    }
  }

  /** The first field of a split ends at the first occurrence of the delimiter. */
  lemma {:induction false} SplitFieldsAt(s: string, d: string, n: nat)
    requires |d| > 0 && n + |d| <= |s| && s[n..n + |d|] == d
    requires NoMatchBefore(s, d, n)
    ensures SplitFields(s, d) == [s[..n]] + SplitFields(s[n + |d|..], d)
    decreases n
  {
    if n == 0 {
      assert s[..|d|] == d;
    } else {
      assert !MatchAt(s, d, 0);
      assert !(|d| <= |s| && s[..|d|] == d);
      var t := s[1..];
      assert t[n - 1..n - 1 + |d|] == s[n..n + |d|];
      NoMatchShifts(s, d, n);
      var rest := SplitFields(t, d);
      assert SplitFields(s, d) == [[s[0]] + rest[0]] + rest[1..];
      SplitFieldsAt(t, d, n - 1);
      assert rest[0] == t[..n - 1];
      assert rest[1..] == SplitFields(t[n - 1 + |d|..], d);
      assert t[n - 1 + |d|..] == s[n + |d|..];
      assert [s[0]] + t[..n - 1] == s[..n];
    }
  }

  /** A string in which the delimiter never occurs splits into itself. */
  lemma {:induction false} SplitFieldsNone(s: string, d: string)
    requires |d| > 0 && NoMatchBefore(s, d, |s|)
    ensures SplitFields(s, d) == [s]
    decreases |s|
  {
    if s == [] {
    } else {
      assert !MatchAt(s, d, 0);
      var t := s[1..];
      NoMatchShifts(s, d, |s|);
      SplitFieldsNone(t, d);
      assert [s[0]] + t == s;
    }
  }

  /** A text in which the delimiter never occurs splits into the text itself. */
  lemma SplitWithoutDelimiter(s: string, d: string)
    requires |d| > 0 && NoMatchBefore(s, d, |s|)
    ensures Split(s, d) == [s]
  {
    if s != "" {
      SplitFieldsNone(s, d);
    }
  }

  /** When no part contains the delimiter's first character, splitting a join gives the parts back. */
  lemma {:induction false} SplitFieldsJoin(parts: seq<string>, d: string)
    requires |d| > 0 && |parts| > 0
    requires forall k :: 0 <= k < |parts| ==> d[0] !in parts[k]
    ensures SplitFields(Join(parts, d), d) == parts
    decreases |parts|
  {
    var p := parts[0];
    if |parts| == 1 {
      forall i | 0 <= i < |p|
        ensures !MatchAt(p, d, i)
      {
        if i + |d| <= |p| {
          assert p[i] == p[i..i + |d|][0];
        }
      }
      SplitFieldsNone(p, d);
    } else {
      var rest := Join(parts[1..], d);
      var s := p + d + rest;
      assert s[..|p|] == p && s[|p|..|p| + |d|] == d;
      forall i | 0 <= i < |p|
        ensures !MatchAt(s, d, i)
      {
        assert s[i..i + |d|][0] == p[i];
      }
      SplitFieldsAt(s, d, |p|);
      assert s[|p| + |d|..] == rest;
      SplitFieldsJoin(parts[1..], d);
      assert parts == [p] + parts[1..];
    }
  }

  /** `Join(parts, d).split(d) == parts` when no part holds `d[0]` and the last part is not empty. */
  lemma SplitJoin(parts: seq<string>, d: string)
    requires |d| > 0 && |parts| > 0 && parts[|parts| - 1] != ""
    requires forall k :: 0 <= k < |parts| ==> d[0] !in parts[k]
    ensures Split(Join(parts, d), d) == parts
  {
    SplitFieldsJoin(parts, d);
    JoinEndsWithLast(parts, d);
  }

  lemma {:induction false} JoinEndsWithLast(parts: seq<string>, d: string)
    requires |parts| > 0
    ensures |Join(parts, d)| >= |parts[|parts| - 1]|
    ensures Join(parts, d)[|Join(parts, d)| - |parts[|parts| - 1]|..] == parts[|parts| - 1]
    decreases |parts|
  {
    if |parts| > 1 {
      JoinEndsWithLast(parts[1..], d);
    }
  }

  /** Appending a part to a non-empty join appends the delimiter and the part. */
  lemma {:induction false} JoinAppend(parts: seq<string>, p: string, d: string)
    requires |parts| > 0
    ensures Join(parts + [p], d) == Join(parts, d) + d + p
    decreases |parts|
  {
    if |parts| > 1 {
      JoinAppend(parts[1..], p, d);
      assert (parts + [p])[1..] == parts[1..] + [p];
    }
  }

  /** A character found in no part and not in the delimiter is not in the join. */
  lemma {:induction false} JoinAvoids(parts: seq<string>, d: string, c: char)
    requires c !in d && forall k :: 0 <= k < |parts| ==> c !in parts[k]
    ensures c !in Join(parts, d)
    decreases |parts|
  {
    if |parts| > 1 {
      JoinAvoids(parts[1..], d, c);
    }
  }

  lemma JoinStartsWithFirst(parts: seq<string>, d: string)
    requires |parts| > 0
    ensures StartsWith(Join(parts, d), parts[0])
  {
    if |parts| > 1 {
      assert Join(parts, d) == parts[0] + (d + Join(parts[1..], d));
    }
  }

  // ---------------------------------------------------------------------------
  // Integer.parseInt / Long.parseLong and Integer.toString
  // ---------------------------------------------------------------------------

  predicate IsDigit(c: char) {
    '0' <= c <= '9'
  }

  predicate AllDigits(s: string) {
    forall i :: 0 <= i < |s| ==> IsDigit(s[i])
  }

  /** The value of a string of decimal digits, most significant first. */
  function DigitsValue(s: string): nat
    requires AllDigits(s)
  {
    if s == [] then 0
    else 10 * DigitsValue(s[..|s| - 1]) + (s[|s| - 1] as int - '0' as int)
  }

  /**
   * Parses an optional `-` or `+` followed by at least one decimal digit, and
   * accepts the value only inside `[lo, hi]`; anything else is the
   * NumberFormatException of Integer.parseInt / Long.parseLong.
   */
  function ParseDecimal(s: string, lo: int, hi: int): (r: Option<int>)
    ensures r.Some? ==> lo <= r.value <= hi
    ensures r.Some? ==> IsNumeral(s)
    ensures s != "" && AllDigits(s) && lo <= DigitsValue(s) <= hi ==> r == Some(DigitsValue(s))
  {
    if s == "" then None
    else
      var negative := s[0] == '-';
      var digits := if s[0] == '-' || s[0] == '+' then s[1..] else s;
      if digits == "" || !AllDigits(digits) then None
      else
        var magnitude: int := DigitsValue(digits);
        var v := if negative then -magnitude else magnitude;
        if lo <= v <= hi then Some(v) else None
  }

  /** A decimal numeral: an optional sign and at least one digit. */
  predicate IsNumeral(s: string) {
    s != "" && (IsDigit(s[0]) || ((s[0] == '-' || s[0] == '+') && |s| > 1)) && AllDigits(s[1..])
  }

  /** Integer.parseInt: only a numeral inside the 32-bit range parses; digits alone parse to their value. */
  function ParseInt(s: string): (r: Option<int>)
    ensures r.Some? ==> IsInt32(r.value) && IsNumeral(s)
    ensures s != "" && AllDigits(s) && DigitsValue(s) <= 0x7FFF_FFFF ==> r == Some(DigitsValue(s))
  {
    ParseDecimal(s, -0x8000_0000, 0x7FFF_FFFF)
  }

  /** Long.parseLong: the same in the 64-bit range. */
  function ParseLong(s: string): (r: Option<int>)
    ensures r.Some? ==> IsInt64(r.value) && IsNumeral(s)
    ensures s != "" && AllDigits(s) && DigitsValue(s) <= 0x7FFF_FFFF_FFFF_FFFF ==> r == Some(DigitsValue(s))
  {
    ParseDecimal(s, -0x8000_0000_0000_0000, 0x7FFF_FFFF_FFFF_FFFF)
  }

  function NatToString(n: nat): string {
    if n < 10 then [('0' as int + n) as char]
    else NatToString(n / 10) + [('0' as int + n % 10) as char]
  }

  /** Integer.toString / String concatenation of an int. */
  function IntToString(n: int): string {
    if n < 0 then "-" + NatToString(-n) else NatToString(n)
  }

  lemma {:induction false} NatToStringDigits(n: nat)
    ensures NatToString(n) != "" && AllDigits(NatToString(n))
    ensures DigitsValue(NatToString(n)) == n
    decreases n
  {
    if n >= 10 {
      NatToStringDigits(n / 10);
      var s := NatToString(n);
      assert s[..|s| - 1] == NatToString(n / 10);
    }
  }

  /** Printing an integer and parsing it back within a range that holds it gives the integer. */
  lemma ParseDecimalToString(n: int, lo: int, hi: int)
    requires lo <= n <= hi
    ensures ParseDecimal(IntToString(n), lo, hi) == Some(n)
  {
    var s := IntToString(n);
    if n < 0 {
      NatToStringDigits(-n);
      assert s[0] == '-' && s[1..] == NatToString(-n);
    } else {
      NatToStringDigits(n);
      assert IsDigit(s[0]);
    }
  }

  /** Printing an int and parsing it back gives the int: the wire's numbers round-trip. */
  lemma ParseIntToString(n: int)
    requires IsInt32(n)
    ensures ParseInt(IntToString(n)) == Some(n)
  {
    ParseDecimalToString(n, -0x8000_0000, 0x7FFF_FFFF);
  }

  /** The same round trip for Long.parseLong. */
  lemma ParseLongToString(n: int)
    requires IsInt64(n)
    ensures ParseLong(IntToString(n)) == Some(n)
  {
    ParseDecimalToString(n, -0x8000_0000_0000_0000, 0x7FFF_FFFF_FFFF_FFFF);
  }

  /** The decimal texts of `xs`, in order. */
  function IntTexts(xs: seq<int>): (r: seq<string>)
    ensures |r| == |xs|
    ensures forall k :: 0 <= k < |xs| ==> r[k] == IntToString(xs[k])
  {
    if xs == [] then [] else [IntToString(xs[0])] + IntTexts(xs[1..])
  }

  /** Printing one more int appends its text. */
  lemma IntTextsAppend(xs: seq<int>, x: int)
    ensures IntTexts(xs + [x]) == IntTexts(xs) + [IntToString(x)]
  {
  }

  /** A printed int consists of digits and at most a leading minus sign. */
  lemma IntToStringAlphabet(n: int)
    ensures IntToString(n) != ""
    ensures forall i :: 0 <= i < |IntToString(n)| ==> IsDigit(IntToString(n)[i]) || IntToString(n)[i] == '-'
  {
    NatToStringDigits(if n < 0 then -n else n);
  }

  /** Printed ints joined with a delimiter that no printed int contains split back into the printed ints. */
  lemma SplitJoinInts(xs: seq<int>, d: string)
    requires xs != [] && |d| > 0 && !IsDigit(d[0]) && d[0] != '-'
    ensures Split(Join(IntTexts(xs), d), d) == IntTexts(xs)
  {
    var texts := IntTexts(xs);
    forall k | 0 <= k < |texts|
      ensures d[0] !in texts[k]
    {
      IntToStringAlphabet(xs[k]);
    }
    IntToStringAlphabet(xs[|xs| - 1]);
    SplitJoin(texts, d);
  }

  // ---------------------------------------------------------------------------
  // trim, toLowerCase, indexOf, substring search
  // ---------------------------------------------------------------------------

  /** String.trim removes every leading and trailing character at or below U+0020. */
  function Trim(s: string): (r: string)
    ensures |r| <= |s|
    ensures r == [] || (r[0] > ' ' && r[|r| - 1] > ' ')
  {
    TrimEnd(TrimStart(s))
  }

  /** Trim keeps a slice of `s`, and everything it drops on either side is at or below U+0020. */
  lemma TrimKeepsSlice(s: string)
    ensures TrimmedLead(s) + |Trim(s)| <= |s| && Trim(s) == s[TrimmedLead(s)..TrimmedLead(s) + |Trim(s)|]
    ensures forall k :: 0 <= k < TrimmedLead(s) ==> s[k] <= ' '
    ensures forall k :: TrimmedLead(s) + |Trim(s)| <= k < |s| ==> s[k] <= ' '
  {
    TrimTail(s, TrimStart(s));
  }

  /** What TrimEnd drops from a suffix of `s` is at the end of `s`. */
  lemma TrimTail(s: string, t: string)
    requires |t| <= |s| && t == s[|s| - |t|..]
    ensures forall k :: |s| - |t| + |TrimEnd(t)| <= k < |s| ==> s[k] <= ' '
    ensures TrimEnd(t) == s[|s| - |t|..|s| - |t| + |TrimEnd(t)|]
  {
    var lead := |s| - |t|;
    assert TrimEnd(t) == t[..|TrimEnd(t)|];
    forall k | lead + |TrimEnd(t)| <= k < |s|
      ensures s[k] <= ' '
    {
      assert s[k] == t[k - lead];
    }
  }

  /** How many characters trim drops at the start. */
  function TrimmedLead(s: string): nat {
    |s| - |TrimStart(s)|
  }

  function TrimStart(s: string): (r: string)
    ensures r == [] || r[0] > ' '
    ensures |r| <= |s| && r == s[|s| - |r|..]
    ensures forall k :: 0 <= k < |s| - |r| ==> s[k] <= ' '
  {
    if s != [] && s[0] <= ' ' then TrimStart(s[1..]) else s
  }

  function TrimEnd(s: string): (r: string)
    ensures r == [] || r[|r| - 1] > ' '
    ensures r <= s
    ensures forall k :: |r| <= k < |s| ==> s[k] <= ' '
  {
    if s != [] && s[|s| - 1] <= ' ' then TrimEnd(s[..|s| - 1]) else s
  }

  /** toLowerCase on the ASCII letters. */
  function ToLower(s: string): (r: string)
    ensures |r| == |s|
    ensures forall i :: 0 <= i < |r| ==> !('A' <= r[i] <= 'Z')
    ensures forall i :: 0 <= i < |s| && !('A' <= s[i] <= 'Z') ==> r[i] == s[i]
    ensures forall i :: 0 <= i < |s| && 'A' <= s[i] <= 'Z' ==> 'a' <= r[i] <= 'z' && r[i] as int - s[i] as int == 32
  {
    seq(|s|, i requires 0 <= i < |s| => if 'A' <= s[i] <= 'Z' then (s[i] as int + 32) as char else s[i])
  }

  /** `s.indexOf(c)`, -1 when absent. */
  function IndexOf(s: string, c: char): (r: int)
    ensures -1 <= r < |s|
    ensures r == -1 <==> c !in s
    ensures r >= 0 ==> s[r] == c && c !in s[..r]
  {
    if s == [] then -1
    else if s[0] == c then 0
    else var k := IndexOf(s[1..], c); if k == -1 then -1 else k + 1
  }
}
