/** Text primitives the search boxes rely on: an ASCII model of
    `String.prototype.toLowerCase` and of `String.prototype.includes`. */
module Text {

  /** Lower-cases one character; only the ASCII letters A-Z change. */
  function LowerChar(c: char): char
  {
    if 'A' <= c <= 'Z' then (c as int + 32) as char else c
  }

  predicate IsUpper(c: char)
  {
    'A' <= c <= 'Z'
  }

  /** ASCII model of `toLowerCase`: character by character, same length. */
  function ToLower(s: string): (r: string)
    ensures |r| == |s|
    ensures forall i :: 0 <= i < |s| ==> r[i] == LowerChar(s[i])
    ensures forall i :: 0 <= i < |r| ==> !IsUpper(r[i])
  {
    if |s| == 0 then [] else [LowerChar(s[0])] + ToLower(s[1..])
  }

  /** Lowering twice is lowering once. */
  lemma ToLowerIdempotent(s: string)
    ensures ToLower(ToLower(s)) == ToLower(s)
  {
    var l := ToLower(s);
    assert forall i :: 0 <= i < |l| ==> ToLower(l)[i] == l[i];
  }

  /** Lowering commutes with slicing. */
  lemma ToLowerSlice(s: string, i: int, j: int)
    requires 0 <= i <= j <= |s|
    ensures ToLower(s)[i..j] == ToLower(s[i..j])
  {
  }

  predicate StartsWith(s: string, prefix: string)
  {
    |prefix| <= |s| && s[..|prefix|] == prefix
  }

  /** Model of `s.includes(t)`: `t` starts at some position of `s`. The empty
      string is included in every string. */
  predicate Includes(s: string, t: string)
    decreases |s|
  {
    StartsWith(s, t) || (|s| > 0 && Includes(s[1..], t))
  }

  /** `t` occurs in `s` starting at index `i`. */
  ghost predicate OccursAt(s: string, t: string, i: int)
  {
    0 <= i && i + |t| <= |s| && s[i..i + |t|] == t
  }

  lemma {:induction false} IncludesHasOccurrence(s: string, t: string) returns (i: int)
    requires Includes(s, t)
    ensures OccursAt(s, t, i)
    decreases |s|
  {
    if StartsWith(s, t) {
      i := 0;
    } else {
      var j := IncludesHasOccurrence(s[1..], t);
      assert s[1..][j..j + |t|] == s[j + 1..j + 1 + |t|];
      i := j + 1;
    }
  }

  lemma {:induction false} OccurrenceIsIncluded(s: string, t: string, i: int)
    requires OccursAt(s, t, i)
    ensures Includes(s, t)
    decreases i
  {
    if i > 0 {
      assert s[1..][i - 1..i - 1 + |t|] == s[i..i + |t|];
      OccurrenceIsIncluded(s[1..], t, i - 1);
    }
  }

  /** The recursive `Includes` agrees with the positional definition of a
      substring, in both directions. */
  lemma IncludesIffOccurs(s: string, t: string)
    ensures Includes(s, t) <==> exists i :: OccursAt(s, t, i)
  {
    if Includes(s, t) {
      var i := IncludesHasOccurrence(s, t);
    }
    if exists i :: OccursAt(s, t, i) {
      var i :| OccursAt(s, t, i);
      OccurrenceIsIncluded(s, t, i);
    }
  }

  /** Case-insensitive containment as every page's search box computes it:
      both sides lowered, then `includes`. */
  predicate IncludesIgnoringCase(s: string, t: string)
  {
    Includes(ToLower(s), ToLower(t))
  }

  /** A term that occurs verbatim is also found case-insensitively. */
  lemma {:induction false} IncludesIgnoringCaseOfIncludes(s: string, t: string)
    requires Includes(s, t)
    ensures IncludesIgnoringCase(s, t)
    decreases |s|
  {
    if StartsWith(s, t) {
      ToLowerSlice(s, 0, |t|);
    } else {
      IncludesIgnoringCaseOfIncludes(s[1..], t);
      ToLowerSlice(s, 1, |s|);
    }
  }

  /** The case-insensitive search does not care about the case of the term. */
  lemma IgnoringCaseIgnoresTermCase(s: string, t: string)
    ensures IncludesIgnoringCase(s, ToLower(t)) == IncludesIgnoringCase(s, t)
  {
    ToLowerIdempotent(t);
  }

  /** The empty term is found in every string, case-sensitively or not. */
  lemma EmptyTermMatches(s: string)
    ensures Includes(s, "")
    ensures IncludesIgnoringCase(s, "")
  {
  }

  /** A term whose first letter, ignoring case, appears nowhere in `s` is not
      found in `s`. */
  lemma MissingFirstCharNotIncluded(s: string, t: string)
    requires |t| > 0
    requires forall i :: 0 <= i < |s| ==> LowerChar(s[i]) != LowerChar(t[0])
    ensures !IncludesIgnoringCase(s, t)
  {
    if IncludesIgnoringCase(s, t) {
      var i := IncludesHasOccurrence(ToLower(s), ToLower(t));
    }
  }

  /** A term that starts with a character lowering leaves alone (such as a
      digit), and that character appears nowhere in `s`: no match, whatever
      the case of `s`. */
  lemma UncasedFirstCharNotIncluded(s: string, t: string)
    requires |t| > 0 && !IsUpper(t[0]) && !('a' <= t[0] <= 'z')
    requires t[0] !in s
    ensures !IncludesIgnoringCase(s, t)
  {
    forall i | 0 <= i < |s| ensures LowerChar(s[i]) != LowerChar(t[0]) {
      assert s[i] != t[0];
    }
    MissingFirstCharNotIncluded(s, t);
  }
}
