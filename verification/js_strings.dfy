/** The JavaScript string operations the application calls, over `seq<char>`:
    `startsWith`, `endsWith`, `includes`, `replace` with a string pattern
    (first occurrence only) and `toLowerCase` restricted to ASCII letters. */
module JsStrings {
  import opened JsValues

  /** `s.startsWith(p)` */
  predicate StartsWith(s: string, p: string) {
    |p| <= |s| && s[..|p|] == p
  }

  /** `s.endsWith(q)` */
  predicate EndsWith(s: string, q: string) {
    |q| <= |s| && s[|s| - |q|..] == q
  }

  /** `pat` occurs in `s` starting at index `i`. */
  predicate OccursAt(s: string, pat: string, i: int) {
    0 <= i && i + |pat| <= |s| && s[i..i + |pat|] == pat
  }

  /** The first index at or after `k` where `pat` occurs in `s`. */
  function IndexFrom(s: string, pat: string, k: nat): (r: Option<nat>)
    ensures r.Some? ==> k <= r.value && OccursAt(s, pat, r.value)
    ensures r.Some? ==> forall j :: k <= j < r.value ==> !OccursAt(s, pat, j)
    ensures r.None? ==> forall j :: k <= j ==> !OccursAt(s, pat, j)
    decreases |s| - k
  {
    if k + |pat| > |s| then None
    else if s[k..k + |pat|] == pat then Some(k)
    else IndexFrom(s, pat, k + 1)
  }

  /** `s.indexOf(pat)`, with `None` for -1. */
  function IndexOf(s: string, pat: string): (r: Option<nat>)
    ensures r.Some? <==> exists j :: OccursAt(s, pat, j)
    ensures r.Some? ==> OccursAt(s, pat, r.value) && forall j :: 0 <= j < r.value ==> !OccursAt(s, pat, j)
  {
    IndexFrom(s, pat, 0)
  }

  /** `s.includes(pat)` */
  predicate Includes(s: string, pat: string) {
    IndexOf(s, pat).Some?
  }

  /** `s.replace(pat, rep)` with a string pattern: only the first occurrence
      is replaced, and `s` is returned unchanged when there is none. */
  function ReplaceFirst(s: string, pat: string, rep: string): (r: string)
    ensures !Includes(s, pat) ==> r == s
    ensures Includes(s, pat) ==> |r| == |s| - |pat| + |rep|
    ensures Includes(s, pat) ==> var i := IndexOf(s, pat).value; r == s[..i] + rep + s[i + |pat|..]
  {
    match IndexOf(s, pat)
    case None => s
    case Some(i) => s[..i] + rep + s[i + |pat|..]
  }

  /** ASCII lower-casing of one character. */
  function LowerChar(c: char): char {
    if 'A' <= c <= 'Z' then (c as int - 'A' as int + 'a' as int) as char else c
  }

  /** `s.toLowerCase()` over ASCII. */
  function ToLower(s: string): (r: string)
    ensures |r| == |s|
    ensures forall i :: 0 <= i < |s| ==> r[i] == LowerChar(s[i])
  {
    seq(|s|, i requires 0 <= i < |s| => LowerChar(s[i]))
  }

  /** `pat` matches `s` at `i` when both are compared letter by letter ignoring ASCII case. */
  predicate MatchesIgnoringCaseAt(s: string, pat: string, i: int) {
    0 <= i && i + |pat| <= |s| && forall j :: 0 <= j < |pat| ==> LowerChar(s[i + j]) == LowerChar(pat[j])
  }

  /** `s.toLowerCase().includes(pat.toLowerCase())` holds exactly when `pat`
      matches somewhere in `s` ignoring case. */
  lemma IncludesLowerIff(s: string, pat: string)
    ensures Includes(ToLower(s), ToLower(pat)) <==> exists i :: MatchesIgnoringCaseAt(s, pat, i)
  {
    var ls, lp := ToLower(s), ToLower(pat);
    forall i | 0 <= i
      ensures OccursAt(ls, lp, i) <==> MatchesIgnoringCaseAt(s, pat, i)
    {
      if i + |pat| <= |s| {
        if OccursAt(ls, lp, i) {
          forall j | 0 <= j < |pat|
            ensures LowerChar(s[i + j]) == LowerChar(pat[j])
          {
            assert ls[i..i + |lp|][j] == lp[j];
          }
        }
        if MatchesIgnoringCaseAt(s, pat, i) {
          assert ls[i..i + |lp|] == lp;
        }
      }
    }
    if Includes(ls, lp) {
      var k := IndexOf(ls, lp).value;
      assert MatchesIgnoringCaseAt(s, pat, k);
    }
    if exists i :: MatchesIgnoringCaseAt(s, pat, i) {
      var i :| MatchesIgnoringCaseAt(s, pat, i);
      assert OccursAt(ls, lp, i);
    }
  }

  /** When `pat` is not a substring of `a`, the only occurrence of `pat` in
      `a + pat` is the appended copy, provided the first character of `pat`
      does not recur in it (so no occurrence can straddle the seam). */
  lemma FirstOccurrenceOfSuffix(a: string, pat: string)
    requires |pat| > 0
    requires forall d :: 0 < d < |pat| ==> pat[d] != pat[0]
    requires !Includes(a, pat)
    ensures IndexOf(a + pat, pat) == Some(|a|)
  {
    var s := a + pat;
    assert s[|a|..|a| + |pat|] == pat;
    assert OccursAt(s, pat, |a|);
    forall j | 0 <= j < |a|
      ensures !OccursAt(s, pat, j)
    {
      if j + |pat| <= |a| {
        assert s[j..j + |pat|] == a[j..j + |pat|];
        assert !OccursAt(a, pat, j);
      } else {
        var d := |a| - j;
        assert s[j + d] == pat[0] != pat[d];
      }
    }
  }

  /** Replacing the first occurrence of a prefix by nothing strips it. */
  lemma ReplacePrefix(s: string, p: string)
    requires StartsWith(s, p)
    ensures ReplaceFirst(s, p, "") == s[|p|..]
  {
    assert OccursAt(s, p, 0);
    assert IndexOf(s, p) == Some(0);
  }

  /** Replacing the first occurrence of `pat` in `a + pat` by nothing gives
      back `a`, under the conditions of `FirstOccurrenceOfSuffix`. */
  lemma ReplaceSuffix(a: string, pat: string)
    requires |pat| > 0
    requires forall d :: 0 < d < |pat| ==> pat[d] != pat[0]
    requires !Includes(a, pat)
    ensures ReplaceFirst(a + pat, pat, "") == a
  {
    FirstOccurrenceOfSuffix(a, pat);
    var s := a + pat;
    assert ReplaceFirst(s, pat, "") == s[..|a|] + "" + s[|a| + |pat|..];
    assert s[..|a|] == a;
  }
}
