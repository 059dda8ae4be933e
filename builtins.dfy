/**
 * The few Python built-ins the chatbot's own logic is made of: `dict.get`,
 * slicing, `str.join`, `str.replace` and `str.upper`. Strings are sequences of
 * Unicode scalar values, as Python's `str` is a sequence of code points.
 */
module Builtins {

  datatype Option<T> = None | Some(value: T)

  /** `d.get(key, default)` */
  function Lookup<K, V>(d: map<K, V>, key: K, default: V): (v: V)
    ensures key in d ==> v == d[key]
    ensures key !in d ==> v == default
  {
    if key in d then d[key] else default
  }

  function Min(a: int, b: int): int
  {
    if a < b then a else b
  }

  /** `s[:n]` for a non-negative `n` */
  function Take<T>(s: seq<T>, n: nat): (r: seq<T>)
    ensures |r| == Min(n, |s|)
    ensures r == s[..|r|]
  {
    if n < |s| then s[..n] else s
  }

  /** `s[-n:]` for a positive `n`: the last `n` elements, or all of them */
  function TakeLast<T>(s: seq<T>, n: nat): (r: seq<T>)
    requires n > 0
    ensures |r| == Min(n, |s|)
    ensures r == s[|s| - |r|..]
  {
    if n < |s| then s[|s| - n..] else s
  }

  /** `sep.join(parts)`: the empty string for no parts; otherwise it starts with
      the first part and ends with the last. */
  function Join(sep: string, parts: seq<string>): (r: string)
    ensures parts == [] ==> r == ""
    ensures parts != [] ==> |r| >= |parts[0]| && r[..|parts[0]|] == parts[0]
    ensures parts != [] ==> |r| >= |parts[|parts| - 1]| && r[|r| - |parts[|parts| - 1]|..] == parts[|parts| - 1]
    decreases |parts|
  {
    if parts == [] then ""
    else if |parts| == 1 then parts[0]
    else parts[0] + sep + Join(sep, parts[1..])
  }

  /** Joining one more part puts exactly one separator before it. */
  lemma {:induction false} JoinSnoc(sep: string, parts: seq<string>, last: string)
    requires parts != []
    ensures Join(sep, parts + [last]) == Join(sep, parts) + sep + last
  {
    var longer := parts + [last];
    assert longer[0] == parts[0];
    if |parts| == 1 {
      assert longer[1..] == [last];
    } else {
      assert longer[1..] == parts[1..] + [last];
      JoinSnoc(sep, parts[1..], last);
    }
  }

  /** `w in t` on strings: `w` is a substring of `t` (the empty string is one of every string). */
  ghost predicate Occurs(w: string, t: string)
  {
    exists i :: OccursAt(w, t, i)
  }

  /** `w` stands in `t` starting at index `i`. */
  predicate OccursAt(w: string, t: string, i: int)
  {
    0 <= i && i + |w| <= |t| && t[i..i + |w|] == w
  }

  /** `s.replace(pat, rep)`, Python's semantics for every `pat`, the empty one
      included: every occurrence `str.count` finds changes the length by
      `|rep| - |pat|`. */
  function Replace(s: string, pat: string, rep: string): (r: string)
    ensures |r| == |s| + Count(s, pat) * (|rep| - |pat|)
  {
    if pat == "" then
      InsertAtGapsLength(s, rep);
      InsertAtGaps(s, rep)
    else
      ScanLength(s, pat, rep);
      ReplaceScan(s, pat, rep)
  }

  /** `s.replace("", rep)`: Python puts `rep` before every character and once at the end. */
  function InsertAtGaps(s: string, rep: string): string
  {
    if s == [] then rep else rep + [s[0]] + InsertAtGaps(s[1..], rep)
  }

  /** The left-to-right scan of `str.replace` for a non-empty pattern:
      every non-overlapping occurrence, leftmost first, is replaced. */
  function ReplaceScan(s: string, pat: string, rep: string): string
    requires pat != ""
    decreases |s|
  {
    if |s| < |pat| then s
    else if s[..|pat|] == pat then rep + ReplaceScan(s[|pat|..], pat, rep)
    else [s[0]] + ReplaceScan(s[1..], pat, rep)
  }

  /** `s.count(pat)`: the number of occurrences the same scan finds. */
  function Count(s: string, pat: string): nat
  {
    if pat == "" then |s| + 1 else CountScan(s, pat)
  }

  function CountScan(s: string, pat: string): nat
    requires pat != ""
    decreases |s|
  {
    if |s| < |pat| then 0
    else if s[..|pat|] == pat then 1 + CountScan(s[|pat|..], pat)
    else CountScan(s[1..], pat)
  }

  /** When the first `|pat|` characters are not `pat`, dropping the first one
      neither creates nor removes an occurrence. */
  lemma OccursPastHead(pat: string, s: string)
    requires |pat| <= |s| && s[..|pat|] != pat
    ensures Occurs(pat, s) <==> Occurs(pat, s[1..])
  {
    if Occurs(pat, s) {
      var i :| OccursAt(pat, s, i);
      assert i != 0;
      assert s[1..][i - 1..i - 1 + |pat|] == s[i..i + |pat|];
      assert OccursAt(pat, s[1..], i - 1);
    }
    if Occurs(pat, s[1..]) {
      var i :| OccursAt(pat, s[1..], i);
      assert s[i + 1..i + 1 + |pat|] == s[1..][i..i + |pat|];
      assert OccursAt(pat, s, i + 1);
    }
  }

  /** `str.count` finds something exactly when the pattern is a substring. */
  lemma {:induction false} CountPositiveIffOccurs(s: string, pat: string)
    ensures Count(s, pat) > 0 <==> Occurs(pat, s)
    decreases |s|
  {
    if pat == "" {
      assert OccursAt(pat, s, 0);
    } else if |s| < |pat| {
    } else if s[..|pat|] == pat {
      assert OccursAt(pat, s, 0);
    } else {
      CountPositiveIffOccurs(s[1..], pat);
      OccursPastHead(pat, s);
    }
  }

  /** Every occurrence the scan replaces changes the length by `|rep| - |pat|`. */
  lemma {:induction false} ScanLength(s: string, pat: string, rep: string)
    requires pat != ""
    ensures |ReplaceScan(s, pat, rep)| == |s| + CountScan(s, pat) * (|rep| - |pat|)
    decreases |s|
  {
    if |s| < |pat| {
    } else if s[..|pat|] == pat {
      var rest := s[|pat|..];
      ScanLength(rest, pat, rep);
      assert ReplaceScan(s, pat, rep) == rep + ReplaceScan(rest, pat, rep);
      assert CountScan(s, pat) == CountScan(rest, pat) + 1;
      OneMore(CountScan(rest, pat), |rep| - |pat|);
    } else {
      ScanLength(s[1..], pat, rep);
    }
  }

  lemma OneMore(c: nat, d: int)
    ensures (c + 1) * d == c * d + d
  {
  }

  lemma {:induction false} InsertAtGapsLength(s: string, rep: string)
    ensures |InsertAtGaps(s, rep)| == |s| + (|s| + 1) * |rep|
    decreases |s|
  {
    if s != [] {
      InsertAtGapsLength(s[1..], rep);
      assert (|s| + 1) * |rep| == |s| * |rep| + |rep|;
    }
  }

  /** Replacing a pattern that does not occur leaves the text as it is. */
  lemma {:induction false} ReplaceWithoutOccurrence(s: string, pat: string, rep: string)
    requires pat != "" && !Occurs(pat, s)
    ensures Replace(s, pat, rep) == s
    decreases |s|
  {
    if |s| >= |pat| {
      assert s[..|pat|] != pat by {
        if s[..|pat|] == pat {
          assert OccursAt(pat, s, 0);
        }
      }
      OccursPastHead(pat, s);
      ReplaceWithoutOccurrence(s[1..], pat, rep);
      assert [s[0]] + s[1..] == s;
    }
  }

  /** With a replacement longer than the pattern, `str.replace` changes the text
      exactly when the pattern occurs in it. */
  lemma {:induction false} ReplaceUnchangedIff(s: string, pat: string, rep: string)
    requires |rep| > |pat|
    ensures Replace(s, pat, rep) == s <==> !Occurs(pat, s)
  {
    if Occurs(pat, s) {
      CountPositiveIffOccurs(s, pat);
      GrowsByAtLeastOne(Count(s, pat), |rep| - |pat|);
    } else {
      assert pat != "" by {
        if pat == "" {
          assert OccursAt(pat, s, 0);
        }
      }
      ReplaceWithoutOccurrence(s, pat, rep);
    }
  }

  lemma GrowsByAtLeastOne(c: nat, d: int)
    requires c >= 1 && d > 0
    ensures c * d >= d
  {
  }

  /** The scan is leftmost-first: everything before the first occurrence is
      copied, that occurrence is replaced, and the scan resumes right after it. */
  lemma ReplaceAtFirstOccurrence(s: string, pat: string, rep: string, i: nat)
    requires pat != "" && OccursAt(pat, s, i)
    requires forall j :: 0 <= j < i ==> !OccursAt(pat, s, j)
    ensures Replace(s, pat, rep) == s[..i] + rep + Replace(s[i + |pat|..], pat, rep)
  {
    ScanAtFirstOccurrence(s, pat, rep, i);
  }

  lemma {:induction false} ScanAtFirstOccurrence(s: string, pat: string, rep: string, i: nat)
    requires pat != "" && OccursAt(pat, s, i)
    requires forall j :: 0 <= j < i ==> !OccursAt(pat, s, j)
    ensures ReplaceScan(s, pat, rep) == s[..i] + rep + ReplaceScan(s[i + |pat|..], pat, rep)
    decreases i
  {
    if i == 0 {
      ScanAtStart(s, pat, rep);
    } else {
      ShiftNoEarlierOccurrence(s, pat, i);
      ScanAtFirstOccurrence(s[1..], pat, rep, i - 1);
      ScanStep(s, pat, rep, i);
    }
  }

  lemma ScanAtStart(s: string, pat: string, rep: string)
    requires pat != "" && OccursAt(pat, s, 0)
    ensures ReplaceScan(s, pat, rep) == s[..0] + rep + ReplaceScan(s[|pat|..], pat, rep)
  {
    assert s[..|pat|] == pat;
    assert s[..0] + rep == rep;
  }

  /** The inductive step of ScanAtFirstOccurrence: prepend the copied first character. */
  lemma ScanStep(s: string, pat: string, rep: string, i: nat)
    requires pat != "" && 0 < i && i + |pat| <= |s| && !OccursAt(pat, s, 0)
    requires ReplaceScan(s[1..], pat, rep)
             == s[1..][..i - 1] + rep + ReplaceScan(s[1..][i - 1 + |pat|..], pat, rep)
    ensures ReplaceScan(s, pat, rep) == s[..i] + rep + ReplaceScan(s[i + |pat|..], pat, rep)
  {
    var tail := ReplaceScan(s[i + |pat|..], pat, rep);
    var copied := s[1..][..i - 1];
    ScanPastHead(s, pat, rep);
    Peel(s, i, |pat|);
    assert ReplaceScan(s[1..], pat, rep) == copied + rep + tail;
    Regroup([s[0]], copied, rep, tail);
  }

  /** The scan copies a first character that does not start an occurrence. */
  lemma ScanPastHead(s: string, pat: string, rep: string)
    requires pat != "" && |pat| <= |s| && !OccursAt(pat, s, 0)
    ensures ReplaceScan(s, pat, rep) == [s[0]] + ReplaceScan(s[1..], pat, rep)
  {
    assert s[..|pat|] == s[0..|pat|];
  }

  lemma Peel(s: string, i: nat, k: nat)
    requires 0 < i && i + k <= |s|
    ensures [s[0]] + s[1..][..i - 1] == s[..i]
    ensures s[1..][i - 1 + k..] == s[i + k..]
  {
  }

  lemma Regroup(a: string, b: string, c: string, d: string)
    ensures a + (b + c + d) == (a + b) + c + d
  {
  }

  /** Helper for the step of ReplaceAtFirstOccurrence: the first occurrence in
      `s[1..]` is one index earlier. */
  lemma ShiftNoEarlierOccurrence(s: string, pat: string, i: nat)
    requires 0 < i && OccursAt(pat, s, i)
    requires forall j :: 0 <= j < i ==> !OccursAt(pat, s, j)
    ensures OccursAt(pat, s[1..], i - 1)
    ensures forall j :: 0 <= j < i - 1 ==> !OccursAt(pat, s[1..], j)
  {
    var t := s[1..];
    forall j | 0 <= j < i - 1
      ensures !OccursAt(pat, t, j)
    {
      assert t[j..j + |pat|] == s[j + 1..j + 1 + |pat|];
      assert !OccursAt(pat, s, j + 1);
    }
    assert t[i - 1..i - 1 + |pat|] == s[i..i + |pat|];
  }

  /** `c.upper()` for ASCII letters */
  function UpperChar(c: char): char
  {
    if 'a' <= c <= 'z' then (c as int - 32) as char else c
  }

  function LowerChar(c: char): char
  {
    if 'A' <= c <= 'Z' then (c as int + 32) as char else c
  }

  /** `s.upper()` on the ASCII letters */
  function Upper(s: string): (r: string)
    ensures |r| == |s|
  {
    seq(|s|, i requires 0 <= i < |s| => UpperChar(s[i]))
  }

  predicate AllUpperLetters(u: string)
  {
    forall i :: 0 <= i < |u| ==> 'A' <= u[i] <= 'Z'
  }

  /** `s` spells the upper-case word `u`, each letter in either case. */
  predicate SameIgnoringCase(s: string, u: string)
  {
    |s| == |u| && forall i :: 0 <= i < |u| ==> s[i] == u[i] || s[i] == LowerChar(u[i])
  }

  /** Comparing `s.upper()` with an upper-case word is comparing letter by
      letter while ignoring case. */
  lemma UpperMatchesIgnoringCase(s: string, u: string)
    requires AllUpperLetters(u)
    ensures Upper(s) == u <==> SameIgnoringCase(s, u)
  {
    if SameIgnoringCase(s, u) {
      forall i | 0 <= i < |u|
        ensures Upper(s)[i] == u[i]
      {
      }
    }
  }
}
