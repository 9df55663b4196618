/** String searching as the modelled programs do it: occurrences at a position, JavaScript's
    `indexOf`, spans of characters, and ASCII lower-casing. */
module Text {

  /** `p` occurs in `s` at position `i`. */
  predicate HasAt(s: string, p: string, i: nat) {
    i + |p| <= |s| && s[i..i + |p|] == p
  }

  ghost predicate Contains(s: string, p: string) {
    exists i: nat :: HasAt(s, p, i)
  }

  /** The least position at or after `from` where `p` occurs, or -1. */
  function IndexOf(s: string, p: string, from: nat): (r: int)
    ensures -1 <= r
    ensures r != -1 ==> from <= r && r + |p| <= |s| && HasAt(s, p, r)
    decreases |s| - from
  {
    if from + |p| > |s| then -1
    else if HasAt(s, p, from) then from
    else if from == |s| then -1
    else IndexOf(s, p, from + 1)
  }

  lemma {:induction false} NoneBefore(s: string, p: string, from: nat, k: nat)
    requires from <= k && (IndexOf(s, p, from) == -1 || k < IndexOf(s, p, from))
    ensures !HasAt(s, p, k)
    decreases k - from
  {
    if from < k && from + |p| <= |s| && from < |s| { NoneBefore(s, p, from + 1, k); }
  }

  /** The first occurrence is the one with none before it. */
  lemma FirstIs(s: string, p: string, from: nat, at: nat)
    requires from <= at && HasAt(s, p, at)
    requires forall k: nat :: from <= k < at ==> !HasAt(s, p, k)
    ensures IndexOf(s, p, from) == at
  {
    var r := IndexOf(s, p, from);
    if r == -1 || at < r { NoneBefore(s, p, from, at); }
  }

  lemma NotFound(s: string, p: string, from: nat)
    requires forall k: nat :: from <= k ==> !HasAt(s, p, k)
    ensures IndexOf(s, p, from) == -1
  {
  }

  /** What `\s` matches and `trim` removes in JavaScript. */
  predicate IsSpace(c: char) {
    '\t' <= c <= '\r' || c in " \U{00A0}\U{1680}\U{2028}\U{2029}\U{202F}\U{205F}\U{3000}\U{FEFF}"
    || '\U{2000}' <= c <= '\U{200A}'
  }

  /** Empty after trimming. */
  predicate Blank(s: string) { forall k :: 0 <= k < |s| ==> IsSpace(s[k]) }

  function LowerChar(c: char): char {
    if 'A' <= c <= 'Z' then (c as int + 32) as char else c
  }

  function Lower(s: string): (r: string)
    ensures |r| == |s|
  {
    if s == "" then "" else [LowerChar(s[0])] + Lower(s[1..])
  }

  lemma HasAtChars(s: string, p: string, i: nat)
    requires i + |p| <= |s|
    ensures HasAt(s, p, i) <==> forall k :: 0 <= k < |p| ==> s[i + k] == p[k]
  {
    if forall k :: 0 <= k < |p| ==> s[i + k] == p[k] {
      assert s[i..i + |p|] == p;
    }
    if HasAt(s, p, i) {
      forall k | 0 <= k < |p| ensures s[i + k] == p[k] {
        assert s[i..i + |p|][k] == p[k];
      }
    }
  }

  lemma SuffixHasAt(t: string, p: string, pos: nat, i: nat)
    requires pos <= i <= |t|
    ensures HasAt(t[pos..], p, i - pos) <==> HasAt(t, p, i)
  {
    if i + |p| <= |t| { assert t[pos..][i - pos..i - pos + |p|] == t[i..i + |p|]; }
  }

  /** Searching in a suffix is searching from its start. */
  lemma {:induction false} IndexOfFrom(t: string, p: string, pos: nat, from: nat)
    requires pos <= from <= |t| && p != ""
    ensures var r := IndexOf(t[pos..], p, from - pos);
      IndexOf(t, p, from) == if r == -1 then -1 else pos + r
    decreases |t| - from
  {
    SuffixHasAt(t, p, pos, from);
    hide HasAt;
    if from + |p| <= |t| { IndexOfFrom(t, p, pos, from + 1); }
  }

  lemma IndexOfShift(t: string, p: string, pos: nat)
    requires pos <= |t| && p != ""
    ensures var r := IndexOf(t[pos..], p, 0);
      && IndexOf(t, p, pos) == (if r == -1 then -1 else pos + r)
      && (r != -1 ==> t[pos..][r + |p|..] == t[pos + r + |p|..] && t[pos..][..r] == t[pos..pos + r])
  {
    IndexOfFrom(t, p, pos, pos);
  }

  lemma {:induction false} SkipTo(w: string, p: string, from: nat, n: nat)
    requires from <= n <= |w| && p != "" && forall k: nat :: from <= k < n ==> !HasAt(w, p, k)
    ensures IndexOf(w, p, from) == IndexOf(w, p, n)
    decreases n - from
  {
    if from < n { SkipTo(w, p, from + 1, n); }
  }

  /** The first `p` of a concatenation, when none straddles the seam. */
  lemma JoinIndex(a: string, b: string, p: string)
    requires p != "" && forall k: nat :: k < |a| < k + |p| ==> !HasAt(a + b, p, k)
    ensures IndexOf(a + b, p, 0)
         == if IndexOf(a, p, 0) != -1 then IndexOf(a, p, 0)
            else if IndexOf(b, p, 0) == -1 then -1 else |a| + IndexOf(b, p, 0)
  {
    var w, r := a + b, IndexOf(a, p, 0);
    var n := if r == -1 then |a| else r;
    forall k: nat | k < n ensures !HasAt(w, p, k) { NotYet(a, b, p, k); }
    if r != -1 {
      PrefixHasAt(a, b, p, r);
      FirstIs(w, p, 0, r);
    } else {
      assert w[|a|..] == b;
      IndexOfShift(w, p, |a|);
      SkipTo(w, p, 0, |a|);
    }
  }

  lemma PrefixHasAt(a: string, b: string, p: string, k: nat)
    requires k + |p| <= |a|
    ensures HasAt(a + b, p, k) <==> HasAt(a, p, k)
  {
    assert (a + b)[k..k + |p|] == a[k..k + |p|];
  }

  lemma NotYet(a: string, b: string, p: string, k: nat)
    requires k < |a| && (IndexOf(a, p, 0) == -1 || k < IndexOf(a, p, 0))
    requires k < |a| < k + |p| ==> !HasAt(a + b, p, k)
    ensures !HasAt(a + b, p, k)
  {
    NoneBefore(a, p, 0, k);
    if k + |p| <= |a| { PrefixHasAt(a, b, p, k); }
  }
}
