/**
  A backtracking matcher for the regular expressions the contact extractors
  use: a sequence of character classes, each repeated between a lower and an
  optional upper bound, tried greedily from the longest repetition down, as
  Python's `re` does for such patterns. `Matches` is the declarative reading
  of a pattern; the matcher is proved sound and complete against it.
 */
module Patterns {
  import opened Wrappers
  import opened Text

  predicate IsAsciiAlnum(c: char) { IsDigit(c) || IsUpper(c) || IsLower(c) }

  datatype CharClass =
    | AlnumOr(extra: set<char>)  // `[a-zA-Z0-9...]` with the listed extra characters
    | SpaceOrDash                // `[\s\-]`
    | Digit                      // `\d`
    | Literal(c: char)           // a single character

  predicate InClass(cls: CharClass, c: char) {
    match cls
    case AlnumOr(extra) => IsAsciiAlnum(c) || c in extra
    case SpaceOrDash => IsSpace(c) || c == '-'
    case Digit => IsDigit(c)
    case Literal(d) => c == d
  }

  /** `cls{lo,hi}`, or `cls{lo,}` when `hi` is `None`. */
  datatype Elem = Rep(cls: CharClass, lo: nat, hi: Option<nat>)

  /** `u` is a legal repetition of `e`: a count within bounds, every character in the class. */
  predicate Fits(e: Elem, u: string) {
    && e.lo <= |u|
    && (e.hi.Some? ==> |u| <= e.hi.value)
    && forall j :: 0 <= j < |u| ==> InClass(e.cls, u[j])
  }

  /** The whole of `w` matches `pat`: `w` splits into consecutive pieces that fit the elements. */
  ghost predicate Matches(pat: seq<Elem>, w: string)
    decreases |pat|
  {
    if pat == [] then w == []
    else exists k :: 0 <= k <= |w| && Fits(pat[0], w[..k]) && Matches(pat[1..], w[k..])
  }

  /** The most repetitions of `e` available at `i`: the run of class characters, capped at `hi`. */
  function MaxCount(e: Elem, s: string, i: nat): (n: nat)
    requires i <= |s|
    ensures i + n <= |s|
    ensures forall j :: i <= j < i + n ==> InClass(e.cls, s[j])
    ensures e.hi.Some? ==> n <= e.hi.value
    ensures i + n < |s| && InClass(e.cls, s[i + n]) ==> e.hi.Some? && n == e.hi.value
  {
    var run := Span(s[i..], c => InClass(e.cls, c));
    if e.hi.Some? && e.hi.value < run then e.hi.value else run
  }

  /**
    Where a match of `pat` starting at `i` ends, trying for each element the
    longest repetition first and backing off one character at a time.
   */
  function MatchFrom(pat: seq<Elem>, s: string, i: nat): (r: Option<nat>)
    requires i <= |s|
    ensures r.Some? ==> i <= r.value <= |s|
    decreases |pat|, |s| + 1
  {
    if pat == [] then Some(i) else TryCounts(pat, s, i, MaxCount(pat[0], s, i))
  }

  /** The backtracking loop over the repetition count of `pat[0]`, from `n` down to its minimum. */
  function TryCounts(pat: seq<Elem>, s: string, i: nat, n: nat): (r: Option<nat>)
    requires pat != [] && i + n <= |s|
    ensures r.Some? ==> i <= r.value <= |s|
    decreases |pat|, n
  {
    if n < pat[0].lo then None
    else match MatchFrom(pat[1..], s, i + n)
      case Some(e) => Some(e)
      case None => if n == 0 then None else TryCounts(pat, s, i, n - 1)
  }

  /** A match found by the matcher is a match. */
  lemma {:induction false} MatchFromSound(pat: seq<Elem>, s: string, i: nat)
    requires i <= |s| && MatchFrom(pat, s, i).Some?
    ensures var e := MatchFrom(pat, s, i).value; i <= e <= |s| && Matches(pat, s[i..e])
    decreases |pat|, |s| + 1
  {
    if pat != [] {
      TryCountsSound(pat, s, i, MaxCount(pat[0], s, i));
    }
  }

  lemma {:induction false} TryCountsSound(pat: seq<Elem>, s: string, i: nat, n: nat)
    requires pat != [] && i + n <= |s| && TryCounts(pat, s, i, n).Some?
    requires n <= MaxCount(pat[0], s, i)
    ensures var e := TryCounts(pat, s, i, n).value; i <= e <= |s| && Matches(pat, s[i..e])
    decreases |pat|, n
  {
    var r := MatchFrom(pat[1..], s, i + n);
    if r.Some? {
      MatchFromSound(pat[1..], s, i + n);
      MatchesCons(pat, s, i, n, r.value);
    } else {
      TryCountsSound(pat, s, i, n - 1);
    }
  }

  /** A fitting first piece followed by a match of the rest is a match. */
  lemma MatchesCons(pat: seq<Elem>, s: string, i: nat, n: nat, e: nat)
    requires pat != [] && i + n <= e <= |s|
    requires pat[0].lo <= n && (pat[0].hi.Some? ==> n <= pat[0].hi.value)
    requires forall j :: i <= j < i + n ==> InClass(pat[0].cls, s[j])
    requires Matches(pat[1..], s[i + n..e])
    ensures Matches(pat, s[i..e])
  {
    var w := s[i..e];
    assert w[n..] == s[i + n..e];
    forall j | 0 <= j < n ensures InClass(pat[0].cls, w[..n][j]) {
      assert w[..n][j] == s[i + j];
    }
    assert Fits(pat[0], w[..n]);
  }

  /** Piece `k` of `w`, between `cuts[k]` and `cuts[k + 1]`, fits `pat[k]`. */
  predicate PieceFits(pat: seq<Elem>, w: string, cuts: seq<nat>, k: nat)
    requires k < |pat| && |cuts| == |pat| + 1
  {
    cuts[k] <= cuts[k + 1] <= |w| && Fits(pat[k], w[cuts[k]..cuts[k + 1]])
  }

  /** `cuts` splits the whole of `w` into pieces that fit the elements of `pat` in turn. */
  predicate IsCutting(pat: seq<Elem>, w: string, cuts: seq<nat>) {
    && |cuts| == |pat| + 1 && cuts[0] == 0 && cuts[|pat|] == |w|
    && forall k :: 0 <= k < |pat| ==> PieceFits(pat, w, cuts, k)
  }

  /** Putting a first piece of length `n` in front of a cutting of the rest. */
  lemma CutCons(pat: seq<Elem>, w: string, n: nat, rest: seq<nat>) returns (cuts: seq<nat>)
    requires pat != [] && n <= |w| && Fits(pat[0], w[..n])
    requires IsCutting(pat[1..], w[n..], rest)
    ensures IsCutting(pat, w, cuts)
  {
    cuts := [0] + seq(|rest|, i requires 0 <= i < |rest| => rest[i] + n);
    forall k | 0 <= k < |pat| ensures PieceFits(pat, w, cuts, k) {
      if k == 0 {
        assert w[cuts[0]..cuts[1]] == w[..n];
      } else {
        assert PieceFits(pat[1..], w[n..], rest, k - 1);
        assert pat[k] == pat[1..][k - 1];
        assert w[cuts[k]..cuts[k + 1]] == w[n..][rest[k - 1]..rest[k]];
      }
    }
  }

  /** Every match can be cut into pieces that fit the elements in turn. */
  lemma {:induction false} MatchCuts(pat: seq<Elem>, w: string) returns (cuts: seq<nat>)
    requires Matches(pat, w)
    ensures IsCutting(pat, w, cuts)
    decreases |pat|
  {
    if pat == [] {
      cuts := [0];
    } else {
      var n :| 0 <= n <= |w| && Fits(pat[0], w[..n]) && Matches(pat[1..], w[n..]);
      var rest := MatchCuts(pat[1..], w[n..]);
      cuts := CutCons(pat, w, n, rest);
    }
  }

  /** Whenever some piece of `s` starting at `i` matches, the matcher finds a match at `i`. */
  lemma {:induction false} MatchFromComplete(pat: seq<Elem>, s: string, i: nat, e: nat)
    requires i <= e <= |s| && Matches(pat, s[i..e])
    ensures MatchFrom(pat, s, i).Some?
    decreases |pat|, |s| + 1
  {
    if pat != [] {
      var w := s[i..e];
      var k :| 0 <= k <= |w| && Fits(pat[0], w[..k]) && Matches(pat[1..], w[k..]);
      assert w[k..] == s[i + k..e];
      forall j | i <= j < i + k ensures InClass(pat[0].cls, s[j]) {
        assert s[j] == w[..k][j - i];
      }
      var n := MaxCount(pat[0], s, i);
      MaxCountCovers(pat[0], s, i, k);
      TryCountsComplete(pat, s, i, n, k, e);
    }
  }

  /** A legal repetition count at `i` is at most `MaxCount`. */
  lemma MaxCountCovers(e: Elem, s: string, i: nat, k: nat)
    requires i + k <= |s|
    requires forall j :: i <= j < i + k ==> InClass(e.cls, s[j])
    requires e.hi.Some? ==> k <= e.hi.value
    ensures k <= MaxCount(e, s, i)
  {
    var t := s[i..];
    assert forall j :: 0 <= j < k ==> InClass(e.cls, t[j]) by {
      forall j | 0 <= j < k ensures InClass(e.cls, t[j]) {
        assert t[j] == s[i + j];
      }
    }
  }

  lemma {:induction false} TryCountsComplete(pat: seq<Elem>, s: string, i: nat, n: nat, k: nat, e: nat)
    requires pat != [] && i + n <= |s| && i + k <= e <= |s|
    requires pat[0].lo <= k <= n
    requires Matches(pat[1..], s[i + k..e])
    ensures TryCounts(pat, s, i, n).Some?
    decreases |pat|, n
  {
    if MatchFrom(pat[1..], s, i + n).None? {
      if n == k {
        MatchFromComplete(pat[1..], s, i + k, e);
      } else {
        TryCountsComplete(pat, s, i, n - 1, k, e);
      }
    }
  }

  /** When the matcher fails at `i`, no piece of `s` starting at `i` matches. */
  lemma NoMatchAt(pat: seq<Elem>, s: string, i: nat)
    requires i <= |s| && MatchFrom(pat, s, i).None?
    ensures forall e :: i <= e <= |s| ==> !Matches(pat, s[i..e])
  {
    forall e | i <= e <= |s| ensures !Matches(pat, s[i..e]) {
      if Matches(pat, s[i..e]) {
        MatchFromComplete(pat, s, i, e);
      }
    }
  }

  /**
    `re.search(pat, s)` from position `i`: the leftmost start at which the
    matcher succeeds, with the end it reaches.
   */
  function Search(pat: seq<Elem>, s: string, i: nat): (r: Option<(nat, nat)>)
    requires i <= |s|
    ensures r.Some? ==> i <= r.value.0 <= r.value.1 <= |s|
    decreases |s| - i
  {
    match MatchFrom(pat, s, i)
    case Some(e) => Some((i, e))
    case None => if i == |s| then None else Search(pat, s, i + 1)
  }

  /** No piece of `s` starting in `[lo, hi)` matches. */
  ghost predicate NoMatchFrom(pat: seq<Elem>, s: string, lo: nat, hi: nat) {
    forall b, e :: lo <= b < hi && b <= e <= |s| ==> !Matches(pat, s[b..e])
  }

  lemma NoMatchExtend(pat: seq<Elem>, s: string, i: nat, hi: nat)
    requires i < hi && i <= |s| && MatchFrom(pat, s, i).None? && NoMatchFrom(pat, s, i + 1, hi)
    ensures NoMatchFrom(pat, s, i, hi)
  {
    NoMatchAt(pat, s, i);
  }

  /**
    A search result is a match, and no piece of `s` starting earlier (at or
    after `i`) matches; no result means no piece of `s` from `i` on matches.
   */
  lemma {:induction false} SearchLeftmost(pat: seq<Elem>, s: string, i: nat)
    requires i <= |s|
    ensures Search(pat, s, i).Some? ==>
      var (b, e) := Search(pat, s, i).value;
      Matches(pat, s[b..e]) && NoMatchFrom(pat, s, i, b)
    ensures Search(pat, s, i).None? ==> NoMatchFrom(pat, s, i, |s| + 1)
    decreases |s| - i
  {
    if MatchFrom(pat, s, i).Some? {
      MatchFromSound(pat, s, i);
    } else if i == |s| {
      NoMatchExtend(pat, s, i, |s| + 1);
    } else {
      SearchLeftmost(pat, s, i + 1);
      var r := Search(pat, s, i + 1);
      assert r == Search(pat, s, i);
      if r.Some? {
        NoMatchExtend(pat, s, i, r.value.0);
      } else {
        NoMatchExtend(pat, s, i, |s| + 1);
      }
    }
  }

  /** Position `e` ends a run of `cls` characters: the text ends there or the next character is not in `cls`. */
  predicate EndsRun(cls: CharClass, s: string, e: nat) {
    e == |s| || (e < |s| && !InClass(cls, s[e]))
  }

  /**
    When the last element of `pat` has no upper bound, a match the matcher
    finds ends where that element's run of characters ends: the greedy last
    repetition is never cut short.
   */
  lemma {:induction false} MatchEndsLastRun(pat: seq<Elem>, s: string, i: nat)
    requires pat != [] && pat[|pat| - 1].hi.None? && i <= |s| && MatchFrom(pat, s, i).Some?
    ensures EndsRun(pat[|pat| - 1].cls, s, MatchFrom(pat, s, i).value)
    decreases |pat|, |s| + 1
  {
    TryCountsEndsLastRun(pat, s, i, MaxCount(pat[0], s, i));
  }

  lemma {:induction false} TryCountsEndsLastRun(pat: seq<Elem>, s: string, i: nat, n: nat)
    requires pat != [] && pat[|pat| - 1].hi.None? && i + n <= |s| && TryCounts(pat, s, i, n).Some?
    requires |pat| == 1 ==> n == MaxCount(pat[0], s, i)
    ensures EndsRun(pat[|pat| - 1].cls, s, TryCounts(pat, s, i, n).value)
    decreases |pat|, n
  {
    if |pat| == 1 {
      assert pat[1..] == [];
      assert TryCounts(pat, s, i, n) == Some(i + n);
    } else if MatchFrom(pat[1..], s, i + n).Some? {
      assert pat[1..][|pat[1..]| - 1] == pat[|pat| - 1];
      MatchEndsLastRun(pat[1..], s, i + n);
    } else {
      TryCountsEndsLastRun(pat, s, i, n - 1);
    }
  }

  /** The same holds for the match `Search` returns. */
  lemma {:induction false} SearchEndsLastRun(pat: seq<Elem>, s: string, i: nat)
    requires pat != [] && pat[|pat| - 1].hi.None? && i <= |s| && Search(pat, s, i).Some?
    ensures EndsRun(pat[|pat| - 1].cls, s, Search(pat, s, i).value.1)
    decreases |s| - i
  {
    if MatchFrom(pat, s, i).Some? {
      MatchEndsLastRun(pat, s, i);
    } else {
      SearchEndsLastRun(pat, s, i + 1);
    }
  }
}
