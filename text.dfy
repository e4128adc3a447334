/**
  The Python `str` operations the analyser is built from, over `seq<char>`.

  Whitespace is exactly the set `str.isspace()` accepts (also what `\s`, the
  argument-less `strip()` and `split()` use). Digits, letters and their case
  mappings cover ASCII only.
 */
module Text {
  import opened Wrappers

  // ---------------------------------------------------------------------------
  // Character classes and case mapping
  // ---------------------------------------------------------------------------

  /** `c.isspace()` */
  predicate IsSpace(c: char) {
    || c == ' ' || c == '\t' || c == '\n' || c == '\r' || c == '\U{000B}' || c == '\U{000C}'
    || ('\U{001C}' <= c <= '\U{001F}') || c == '\U{0085}' || c == '\U{00A0}' || c == '\U{1680}'
    || ('\U{2000}' <= c <= '\U{200A}') || c == '\U{2028}' || c == '\U{2029}' || c == '\U{202F}'
    || c == '\U{205F}' || c == '\U{3000}'
  }

  predicate IsNotSpace(c: char) { !IsSpace(c) }

  /** `c.isdigit()`, and the class `\d` */
  predicate IsDigit(c: char) { '0' <= c <= '9' }

  predicate IsUpper(c: char) { 'A' <= c <= 'Z' }

  predicate IsLower(c: char) { 'a' <= c <= 'z' }

  /** A character that has a case, as `str.title()` tests it. */
  predicate IsCased(c: char) { IsUpper(c) || IsLower(c) }

  function LowerChar(c: char): (d: char)
    ensures !IsUpper(d)
    ensures !IsUpper(c) ==> d == c
    ensures IsDigit(d) == IsDigit(c) && IsCased(d) == IsCased(c)
  {
    if IsUpper(c) then (c as int + 32) as char else c
  }

  function UpperChar(c: char): (d: char)
    ensures LowerChar(d) == LowerChar(c)
    ensures IsDigit(d) == IsDigit(c) && IsCased(d) == IsCased(c)
  {
    if IsLower(c) then (c as int - 32) as char else c
  }

  /** `s.lower()` */
  function Lower(s: string): (r: string)
    ensures |r| == |s|
    ensures forall i :: 0 <= i < |s| ==> r[i] == LowerChar(s[i])
    ensures forall i :: 0 <= i < |r| ==> !IsUpper(r[i])
    ensures forall i :: 0 <= i < |s| && !IsUpper(s[i]) ==> r[i] == s[i]
  {
    seq(|s|, i requires 0 <= i < |s| => LowerChar(s[i]))
  }

  /** `s.upper()` */
  function Upper(s: string): (r: string)
    ensures |r| == |s|
    ensures forall i :: 0 <= i < |s| ==> r[i] == UpperChar(s[i])
  {
    seq(|s|, i requires 0 <= i < |s| => UpperChar(s[i]))
  }

  /**
    `s.title()`: a cased character is upper-cased when the character before it
    is not cased (or it is the first one), and lower-cased otherwise.
   */
  function Title(s: string): (r: string)
    ensures |r| == |s|
    ensures forall i :: 0 <= i < |s| ==>
      r[i] == if i == 0 || !IsCased(s[i - 1]) then UpperChar(s[i]) else LowerChar(s[i])
  {
    TitleAfter(s, false)
  }

  function TitleAfter(s: string, prevCased: bool): (r: string)
    ensures |r| == |s|
    ensures |s| > 0 ==> r[0] == if prevCased then LowerChar(s[0]) else UpperChar(s[0])
    ensures forall i :: 0 < i < |s| ==>
      r[i] == if IsCased(s[i - 1]) then LowerChar(s[i]) else UpperChar(s[i])
  {
    if s == [] then []
    else [if prevCased then LowerChar(s[0]) else UpperChar(s[0])] + TitleAfter(s[1..], IsCased(s[0]))
  }

  /** Title-casing changes case only: it keeps the length, the digits and the lower-case form. */
  lemma TitleKeepsLower(s: string)
    ensures Lower(Title(s)) == Lower(s)
    ensures forall i :: 0 <= i < |s| ==> IsDigit(Title(s)[i]) == IsDigit(s[i])
  {
    var t := Title(s);
    forall i | 0 <= i < |s| ensures LowerChar(t[i]) == LowerChar(s[i]) {
      if i == 0 || !IsCased(s[i - 1]) {
        assert t[i] == UpperChar(s[i]);
      } else {
        assert t[i] == LowerChar(s[i]);
        assert LowerChar(LowerChar(s[i])) == LowerChar(s[i]);
      }
    }
    assert Lower(t) == Lower(s);
  }

  /** Two strings without upper-case letters that title-case alike are equal. */
  lemma TitleInjectiveOnLower(a: string, b: string)
    requires Lower(a) == a && Lower(b) == b
    requires Title(a) == Title(b)
    ensures a == b
  {
    TitleKeepsLower(a);
    TitleKeepsLower(b);
  }

  // ---------------------------------------------------------------------------
  // Prefixes, substrings and counting
  // ---------------------------------------------------------------------------

  /** `s.startswith(p)` */
  predicate StartsWith(s: string, p: string) {
    |p| <= |s| && s[..|p|] == p
  }

  /** `sub in s` */
  predicate Contains(s: string, sub: string)
    decreases |s|
  {
    StartsWith(s, sub) || (s != [] && Contains(s[1..], sub))
  }

  /** `sub` occurs in `s` starting at index `i`. */
  predicate OccursAt(s: string, sub: string, i: int) {
    0 <= i && i + |sub| <= |s| && s[i..i + |sub|] == sub
  }

  /** `sub in s` holds exactly when `sub` occurs at some index of `s`. */
  lemma ContainsIff(s: string, sub: string)
    ensures Contains(s, sub) <==> exists i :: OccursAt(s, sub, i)
  {
    if Contains(s, sub) {
      var i := ContainsWitness(s, sub);
    }
    forall i | OccursAt(s, sub, i) ensures Contains(s, sub) {
      OccursContains(s, sub, i);
    }
  }

  lemma {:induction false} ContainsWitness(s: string, sub: string) returns (i: nat)
    requires Contains(s, sub)
    ensures OccursAt(s, sub, i)
    decreases |s|
  {
    if StartsWith(s, sub) {
      i := 0;
    } else {
      var j := ContainsWitness(s[1..], sub);
      assert s[1..][j..j + |sub|] == s[j + 1..j + 1 + |sub|];
      i := j + 1;
    }
  }

  lemma {:induction false} OccursContains(s: string, sub: string, i: nat)
    requires OccursAt(s, sub, i)
    ensures Contains(s, sub)
    decreases i
  {
    if i > 0 {
      assert s[1..][i - 1..i - 1 + |sub|] == s[i..i + |sub|];
      OccursContains(s[1..], sub, i - 1);
    }
  }

  /** The first keyword, in list order, that `s` starts with when compared case-insensitively
      (the keywords are lower-case). */
  function FirstKeyword(s: string, keywords: seq<string>): (r: Option<string>)
    ensures r.Some? ==> r.value in keywords && StartsWith(Lower(s), r.value)
    ensures r.None? ==> forall k :: 0 <= k < |keywords| ==> !StartsWith(Lower(s), keywords[k])
  {
    if keywords == [] then None
    else if StartsWith(Lower(s), keywords[0]) then Some(keywords[0])
    else FirstKeyword(s, keywords[1..])
  }

  /** The keyword `FirstKeyword` returns sits at index `k`, and no keyword before it matches. */
  lemma {:induction false} FirstKeywordIndex(s: string, keywords: seq<string>) returns (k: nat)
    requires FirstKeyword(s, keywords).Some?
    ensures k < |keywords| && keywords[k] == FirstKeyword(s, keywords).value
    ensures forall j :: 0 <= j < k ==> !StartsWith(Lower(s), keywords[j])
  {
    if StartsWith(Lower(s), keywords[0]) {
      k := 0;
    } else {
      var k1 := FirstKeywordIndex(s, keywords[1..]);
      k := k1 + 1;
      forall j | 0 < j < k ensures !StartsWith(Lower(s), keywords[j]) {
        assert keywords[j] == keywords[1..][j - 1];
      }
    }
  }

  /** Some character of `s` is a digit. */
  predicate HasDigit(s: string)
    decreases |s|
  {
    s != [] && (IsDigit(s[0]) || HasDigit(s[1..]))
  }

  lemma {:induction false} HasDigitIff(s: string)
    ensures HasDigit(s) <==> exists i :: 0 <= i < |s| && IsDigit(s[i])
    decreases |s|
  {
    if s != [] {
      HasDigitIff(s[1..]);
      assert forall i :: 0 < i < |s| ==> s[i] == s[1..][i - 1];
    }
  }

  /** `s.count(sub)`: occurrences scanned left to right without overlapping. */
  function Count(s: string, sub: string): (n: nat)
    ensures sub == [] ==> n == |s| + 1
    ensures n > 0 ==> Contains(s, sub)
    decreases |s|
  {
    if sub == [] then |s| + 1
    else if StartsWith(s, sub) then
      (var m := Count(s[|sub|..], sub); assert s[..|sub|] == sub; 1 + m)
    else if s == [] then 0
    else Count(s[1..], sub)
  }

  /** `s.replace(a, b)` for single characters. */
  function ReplaceChar(s: string, a: char, b: char): (r: string)
    ensures |r| == |s|
    ensures forall k :: 0 <= k < |s| ==> r[k] == (if s[k] == a then b else s[k])
  {
    seq(|s|, k requires 0 <= k < |s| => if s[k] == a then b else s[k])
  }

  // ---------------------------------------------------------------------------
  // Stripping
  // ---------------------------------------------------------------------------

  /** Drops the leading characters for which `drop` holds. */
  function TrimLeft(s: string, drop: char -> bool): (r: string)
    ensures |r| <= |s| && r == s[|s| - |r|..]
    ensures forall k :: 0 <= k < |s| - |r| ==> drop(s[k])
    ensures r != [] ==> !drop(r[0])
  {
    if s != [] && drop(s[0]) then TrimLeft(s[1..], drop) else s
  }

  /** Drops the trailing characters for which `drop` holds. */
  function TrimRight(s: string, drop: char -> bool): (r: string)
    ensures |r| <= |s| && r == s[..|r|]
    ensures forall k :: |r| <= k < |s| ==> drop(s[k])
    ensures r != [] ==> !drop(r[|r| - 1])
  {
    if s != [] && drop(s[|s| - 1]) then TrimRight(s[..|s| - 1], drop) else s
  }

  /**
    Drops leading and trailing characters for which `drop` holds: what is left
    is a contiguous piece of `s` that starts and ends with a kept character
    and has only dropped characters on either side of it.
   */
  function Trim(s: string, drop: char -> bool): (r: string)
    ensures |r| <= |s|
    ensures r != [] ==> !drop(r[0]) && !drop(r[|r| - 1])
  {
    TrimRight(TrimLeft(s, drop), drop)
  }

  /** Trimming leaves nothing exactly when every character is dropped. */
  lemma TrimEmptyIff(s: string, drop: char -> bool)
    ensures (forall k :: 0 <= k < |s| ==> drop(s[k])) <==> Trim(s, drop) == []
  {
    var l := TrimLeft(s, drop);
    if l != [] {
      assert TrimRight(l, drop) != [] by {
        assert !drop(l[0]);
        assert l[0] == s[|s| - |l|];
      }
    }
  }

  /** `TrimLeft` removes exactly a dropped prefix that is followed by a kept character. */
  lemma {:induction false} TrimLeftPrefix(p: string, rest: string, drop: char -> bool)
    requires forall k :: 0 <= k < |p| ==> drop(p[k])
    requires rest == [] || !drop(rest[0])
    ensures TrimLeft(p + rest, drop) == rest
  {
    if p != [] {
      assert (p + rest)[1..] == p[1..] + rest;
      TrimLeftPrefix(p[1..], rest, drop);
    } else {
      assert p + rest == rest;
    }
  }

  /** `TrimRight` removes exactly a dropped suffix that follows a kept character. */
  lemma {:induction false} TrimRightSuffix(rest: string, t: string, drop: char -> bool)
    requires forall k :: 0 <= k < |t| ==> drop(t[k])
    requires rest == [] || !drop(rest[|rest| - 1])
    ensures TrimRight(rest + t, drop) == rest
  {
    if t != [] {
      assert (rest + t)[..|rest + t| - 1] == rest + t[..|t| - 1];
      TrimRightSuffix(rest, t[..|t| - 1], drop);
    } else {
      assert rest + t == rest;
    }
  }

  /** Trimming twice is trimming once. */
  lemma TrimIdempotent(s: string, drop: char -> bool)
    ensures Trim(Trim(s, drop), drop) == Trim(s, drop)
  {
    var t := Trim(s, drop);
    if t != [] {
      assert TrimLeft(t, drop) == t;
      assert TrimRight(t, drop) == t;
    }
  }

  /** `s.strip()` */
  function Strip(s: string): (r: string)
    ensures r != [] ==> !IsSpace(r[0]) && !IsSpace(r[|r| - 1])
    ensures |r| <= |s|
  {
    Trim(s, IsSpace)
  }

  /** `s.strip()` is the piece of `s` starting at the returned index. */
  lemma StripSlice(s: string) returns (a: nat)
    ensures a + |Strip(s)| <= |s| && Strip(s) == s[a..a + |Strip(s)|]
  {
    var l := TrimLeft(s, IsSpace);
    a := |s| - |l|;
    assert Strip(s) == TrimRight(l, IsSpace);
  }

  /** A substring of a piece of `s` is a substring of `s`. */
  lemma ContainsInSlice(s: string, a: nat, b: nat, sub: string)
    requires a <= b <= |s| && Contains(s[a..b], sub)
    ensures Contains(s, sub)
  {
    var piece := s[a..b];
    var i := ContainsWitness(piece, sub);
    assert piece[i..i + |sub|] == sub;
    assert forall j :: 0 <= j < |sub| ==> s[a + i + j] == piece[i + j] == sub[j];
    assert s[a + i..a + i + |sub|] == sub;
    OccursContains(s, sub, a + i);
  }

  /** `sub in mid` and `mid in s` give `sub in s`. */
  lemma ContainsTransitive(s: string, mid: string, sub: string)
    requires Contains(s, mid) && Contains(mid, sub)
    ensures Contains(s, sub)
  {
    var i := ContainsWitness(s, mid);
    assert s[i..i + |mid|] == mid;
    ContainsInSlice(s, i, i + |mid|, sub);
  }

  /** `s.strip()` occurs in `s`. */
  lemma StripContained(s: string)
    ensures Contains(s, Strip(s))
  {
    var a := StripSlice(s);
    OccursContains(s, Strip(s), a);
  }

  /** Lower-casing commutes with taking a piece. */
  lemma LowerSlice(s: string, a: nat, b: nat)
    requires a <= b <= |s|
    ensures Lower(s[a..b]) == Lower(s)[a..b]
  {
    assert forall i :: 0 <= i < b - a ==> Lower(s[a..b])[i] == LowerChar(s[a + i]) == Lower(s)[a..b][i];
  }

  /** `s.strip(chars)` */
  function StripChars(s: string, chars: set<char>): (r: string)
    ensures r != [] ==> r[0] !in chars && r[|r| - 1] !in chars
    ensures |r| <= |s|
  {
    Trim(s, c => c in chars)
  }

  /** `s.lstrip(chars)` */
  function LStripChars(s: string, chars: set<char>): (r: string)
    ensures r != [] ==> r[0] !in chars
    ensures |r| <= |s| && r == s[|s| - |r|..]
  {
    TrimLeft(s, c => c in chars)
  }

  // ---------------------------------------------------------------------------
  // Splitting and joining
  // ---------------------------------------------------------------------------

  /** Length of the longest prefix of `s` whose characters all satisfy `keep`. */
  function Span(s: string, keep: char -> bool): (n: nat)
    ensures n <= |s|
    ensures forall k :: 0 <= k < n ==> keep(s[k])
    ensures n < |s| ==> !keep(s[n])
  {
    if s != [] && keep(s[0]) then 1 + Span(s[1..], keep) else 0
  }

  /**
    `re.split('[...]', s)` on a class of single characters, and `s.split(c)`
    for `seps == {c}`: the pieces between separators, empty ones included.
   */
  function Split(s: string, seps: set<char>): (r: seq<string>)
    ensures |r| >= 1
    ensures forall k, j :: 0 <= k < |r| && 0 <= j < |r[k]| ==> r[k][j] !in seps
  {
    if s == [] then [[]]
    else
      var rest := Split(s[1..], seps);
      if s[0] in seps then [[]] + rest else [[s[0]] + rest[0]] + rest[1..]
  }

  /** The first piece of a split is a prefix of the string. */
  lemma {:induction false} SplitFirstPrefix(s: string, seps: set<char>)
    ensures |Split(s, seps)[0]| <= |s| && Split(s, seps)[0] == s[..|Split(s, seps)[0]|]
    decreases |s|
  {
    if s != [] {
      SplitFirstPrefix(s[1..], seps);
      if s[0] !in seps {
        var r0 := Split(s[1..], seps)[0];
        assert Split(s, seps)[0] == [s[0]] + r0;
        assert s[..1 + |r0|] == [s[0]] + s[1..][..|r0|];
      }
    }
  }

  /** The first piece of a split occurs in the string. */
  lemma SplitFirstContained(s: string, seps: set<char>)
    ensures Contains(s, Split(s, seps)[0])
  {
    SplitFirstPrefix(s, seps);
    OccursContains(s, Split(s, seps)[0], 0);
  }

  /** `sep.join(parts)` */
  function Join(sep: string, parts: seq<string>): string {
    if parts == [] then []
    else if |parts| == 1 then parts[0]
    else parts[0] + sep + Join(sep, parts[1..])
  }

  /** Joining the pieces of a split with the separator gives back the string. */
  lemma {:induction false} JoinSplit(s: string, c: char)
    ensures Join([c], Split(s, {c})) == s
  {
    if s != [] {
      JoinSplit(s[1..], c);
    }
  }

  lemma {:induction false} SplitNoSep(a: string, c: char)
    requires c !in a
    ensures Split(a, {c}) == [a]
  {
    if a != [] {
      SplitNoSep(a[1..], c);
      assert [a[0]] + a[1..] == a;
    }
  }

  lemma {:induction false} SplitAtSep(a: string, c: char, b: string)
    requires c !in a
    ensures Split(a + [c] + b, {c}) == [a] + Split(b, {c})
  {
    if a != [] {
      assert (a + [c] + b)[1..] == a[1..] + [c] + b;
      SplitAtSep(a[1..], c, b);
      assert [a[0]] + a[1..] == a;
    } else {
      assert (a + [c] + b)[1..] == b;
    }
  }

  /** Splitting a join of separator-free pieces gives back the pieces. */
  lemma {:induction false} SplitJoin(parts: seq<string>, c: char)
    requires |parts| >= 1
    requires forall k :: 0 <= k < |parts| ==> c !in parts[k]
    ensures Split(Join([c], parts), {c}) == parts
  {
    if |parts| == 1 {
      SplitNoSep(parts[0], c);
    } else {
      SplitAtSep(parts[0], c, Join([c], parts[1..]));
      SplitJoin(parts[1..], c);
    }
  }

  /** The span of a run that is followed by a character outside it, or by nothing. */
  lemma {:induction false} SpanOfRun(w: string, rest: string, keep: char -> bool)
    requires forall k :: 0 <= k < |w| ==> keep(w[k])
    requires rest == [] || !keep(rest[0])
    ensures Span(w + rest, keep) == |w|
  {
    if w != [] {
      assert (w + rest)[1..] == w[1..] + rest;
      SpanOfRun(w[1..], rest, keep);
    }
  }

  /** `s.split()`: the maximal runs of non-whitespace characters. */
  function Words(s: string): (r: seq<string>)
    ensures forall k :: 0 <= k < |r| ==> r[k] != []
    ensures forall k, j :: 0 <= k < |r| && 0 <= j < |r[k]| ==> !IsSpace(r[k][j])
    decreases |s|
  {
    if s == [] then []
    else if IsSpace(s[0]) then Words(s[Span(s, IsSpace)..])
    else
      var n := Span(s, IsNotSpace);
      assert s[..n] != [] && forall j :: 0 <= j < n ==> !IsSpace(s[..n][j]);
      [s[..n]] + Words(s[n..])
  }
}
