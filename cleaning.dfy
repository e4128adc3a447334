/** `clean_text`: the whitespace normalisation applied to the extracted résumé text. */
module Cleaning {
  import opened Text

  /** `re.sub(r'\s+', ' ', s)`: every maximal run of whitespace becomes one space. */
  function Collapse(s: string): string
    decreases |s|
  {
    if s == [] then []
    else if IsSpace(s[0]) then " " + Collapse(s[Span(s, IsSpace)..])
    else
      var n := Span(s, IsNotSpace);
      s[..n] + Collapse(s[n..])
  }

  /** Non-empty words with no whitespace in them, as `str.split()` returns. */
  predicate IsWordList(ws: seq<string>) {
    forall k :: 0 <= k < |ws| ==> ws[k] != [] && forall j :: 0 <= j < |ws[k]| ==> !IsSpace(ws[k][j])
  }

  /** A string in normal form: no whitespace but single spaces between non-space characters. */
  predicate IsNormalised(r: string) {
    && (r != [] ==> !IsSpace(r[0]) && !IsSpace(r[|r| - 1]))
    && (forall i :: 0 <= i < |r| && IsSpace(r[i]) ==> r[i] == ' ')
    && (forall i :: 0 <= i < |r| - 1 ==> !IsSpace(r[i]) || !IsSpace(r[i + 1]))
  }

  /**
    `clean_text(s)`. It equals `' '.join(s.split())`, so the result has no
    leading or trailing whitespace and never two whitespace characters in a row.
   */
  function CleanText(s: string): (r: string)
    ensures r == Join(" ", Words(s))
    ensures IsNormalised(r)
  {
    var r := Strip(Collapse(s));
    CleanTextIsJoinedWords(s);
    JoinedWordsNormalised(Words(s));
    r
  }

  /** Applying `clean_text` twice gives the same result as applying it once. */
  lemma CleanTextIdempotent(s: string)
    ensures CleanText(CleanText(s)) == CleanText(s)
  {
    WordsOfJoin(Words(s));
  }

  lemma CollapseOfWord(w: string, rest: string)
    requires w != [] && forall k :: 0 <= k < |w| ==> !IsSpace(w[k])
    requires rest == [] || IsSpace(rest[0])
    ensures Collapse(w + rest) == w + Collapse(rest)
  {
    SpanOfRun(w, rest, IsNotSpace);
    assert (w + rest)[..|w|] == w && (w + rest)[|w|..] == rest;
  }

  lemma CollapseOfSpaces(sp: string, rest: string)
    requires sp != [] && forall k :: 0 <= k < |sp| ==> IsSpace(sp[k])
    requires rest == [] || !IsSpace(rest[0])
    ensures Collapse(sp + rest) == " " + Collapse(rest)
  {
    SpanOfRun(sp, rest, IsSpace);
    assert (sp + rest)[|sp|..] == rest;
  }

  /** Ends in a whitespace character. */
  predicate EndsInSpace(s: string) {
    s != [] && IsSpace(s[|s| - 1])
  }

  /** What `CollapseFromWord` states, for one string. */
  predicate CollapsesToWords(s: string) {
    Collapse(s) == Join(" ", Words(s)) + (if EndsInSpace(s) then " " else "")
  }

  /**
    For a string that starts with a non-space character (or is empty), the
    collapsed string is the words joined by single spaces, plus one space when
    the string ends in whitespace.
   */
  lemma {:induction false} CollapseFromWord(s: string)
    requires s == [] || !IsSpace(s[0])
    ensures CollapsesToWords(s)
    decreases |s|
  {
    if s != [] {
      var w, sp, rest := SplitFirstWord(s);
      if sp == [] {
        CollapseOneWord(w);
      } else {
        if rest != [] {
          CollapseFromWord(rest);
        }
        CollapseWordThenSpaces(w, sp, rest);
      }
    }
  }

  /** A string that starts with a word is that word, the whitespace after it, and the rest. */
  lemma SplitFirstWord(s: string) returns (w: string, sp: string, rest: string)
    requires s != [] && !IsSpace(s[0])
    ensures s == w + (sp + rest) && |rest| < |s|
    ensures w != [] && forall k :: 0 <= k < |w| ==> !IsSpace(w[k])
    ensures forall k :: 0 <= k < |sp| ==> IsSpace(sp[k])
    ensures rest == [] || !IsSpace(rest[0])
    ensures sp == [] ==> s == w
  {
    var n := Span(s, IsNotSpace);
    var after := s[n..];
    var m := Span(after, IsSpace);
    w, sp, rest := s[..n], after[..m], after[m..];
    assert after == sp + rest;
    assert s == w + after;
  }

  lemma CollapseOneWord(w: string)
    requires w != [] && forall k :: 0 <= k < |w| ==> !IsSpace(w[k])
    ensures CollapsesToWords(w)
  {
    CollapseOfWord(w, []);
    WordsOfWord(w, []);
    assert w + [] == w;
  }

  lemma CollapseWordThenSpaces(w: string, sp: string, rest: string)
    requires w != [] && forall k :: 0 <= k < |w| ==> !IsSpace(w[k])
    requires sp != [] && forall k :: 0 <= k < |sp| ==> IsSpace(sp[k])
    requires rest == [] || !IsSpace(rest[0])
    requires rest != [] ==> CollapsesToWords(rest)
    ensures CollapsesToWords(w + (sp + rest))
  {
    var s := w + (sp + rest);
    CollapseOfWord(w, sp + rest);
    CollapseOfSpaces(sp, rest);
    WordsOfWord(w, sp + rest);
    WordsOfSpaces(sp, rest);
    EndsInSpaceOfSpaces(w, sp, rest);
    if rest == [] {
      assert Collapse(s) == w + (" " + []);
      assert Join(" ", Words(s)) == w;
    } else {
      var ws := Words(rest);
      JoinCons(w, ws);
      AppendAssoc(w, " ", Join(" ", ws), if EndsInSpace(rest) then " " else "");
    }
  }

  lemma EndsInSpaceOfSpaces(w: string, sp: string, rest: string)
    requires sp != [] && forall k :: 0 <= k < |sp| ==> IsSpace(sp[k])
    ensures EndsInSpace(w + (sp + rest)) == (rest == [] || EndsInSpace(rest))
  {
    var s := w + (sp + rest);
    if rest == [] {
      assert s[|s| - 1] == sp[|sp| - 1];
    } else {
      assert s[|s| - 1] == rest[|rest| - 1];
    }
  }

  lemma JoinCons(w: string, ws: seq<string>)
    requires ws != []
    ensures Join(" ", [w] + ws) == w + (" " + Join(" ", ws))
  {
    assert ([w] + ws)[1..] == ws;
  }

  lemma AppendAssoc(a: string, b: string, c: string, d: string)
    ensures a + (b + (c + d)) == (a + (b + c)) + d
  {
  }

  /** `re.sub(r'\s+', ' ', s).strip() == ' '.join(s.split())` */
  lemma CleanTextIsJoinedWords(s: string)
    ensures Strip(Collapse(s)) == Join(" ", Words(s))
  {
    var lead, t := DropLeadingSpaces(s);
    var ws := Words(t);
    var trail := if EndsInSpace(t) then " " else "";
    CollapseFromWord(t);
    JoinOuterNotSpace(ws);
    StripPadded(Collapse(s), lead, Join(" ", ws), trail);
  }

  /** A space-joined word list neither starts nor ends with whitespace. */
  lemma JoinOuterNotSpace(ws: seq<string>)
    requires IsWordList(ws)
    ensures var j := Join(" ", ws); j != [] ==> !IsSpace(j[0]) && !IsSpace(j[|j| - 1])
  {
    JoinedWordsNormalised(ws);
  }

  /** Leading whitespace collapses to at most one space and holds no word. */
  lemma DropLeadingSpaces(s: string) returns (lead: string, t: string)
    ensures lead == "" || lead == " "
    ensures t == [] || !IsSpace(t[0])
    ensures Collapse(s) == lead + Collapse(t)
    ensures Words(s) == Words(t)
  {
    lead, t := "", s;
    if s != [] && IsSpace(s[0]) {
      var m := Span(s, IsSpace);
      lead, t := " ", s[m..];
      assert s == s[..m] + t;
      CollapseOfSpaces(s[..m], t);
      WordsOfSpaces(s[..m], t);
    }
  }

  /** Stripping at most one space from each end of a string without outer whitespace gives it back. */
  lemma StripPadded(c: string, lead: string, j: string, trail: string)
    requires c == lead + (j + trail)
    requires lead == "" || lead == " "
    requires trail == "" || trail == " "
    requires j != [] ==> !IsSpace(j[0]) && !IsSpace(j[|j| - 1])
    ensures Strip(c) == j
  {
    if j == [] {
      var p := lead + trail;
      assert forall k :: 0 <= k < |p| ==> p[k] == ' ';
      assert c == p + [];
      TrimLeftPrefix(p, [], IsSpace);
    } else {
      TrimLeftPrefix(lead, j + trail, IsSpace);
      TrimRightSuffix(j, trail, IsSpace);
    }
  }

  /** Joining a word list with single spaces gives a normalised string. */
  lemma {:induction false} JoinedWordsNormalised(ws: seq<string>)
    requires IsWordList(ws)
    ensures IsNormalised(Join(" ", ws))
  {
    if |ws| > 1 {
      JoinedWordsNormalised(ws[1..]);
      var w, j := ws[0], Join(" ", ws[1..]);
      var r := w + " " + j;
      assert Join(" ", ws) == r;
      assert j != [] by {
        assert ws[1..] == [ws[1]] + ws[2..];
      }
      forall i | 0 <= i < |r| - 1 ensures !IsSpace(r[i]) || !IsSpace(r[i + 1]) {
        if i + 1 < |w| {
          assert r[i] == w[i];
        } else if i + 1 > |w| + 1 {
          assert r[i] == j[i - |w| - 1] && r[i + 1] == j[i - |w|];
        } else if i + 1 == |w| {
          assert r[i] == w[i];
        } else {
          assert r[i + 1] == j[0];
        }
      }
      forall i | 0 <= i < |r| && IsSpace(r[i]) ensures r[i] == ' ' {
        if i > |w| {
          assert r[i] == j[i - |w| - 1];
        }
      }
    }
  }

  /** A word followed by whitespace or by nothing is the first of the words. */
  lemma WordsOfWord(w: string, rest: string)
    requires w != [] && forall k :: 0 <= k < |w| ==> !IsSpace(w[k])
    requires rest == [] || IsSpace(rest[0])
    ensures Words(w + rest) == [w] + Words(rest)
  {
    SpanOfRun(w, rest, IsNotSpace);
    assert (w + rest)[..|w|] == w && (w + rest)[|w|..] == rest;
  }

  /** A whitespace run followed by a non-space character (or nothing) holds no word. */
  lemma WordsOfSpaces(sp: string, rest: string)
    requires sp != [] && forall k :: 0 <= k < |sp| ==> IsSpace(sp[k])
    requires rest == [] || !IsSpace(rest[0])
    ensures Words(sp + rest) == Words(rest)
  {
    SpanOfRun(sp, rest, IsSpace);
    assert (sp + rest)[|sp|..] == rest;
  }

  /** Splitting a space-joined word list on whitespace gives the words back. */
  lemma {:induction false} WordsOfJoin(ws: seq<string>)
    requires IsWordList(ws)
    ensures Words(Join(" ", ws)) == ws
  {
    if |ws| == 1 {
      WordsOfWord(ws[0], []);
      assert ws[0] + [] == ws[0];
    } else if |ws| > 1 {
      var w, tail := ws[0], ws[1..];
      assert IsWordList(tail);
      WordsOfJoin(tail);
      JoinStartsWithWord(tail);
      WordsOfWord(w, " " + Join(" ", tail));
      WordsOfSpaces(" ", Join(" ", tail));
      JoinCons(w, tail);
      assert ws == [w] + tail;
    }
  }

  /** A space-joined non-empty word list starts with the first letter of its first word. */
  lemma JoinStartsWithWord(ws: seq<string>)
    requires IsWordList(ws) && ws != []
    ensures Join(" ", ws) != [] && !IsSpace(Join(" ", ws)[0])
  {
    if |ws| > 1 {
      assert Join(" ", ws) == ws[0] + " " + Join(" ", ws[1..]);
      assert Join(" ", ws)[0] == ws[0][0];
    }
  }
}
