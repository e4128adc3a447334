/**
  `extract_email`, `extract_phone` and `extract_links`: the contact details
  read from the cleaned text with `re.search` and `re.findall`.
 */
module Contact {
  import opened Wrappers
  import opened Text
  import opened Patterns

  // ---------------------------------------------------------------------------
  // extract_email
  // ---------------------------------------------------------------------------

  const LocalClass: CharClass := AlnumOr({'_', '.', '+', '-'})
  const DomainClass: CharClass := AlnumOr({'-'})
  const TailClass: CharClass := AlnumOr({'-', '.'})

  /** `[a-zA-Z0-9_.+-]+@[a-zA-Z0-9-]+\.[a-zA-Z0-9-.]+` */
  const EmailPattern: seq<Elem> := [
    Rep(LocalClass, 1, None), Rep(Literal('@'), 1, Some(1)),
    Rep(DomainClass, 1, None), Rep(Literal('.'), 1, Some(1)),
    Rep(TailClass, 1, None)
  ]

  /** `extract_email`: the leftmost match in the cleaned text, if any. */
  function ExtractEmail(cleaned: string): Option<string> {
    match Search(EmailPattern, cleaned, 0)
    case Some((b, e)) => Some(cleaned[b..e])
    case None => None
  }

  /** The first piece of a match and the match of the rest of the pattern. */
  lemma MatchesUncons(pat: seq<Elem>, w: string) returns (k: nat)
    requires pat != [] && Matches(pat, w)
    ensures k <= |w| && Fits(pat[0], w[..k]) && Matches(pat[1..], w[k..])
  {
    k :| 0 <= k <= |w| && Fits(pat[0], w[..k]) && Matches(pat[1..], w[k..]);
  }

  /** `local@domain.tail`, each part non-empty and drawn from its class. */
  predicate EmailShape(w: string, at: nat, dot: nat) {
    && 0 < at && at + 1 < dot && dot + 1 < |w|
    && w[at] == '@' && w[dot] == '.'
    && (forall j :: 0 <= j < at ==> InClass(LocalClass, w[j]))
    && (forall j :: at < j < dot ==> InClass(DomainClass, w[j]))
    && (forall j :: dot < j < |w| ==> InClass(TailClass, w[j]))
  }

  /** Every match of the e-mail pattern has the `local@domain.tail` shape. */
  lemma EmailMatchShape(w: string) returns (at: nat, dot: nat)
    requires Matches(EmailPattern, w)
    ensures EmailShape(w, at, dot)
  {
    var cuts := MatchCuts(EmailPattern, w);
    EmailPiecesShape(w, cuts);
    at, dot := cuts[1], cuts[3];
  }

  lemma EmailPiecesShape(w: string, cuts: seq<nat>)
    requires IsCutting(EmailPattern, w, cuts)
    ensures EmailShape(w, cuts[1], cuts[3])
  {
    assert PieceFits(EmailPattern, w, cuts, 0) && PieceFits(EmailPattern, w, cuts, 1);
    assert PieceFits(EmailPattern, w, cuts, 2) && PieceFits(EmailPattern, w, cuts, 3);
    assert PieceFits(EmailPattern, w, cuts, 4);
    var f0, f1, f2, f3, f4 := w[..cuts[1]], w[cuts[1]..cuts[2]], w[cuts[2]..cuts[3]], w[cuts[3]..cuts[4]], w[cuts[4]..];
    assert Fits(EmailPattern[0], f0) && Fits(EmailPattern[1], f1) && Fits(EmailPattern[2], f2);
    assert Fits(EmailPattern[3], f3) && Fits(EmailPattern[4], f4);
    assert cuts[2] == cuts[1] + 1 && cuts[4] == cuts[3] + 1;
    assert w[cuts[1]] == f1[0] && w[cuts[3]] == f3[0];
    forall j | 0 <= j < cuts[1] ensures InClass(LocalClass, w[j]) {
      assert w[j] == f0[j];
    }
    forall j | cuts[1] < j < cuts[3] ensures InClass(DomainClass, w[j]) {
      assert w[j] == f2[j - cuts[2]];
    }
    forall j | cuts[3] < j < |w| ensures InClass(TailClass, w[j]) {
      assert w[j] == f4[j - cuts[4]];
    }
  }

  /**
    A found e-mail is the piece of the text at the leftmost position where the
    pattern matches, it runs on to the end of the greedy `[a-zA-Z0-9-.]+`
    tail, and it has the `local@domain.tail` shape; when none is found, no
    piece of the text matches.
   */
  lemma ExtractEmailLeftmost(cleaned: string)
    ensures match ExtractEmail(cleaned)
      case Some(m) =>
        exists b, e :: (0 <= b <= e <= |cleaned| && m == cleaned[b..e] && Matches(EmailPattern, m)
          && NoMatchFrom(EmailPattern, cleaned, 0, b) && EndsRun(TailClass, cleaned, e))
      case None => NoMatchFrom(EmailPattern, cleaned, 0, |cleaned| + 1)
    ensures ExtractEmail(cleaned).Some? ==> exists at, dot :: EmailShape(ExtractEmail(cleaned).value, at, dot)
  {
    SearchLeftmost(EmailPattern, cleaned, 0);
    if ExtractEmail(cleaned).Some? {
      SearchEndsLastRun(EmailPattern, cleaned, 0);
      var at, dot := EmailMatchShape(ExtractEmail(cleaned).value);
    }
  }

  /** Every string of the `local@domain.tail` shape matches the e-mail pattern. */
  lemma EmailShapeMatches(w: string, at: nat, dot: nat)
    requires EmailShape(w, at, dot)
    ensures Matches(EmailPattern, w)
  {
    var p := EmailPattern;
    var t4, t3, t2, t1 := w[dot + 1..], w[dot..], w[at + 1..], w[at..];
    assert Matches(p[5..], t4[|t4|..]);
    assert Fits(p[4], t4[..|t4|]) by {
      forall j | 0 <= j < |t4| ensures InClass(TailClass, t4[j]) { assert t4[j] == w[dot + 1 + j]; }
    }
    assert Matches(p[4..], t4);
    assert Fits(p[3], t3[..1]) && t3[1..] == t4;
    assert Matches(p[3..], t3);
    assert Fits(p[2], t2[..dot - at - 1]) by {
      forall j | 0 <= j < dot - at - 1 ensures InClass(DomainClass, t2[j]) { assert t2[j] == w[at + 1 + j]; }
    }
    assert t2[dot - at - 1..] == t3;
    assert Matches(p[2..], t2);
    assert Fits(p[1], t1[..1]) && t1[1..] == t2;
    assert Matches(p[1..], t1);
    assert Fits(p[0], w[..at]) by {
      forall j | 0 <= j < at ensures InClass(LocalClass, w[..at][j]) { assert w[..at][j] == w[j]; }
    }
    assert w[at..] == t1;
  }

  /**
    A cleaned text that is exactly one address yields that whole address:
    the search starts at its first character and the greedy tail runs to the
    end.
   */
  lemma WholeEmail(s: string, at: nat, dot: nat)
    requires EmailShape(s, at, dot)
    ensures ExtractEmail(s) == Some(s)
  {
    EmailShapeMatches(s, at, dot);
    assert s[0..|s|] == s;
    MatchFromComplete(EmailPattern, s, 0, |s|);
    var e := MatchFrom(EmailPattern, s, 0).value;
    assert Search(EmailPattern, s, 0) == Some((0, e));
    SearchEndsLastRun(EmailPattern, s, 0);
    MatchFromSound(EmailPattern, s, 0);
    var m := s[0..e];
    var at2, dot2 := EmailMatchShape(m);
    assert m[at2] == s[at2] == '@' && m[dot2] == s[dot2] == '.';
    // The `@` and the dot of the match are those of `s`, so the match runs past the dot.
    assert forall j :: 0 <= j < at ==> s[j] != '@';
    assert forall j :: 0 <= j < at2 ==> s[j] != '@' by {
      forall j | 0 <= j < at2 ensures s[j] != '@' { assert m[j] == s[j]; }
    }
    assert forall j :: at < j < dot ==> s[j] != '.';
    assert forall j :: at2 < j < dot2 ==> s[j] != '.' by {
      forall j | at2 < j < dot2 ensures s[j] != '.' { assert m[j] == s[j]; }
    }
    assert at2 == at && dot2 == dot;
  }

  /** The fixture's address, alone on its line, is found whole. */
  lemma EmailFixture()
    ensures ExtractEmail("john.doe@email.com") == Some("john.doe@email.com")
  {
    var s := "john.doe@email.com";
    assert s[8] == '@' && s[14] == '.';
    forall j | 0 <= j < |s| && j != 8 ensures InClass(TailClass, s[j]) { }
    forall j | 8 < j < 14 ensures InClass(DomainClass, s[j]) { }
    WholeEmail(s, 8, 14);
  }

  // ---------------------------------------------------------------------------
  // extract_phone
  // ---------------------------------------------------------------------------

  const Sep: Elem := Rep(SpaceOrDash, 0, Some(1))
  const Block: Elem := Rep(Digit, 3, Some(4))

  /** `[\s\-]?\d{3,4}[\s\-]?\d{3,4}[\s\-]?\d{3,4}`, the part after the country code. */
  const PhoneTail: seq<Elem> := [Sep, Block, Sep, Block, Sep, Block]

  /** `\+62[\s\-]?\d{3,4}[\s\-]?\d{3,4}[\s\-]?\d{3,4}` */
  const PhonePattern: seq<Elem> :=
    [Rep(Literal('+'), 1, Some(1)), Rep(Literal('6'), 1, Some(1)), Rep(Literal('2'), 1, Some(1))] + PhoneTail

  /** `re.sub(r'\D', '', s)`: the digits of `s`, in order. */
  function Digits(s: string): (r: string)
    ensures forall k :: 0 <= k < |r| ==> IsDigit(r[k])
  {
    if s == [] then [] else (if IsDigit(s[0]) then [s[0]] else []) + Digits(s[1..])
  }

  lemma {:induction false} DigitsAppend(a: string, b: string)
    ensures Digits(a + b) == Digits(a) + Digits(b)
  {
    if a != [] {
      var head := if IsDigit(a[0]) then [a[0]] else [];
      assert (a + b)[0] == a[0] && (a + b)[1..] == a[1..] + b;
      DigitsAppend(a[1..], b);
      calc {
        Digits(a + b);
        head + Digits(a[1..] + b);
        head + (Digits(a[1..]) + Digits(b));
        (head + Digits(a[1..])) + Digits(b);
        Digits(a) + Digits(b);
      }
    } else {
      assert a + b == b;
    }
  }

  /** `extract_phone`: the digits of the leftmost phone-number match, if any. */
  function ExtractPhone(cleaned: string): Option<string> {
    match Search(PhonePattern, cleaned, 0)
    case Some((b, e)) => Some(Digits(cleaned[b..e]))
    case None => None
  }

  /** Whether every character (`Some(true)`) or none (`Some(false)`) of a class is a digit. */
  function ClassDigits(cls: CharClass): Option<bool> {
    match cls
    case AlnumOr(_) => None
    case SpaceOrDash => Some(false)
    case Digit => Some(true)
    case Literal(c) => Some(IsDigit(c))
  }

  /** The fewest and the most digits a match of `pat` can hold, for patterns without mixed classes. */
  function MinDigits(pat: seq<Elem>): nat {
    if pat == [] then 0 else (if ClassDigits(pat[0].cls) == Some(true) then pat[0].lo else 0) + MinDigits(pat[1..])
  }

  function MaxDigits(pat: seq<Elem>): nat {
    if pat == [] then 0
    else (if ClassDigits(pat[0].cls) == Some(true) && pat[0].hi.Some? then pat[0].hi.value else 0) + MaxDigits(pat[1..])
  }

  /** Every class of `pat` is all digits or digit-free, and the digit classes have an upper bound. */
  predicate DigitBounded(pat: seq<Elem>) {
    pat == [] || (
      && ClassDigits(pat[0].cls).Some?
      && (ClassDigits(pat[0].cls) == Some(true) ==> pat[0].hi.Some?)
      && DigitBounded(pat[1..]))
  }

  /** The digits of characters of one class: all of them for a digit class, none for a class without digits. */
  lemma {:induction false} DigitsOfClass(cls: CharClass, u: string)
    requires ClassDigits(cls).Some? && forall j :: 0 <= j < |u| ==> InClass(cls, u[j])
    ensures ClassDigits(cls) == Some(true) ==> Digits(u) == u
    ensures ClassDigits(cls) == Some(false) ==> Digits(u) == []
  {
    if u != [] {
      assert forall j :: 0 <= j < |u[1..]| ==> u[1..][j] == u[j + 1];
      assert InClass(cls, u[0]);
      DigitsOfClass(cls, u[1..]);
    }
  }

  /** A match of a digit-bounded pattern holds between `MinDigits` and `MaxDigits` digits. */
  lemma {:induction false} MatchDigits(pat: seq<Elem>, w: string)
    requires Matches(pat, w) && DigitBounded(pat)
    ensures MinDigits(pat) <= |Digits(w)| <= MaxDigits(pat)
    decreases |pat|
  {
    if pat != [] {
      var k := MatchesUncons(pat, w);
      assert w == w[..k] + w[k..];
      DigitsAppend(w[..k], w[k..]);
      DigitsOfClass(pat[0].cls, w[..k]);
      MatchDigits(pat[1..], w[k..]);
    }
  }

  /** A match that starts with a single literal character. */
  lemma MatchesLiteral(pat: seq<Elem>, w: string, c: char)
    requires pat != [] && pat[0] == Rep(Literal(c), 1, Some(1)) && Matches(pat, w)
    ensures w != [] && w[0] == c && Matches(pat[1..], w[1..])
  {
    var k := MatchesUncons(pat, w);
    assert w[..k][0] == w[0];
  }

  /** The three separators hold no digit and the three blocks 3 or 4 each. */
  lemma PhoneTailDigits()
    ensures DigitBounded(PhoneTail) && MinDigits(PhoneTail) == 9 && MaxDigits(PhoneTail) == 12
  {
    var t1: seq<Elem> := [Block];
    var t2: seq<Elem> := [Sep] + t1;
    var t3: seq<Elem> := [Block] + t2;
    var t4: seq<Elem> := [Sep] + t3;
    var t5: seq<Elem> := [Block] + t4;
    var t6: seq<Elem> := [Sep] + t5;
    assert t1[1..] == [] && t2[1..] == t1 && t3[1..] == t2 && t4[1..] == t3 && t5[1..] == t4 && t6[1..] == t5;
    assert DigitBounded(t1) && DigitBounded(t2) && DigitBounded(t3);
    assert DigitBounded(t4) && DigitBounded(t5) && DigitBounded(t6);
    assert MinDigits(t1) == 3 && MaxDigits(t1) == 4;
    assert MinDigits(t3) == 6 && MaxDigits(t3) == 8;
    assert MinDigits(t5) == 9 && MaxDigits(t5) == 12;
    assert t6 == PhoneTail;
  }

  /** A match of a pattern that starts with three single literal characters. */
  lemma {:induction false} ThreeLiterals(pat: seq<Elem>, w: string, a: char, b: char, c: char)
    requires |pat| >= 3 && Matches(pat, w)
    requires pat[0] == Rep(Literal(a), 1, Some(1)) && pat[1] == Rep(Literal(b), 1, Some(1))
    requires pat[2] == Rep(Literal(c), 1, Some(1))
    ensures |w| >= 3 && w == [a, b, c] + w[3..] && Matches(pat[3..], w[3..])
  {
    MatchesLiteral(pat, w, a);
    MatchesLiteral(pat[1..], w[1..], b);
    MatchesLiteral(pat[2..], w[2..], c);
    assert w[1..][1..] == w[2..] && w[2..][1..] == w[3..];
    assert pat[1..][1..] == pat[2..] && pat[2..][1..] == pat[3..];
  }

  /** A phone match starts with `+62`, followed by a match of the tail. */
  lemma PhonePrefix(w: string)
    requires Matches(PhonePattern, w)
    ensures |w| >= 3 && w == "+62" + w[3..] && Matches(PhoneTail, w[3..])
  {
    ThreeLiterals(PhonePattern, w, '+', '6', '2');
    assert PhonePattern[3..] == PhoneTail;
  }

  lemma PhoneTailCount(v: string)
    requires Matches(PhoneTail, v)
    ensures 9 <= |Digits(v)| <= 12
  {
    PhoneTailDigits();
    MatchDigits(PhoneTail, v);
  }

  /** The digits of a phone match: the country code 62, then 9 to 12 digits of the blocks. */
  lemma PhoneMatchDigits(w: string)
    requires Matches(PhonePattern, w)
    ensures |w| >= 3 && Digits(w) == "62" + Digits(w[3..])
    ensures 9 <= |Digits(w[3..])| <= 12
  {
    PhonePrefix(w);
    PhoneTailCount(w[3..]);
    DigitsAppend("+62", w[3..]);
    assert Digits("+62") == "62";
  }

  /** A found phone number is all digits, starts with the country code 62 and has 11 to 14 digits. */
  lemma PhoneDigits(cleaned: string)
    requires ExtractPhone(cleaned).Some?
    ensures var p := ExtractPhone(cleaned).value;
      && (forall k :: 0 <= k < |p| ==> IsDigit(p[k]))
      && 11 <= |p| <= 14 && p[..2] == "62"
  {
    SearchLeftmost(PhonePattern, cleaned, 0);
    var (b, e) := Search(PhonePattern, cleaned, 0).value;
    PhoneMatchDigits(cleaned[b..e]);
  }

  // ---------------------------------------------------------------------------
  // extract_links
  // ---------------------------------------------------------------------------

  /** The end of the run of non-space characters starting at `i`. */
  function RunEnd(s: string, i: nat): (r: nat)
    requires i <= |s|
    ensures i <= r <= |s|
    ensures forall j :: i <= j < r ==> !IsSpace(s[j])
    ensures r < |s| ==> IsSpace(s[r])
  {
    var n := Span(s[i..], IsNotSpace);
    assert forall j :: i <= j < i + n ==> s[j] == s[i..][j - i];
    i + n
  }

  /**
    Some alternative of `https?://[^\s]+|www\.[^\s]+|[^\s]+\.com/[^\s]+`
    matches at `i`. Every alternative ends with a greedy `[^\s]+`, so each one
    that matches runs to `RunEnd(s, i)`.
   */
  predicate LinkAt(s: string, i: nat)
    requires i <= |s|
  {
    var r := RunEnd(s, i);
    || (StartsWith(s[i..], "https://") && i + 8 < r)
    || (StartsWith(s[i..], "http://") && i + 7 < r)
    || (StartsWith(s[i..], "www.") && i + 4 < r)
    || (i + 2 <= r && Contains(s[i + 1..r - 1], ".com/"))
  }

  lemma LinkAtRun(s: string, i: nat)
    requires i <= |s| && LinkAt(s, i)
    ensures i + 2 <= RunEnd(s, i)
  {
    var r := RunEnd(s, i);
    if StartsWith(s[i..], "https://") || StartsWith(s[i..], "http://") || StartsWith(s[i..], "www.") {
      assert !IsSpace(s[i..][0]) && !IsSpace(s[i..][1]);
      assert s[i] == s[i..][0] && s[i + 1] == s[i..][1];
    }
  }

  /** `re.findall` of the link pattern from `pos`: each match, scanning left to right. */
  function Links(s: string, pos: nat): seq<string>
    requires pos <= |s|
    decreases |s| - pos
  {
    if pos == |s| then []
    else if LinkAt(s, pos) then
      LinkAtRun(s, pos);
      [s[pos..RunEnd(s, pos)]] + Links(s, RunEnd(s, pos))
    else Links(s, pos + 1)
  }

  /** A link: non-empty, without whitespace, and of one of the three forms. */
  predicate IsLink(l: string) {
    && |l| >= 2
    && (forall j :: 0 <= j < |l| ==> !IsSpace(l[j]))
    && (|| (StartsWith(l, "https://") && 8 < |l|)
        || (StartsWith(l, "http://") && 7 < |l|)
        || (StartsWith(l, "www.") && 4 < |l|)
        || Contains(l[1..|l| - 1], ".com/"))
  }

  lemma StartsWithRun(s: string, i: nat, r: nat, p: string)
    requires i <= r <= |s| && |p| <= r - i
    ensures StartsWith(s[i..], p) <==> StartsWith(s[i..r], p)
  {
    assert s[i..][..|p|] == s[i..r][..|p|];
  }

  lemma LinkAtIsLink(s: string, i: nat)
    requires i <= |s| && LinkAt(s, i)
    ensures i + 2 <= RunEnd(s, i) && IsLink(s[i..RunEnd(s, i)])
  {
    LinkAtRun(s, i);
    var r := RunEnd(s, i);
    var l := s[i..r];
    assert l[1..|l| - 1] == s[i + 1..r - 1];
    if r - i >= 8 { StartsWithRun(s, i, r, "https://"); }
    if r - i >= 7 { StartsWithRun(s, i, r, "http://"); }
    if r - i >= 4 { StartsWithRun(s, i, r, "www."); }
    if StartsWith(s[i..], "https://") { assert s[i..][..8] == "https://"; }
    if StartsWith(s[i..], "http://") { assert s[i..][..7] == "http://"; }
    if StartsWith(s[i..], "www.") { assert s[i..][..4] == "www."; }
  }

  /** Every link `findall` returns is a whitespace-free piece of one of the three forms. */
  lemma {:induction false} LinksAreLinks(s: string, pos: nat)
    requires pos <= |s|
    ensures forall k :: 0 <= k < |Links(s, pos)| ==> IsLink(Links(s, pos)[k])
    decreases |s| - pos
  {
    if pos < |s| {
      if LinkAt(s, pos) {
        LinkAtIsLink(s, pos);
        LinksAreLinks(s, RunEnd(s, pos));
      } else {
        LinksAreLinks(s, pos + 1);
      }
    }
  }

  predicate IsLinkedin(link: string) { Contains(link, "linkedin.com") }

  /** The `elif` branch: a link naming both sites counts for LinkedIn only. */
  predicate IsGithub(link: string) { !IsLinkedin(link) && Contains(link, "github.com") }

  /** `link.strip('.,')` */
  function TrimLink(link: string): string { StripChars(link, {'.', ','}) }

  /**
    `slot` is what a loop over `links[..n]` that overwrites the slot with
    `T(link)` for each link satisfying `P` leaves: `None` when no link
    satisfies `P`, and otherwise `T` of the last link that does.
   */
  predicate LastWith(links: seq<string>, n: nat, P: string -> bool, T: string -> string, slot: Option<string>)
    requires n <= |links|
  {
    && (slot.None? <==> forall k :: 0 <= k < n ==> !P(links[k]))
    && (slot.Some? ==> exists k :: (0 <= k < n && P(links[k]) && slot.value == T(links[k])
          && forall j :: k < j < n ==> !P(links[j])))
  }

  /** One more turn of that loop. */
  lemma LastWithStep(links: seq<string>, n: nat, P: string -> bool, T: string -> string, slot: Option<string>)
    requires n < |links| && LastWith(links, n, P, T, slot)
    ensures LastWith(links, n + 1, P, T, if P(links[n]) then Some(T(links[n])) else slot)
  {
    if !P(links[n]) && slot.Some? {
      var k :| 0 <= k < n && P(links[k]) && slot.value == T(links[k]) && forall j :: k < j < n ==> !P(links[j]);
      assert forall j :: k < j < n + 1 ==> !P(links[j]);
    }
  }

  /**
    `extract_links`: each found link overwrites the LinkedIn or GitHub slot it
    belongs to, so each slot ends up holding the last such link, trimmed of
    `.` and `,`, and stays `None` when there is no such link.
   */
  method ExtractLinks(cleaned: string) returns (linkedin: Option<string>, github: Option<string>)
    ensures LastWith(Links(cleaned, 0), |Links(cleaned, 0)|, IsLinkedin, TrimLink, linkedin)
    ensures LastWith(Links(cleaned, 0), |Links(cleaned, 0)|, IsGithub, TrimLink, github)
  {
    var links := Links(cleaned, 0);
    linkedin, github := None, None;
    for i := 0 to |links|
      invariant LastWith(links, i, IsLinkedin, TrimLink, linkedin)
      invariant LastWith(links, i, IsGithub, TrimLink, github)
    {
      var link := links[i];
      LastWithStep(links, i, IsLinkedin, TrimLink, linkedin);
      LastWithStep(links, i, IsGithub, TrimLink, github);
      if Contains(link, "linkedin.com") {
        linkedin := Some(StripChars(link, {'.', ','}));
      } else if Contains(link, "github.com") {
        github := Some(StripChars(link, {'.', ','}));
      }
    }
  }
}
