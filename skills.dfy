/** `is_reasonable_skill` and `extract_skills_from_text`: skills read from the skills section. */
module Skills {
  import opened Wrappers
  import opened Text
  import opened Sorting
  import opened Seqs

  /** The alternatives of the section-keyword group, in the order the regex tries them. */
  const SectionKeywords: seq<string> := [
    "skills", "keterampilan", "kemampuan", "proficiencies", "keahlian", "kompetensi",
    "technical skills", "keahlian teknis", "soft skills", "keahlian soft", "hard skills",
    "keahlian hard", "expertise", "spesialisasi", "specializations", "skill set", "skillset",
    "capabilities", "kualifikasi"
  ]

  /** Bullet characters removed from the front of a line: `-`, `•`, `–`, `~` and space. */
  const Bullets: set<char> := {'-', '•', '–', '~', ' '}

  /** The separators of `re.split(r'[,\|•]', line)`. */
  const FragmentSeparators: set<char> := {',', '|', '•'}

  /** `is_reasonable_skill(s)`: longer than two and at most fifty characters, without a digit. */
  predicate IsReasonableSkill(s: string) {
    2 < |s| <= 50 && !HasDigit(s)
  }

  lemma IsReasonableSkillIff(s: string)
    ensures IsReasonableSkill(s) <==> 3 <= |s| <= 50 && forall i :: 0 <= i < |s| ==> !IsDigit(s[i])
  {
    HasDigitIff(s);
  }

  // ---------------------------------------------------------------------------
  // The section regex `(?i)(kw1|kw2|...)[\s:]*\n?(.*?)(\n\n|\Z)` under DOTALL
  // ---------------------------------------------------------------------------

  predicate IsSpaceOrColon(c: char) { IsSpace(c) || c == ':' }

  /**
    Where the lazy `(.*?)` stops: the first blank-line break `\n\n` at or after
    `q`, or the end of the text.
   */
  function ParagraphEnd(text: string, q: nat): (e: nat)
    requires q <= |text|
    ensures q <= e <= |text|
    ensures e < |text| ==> e + 2 <= |text| && text[e] == '\n' && text[e + 1] == '\n'
    ensures forall k :: q <= k < e && k + 1 < |text| ==> !(text[k] == '\n' && text[k + 1] == '\n')
    decreases |text| - q
  {
    if q + 2 <= |text| && text[q] == '\n' && text[q + 1] == '\n' then q
    else if q == |text| then q
    else ParagraphEnd(text, q + 1)
  }

  /**
    `re.findall` of the section regex from position `pos`: the content group of
    every match, scanning left to right and resuming after each match.
   */
  function SkillCaptures(keywords: seq<string>, text: string, pos: nat): (r: seq<string>)
    requires pos <= |text|
    decreases |text| - pos
  {
    if pos == |text| then []
    else
      match FirstKeyword(text[pos..], keywords)
      case None => SkillCaptures(keywords, text, pos + 1)
      case Some(kw) =>
        var start := pos + |kw|;
        var q := start + Span(text[start..], IsSpaceOrColon);
        var e := ParagraphEnd(text, q);
        var next := if e < |text| then e + 2 else |text|;
        [text[q..e]] + SkillCaptures(keywords, text, next)
  }

  /** Without a newline no break can stop the capture: the content runs to the end of the text. */
  lemma {:induction false} ParagraphEndWithoutNewline(text: string, q: nat)
    requires q <= |text| && '\n' !in text
    ensures ParagraphEnd(text, q) == |text|
    decreases |text| - q
  {
    if q < |text| {
      assert text[q] != '\n';
      ParagraphEndWithoutNewline(text, q + 1);
    }
  }

  /**
    On text without newlines (the cleaned text) there is at most one capture,
    and it is a suffix of the text.
   */
  lemma {:induction false} OneCaptureWithoutNewline(keywords: seq<string>, text: string, pos: nat)
    requires pos <= |text| && '\n' !in text
    ensures |SkillCaptures(keywords, text, pos)| <= 1
    ensures |SkillCaptures(keywords, text, pos)| == 1 ==> exists q :: pos <= q <= |text| && SkillCaptures(keywords, text, pos)[0] == text[q..]
    decreases |text| - pos
  {
    if pos < |text| {
      match FirstKeyword(text[pos..], keywords)
      case None =>
        OneCaptureWithoutNewline(keywords, text, pos + 1);
      case Some(kw) =>
        var start := pos + |kw|;
        var q := start + Span(text[start..], IsSpaceOrColon);
        ParagraphEndWithoutNewline(text, q);
        assert SkillCaptures(keywords, text, pos) == [text[q..|text|]] + SkillCaptures(keywords, text, |text|);
        assert text[q..|text|] == text[q..];
    }
  }

  // ---------------------------------------------------------------------------
  // Candidates and cleaning
  // ---------------------------------------------------------------------------

  /** The fragments of one captured line: stripped, bullets removed, split at separators. */
  function LineFragments(line: string): seq<string> {
    Split(LStripChars(Strip(line), Bullets), FragmentSeparators)
  }

  /** The fragments of all lines of one capture, in order. */
  function CaptureFragments(content: string): seq<string> {
    FlatMap(LineFragments, Split(content, {'\n'}))
  }

  /** `skill_candidates` after the loop over `captures`. */
  function Candidates(captures: seq<string>): seq<string> {
    FlatMap(CaptureFragments, captures)
  }

  /** The inner loop of `extract_skills_from_text`: the fragments of every line of one capture. */
  method CollectCaptureFragments(content: string) returns (fragments: seq<string>)
    ensures fragments == CaptureFragments(content)
  {
    var lines := Split(content, {'\n'});
    fragments := [];
    for n := 0 to |lines|
      invariant fragments == FlatMap(LineFragments, lines[..n])
    {
      var line := LStripChars(Strip(lines[n]), Bullets);
      var pieces := Split(line, FragmentSeparators);
      FlatMapSnoc(LineFragments, lines[..n], lines[n]);
      TakeSnoc(lines, n);
      fragments := fragments + pieces;
    }
    assert lines[..|lines|] == lines;
  }

  /** The loop of `extract_skills_from_text` that extends `skill_candidates` capture by capture. */
  method CollectCandidates(captures: seq<string>) returns (candidates: seq<string>)
    ensures candidates == Candidates(captures)
  {
    candidates := [];
    for m := 0 to |captures|
      invariant candidates == FlatMap(CaptureFragments, captures[..m])
    {
      var fragments := CollectCaptureFragments(captures[m]);
      FlatMapSnoc(CaptureFragments, captures[..m], captures[m]);
      TakeSnoc(captures, m);
      candidates := candidates + fragments;
    }
    assert captures[..|captures|] == captures;
  }

  /** One candidate after `s.strip()`, kept and title-cased when it is a reasonable skill. */
  function CleanSkill(candidate: string): Option<string> {
    var s := Strip(candidate);
    if IsReasonableSkill(s) then Some(Title(s)) else None
  }

  /** `[s.strip().title() for s in candidates if is_reasonable_skill(s.strip())]` */
  function CleanedSkills(candidates: seq<string>): seq<string> {
    FilterMap(CleanSkill, candidates)
  }

  /** `extract_skills_from_text(text)`: the cleaned skills, sorted and without repeats. */
  function ExtractSkillsFromText(text: string): seq<string> {
    SortedDistinct(CleanedSkills(Candidates(SkillCaptures(SectionKeywords, text, 0))))
  }

  /** A kept skill has 3 to 50 characters and no digit. */
  lemma CleanSkillReasonable(candidate: string)
    requires CleanSkill(candidate).Some?
    ensures var s := CleanSkill(candidate).value;
      3 <= |s| <= 50 && forall j :: 0 <= j < |s| ==> !IsDigit(s[j])
  {
    var s := Strip(candidate);
    IsReasonableSkillIff(s);
    TitleKeepsLower(s);
  }

  /** Every cleaned skill has 3 to 50 characters and no digit. */
  lemma CleanedSkillsReasonable(candidates: seq<string>)
    ensures forall y :: y in CleanedSkills(candidates) ==> 3 <= |y| <= 50 && forall j :: 0 <= j < |y| ==> !IsDigit(y[j])
  {
    forall y | y in CleanedSkills(candidates) ensures 3 <= |y| <= 50 && forall j :: 0 <= j < |y| ==> !IsDigit(y[j]) {
      var c :| c in candidates && CleanSkill(c) == Some(y);
      CleanSkillReasonable(c);
    }
  }

  /**
    The skills made from a candidate list have 3 to 50 characters and no
    digit, are sorted without repeats, and are exactly the title-cased
    stripped candidates that pass the filter.
   */
  lemma SkillsFromCandidates(candidates: seq<string>, r: seq<string>)
    requires r == SortedDistinct(CleanedSkills(candidates))
    ensures StrictlySorted(r)
    ensures forall k :: 0 <= k < |r| ==> 3 <= |r[k]| <= 50 && forall j :: 0 <= j < |r[k]| ==> !IsDigit(r[k][j])
    ensures forall x :: x in r <==> exists c :: c in candidates && CleanSkill(c) == Some(x)
  {
    CleanedSkillsReasonable(candidates);
    assert forall k :: 0 <= k < |r| ==> r[k] in r;
  }

  /** `extract_skills_from_text` inherits those properties from its candidates. */
  lemma ExtractedSkillsAreReasonable(text: string)
    ensures var r := ExtractSkillsFromText(text);
      && StrictlySorted(r)
      && (forall k :: 0 <= k < |r| ==> 3 <= |r[k]| <= 50 && forall j :: 0 <= j < |r[k]| ==> !IsDigit(r[k][j]))
      && (forall x :: x in r <==> exists c :: c in Candidates(SkillCaptures(SectionKeywords, text, 0)) && CleanSkill(c) == Some(x))
  {
    SkillsFromCandidates(Candidates(SkillCaptures(SectionKeywords, text, 0)), ExtractSkillsFromText(text));
  }
}
