/** `extract_education`, `extract_projects` and `extract_experience`: the per-section item lists. */
module Items {
  import opened Wrappers
  import opened Text
  import opened Seqs

  /** `sections.get(key, "")` */
  function SectionText(sections: map<string, string>, key: string): string {
    if key in sections then sections[key] else ""
  }

  // ---------------------------------------------------------------------------
  // Education: `re.findall(r'(SMA|SMK|...|Institut)[^\n]{0,80}', text, re.IGNORECASE)`
  // ---------------------------------------------------------------------------

  /** The alternatives of the degree group, lower-cased, in the order the regex tries them. */
  const EducationKeywords: seq<string> :=
    ["sma", "smk", "sarjana", "s1", "s2", "s3", "bachelor", "master", "doctor", "universitas", "institut"]

  /** At most this many non-newline characters follow the keyword inside one match. */
  const TailLimit: nat := 80

  predicate NonEmptyKeywords(keywords: seq<string>) {
    forall k :: 0 <= k < |keywords| ==> keywords[k] != []
  }

  predicate NotNewline(c: char) { c != '\n' }

  /** Some keyword occurs, compared case-insensitively, at index `i` of `text`. */
  predicate KeywordAt(keywords: seq<string>, text: string, i: nat)
    requires i <= |text|
  {
    exists k :: 0 <= k < |keywords| && StartsWith(Lower(text[i..]), keywords[k])
  }

  /**
    `re.findall` of the education regex from `pos`. The pattern has one group,
    so each match contributes only the keyword as written in the text; the
    trailing `[^\n]{0,80}` is consumed and scanning resumes after it.
   */
  function EducationMatches(keywords: seq<string>, text: string, pos: nat): seq<string>
    requires NonEmptyKeywords(keywords) && pos <= |text|
    decreases |text| - pos
  {
    if pos == |text| then []
    else
      match FirstKeyword(text[pos..], keywords)
      case None => EducationMatches(keywords, text, pos + 1)
      case Some(kw) =>
        var start := pos + |kw|;
        var tail := Span(text[start..], NotNewline);
        var next := start + if tail < TailLimit then tail else TailLimit;
        [text[pos..start]] + EducationMatches(keywords, text, next)
  }

  /** `extract_education()`: the distinct keywords found in the education section. */
  function Education(sections: map<string, string>): set<string> {
    Elements(EducationMatches(EducationKeywords, SectionText(sections, "education"), 0))
  }

  /** A match of keyword `kw` at `pos` is the piece of text there, and it lower-cases to `kw`. */
  lemma KeywordPiece(text: string, pos: nat, kw: string)
    requires pos <= |text| && StartsWith(Lower(text[pos..]), kw)
    ensures pos + |kw| <= |text| && Lower(text[pos..pos + |kw|]) == kw
  {
    LowerSlice(text, pos, pos + |kw|);
    LowerSlice(text, pos, |text|);
    assert text[pos..|text|] == text[pos..];
    assert Lower(text)[pos..pos + |kw|] == Lower(text[pos..])[..|kw|];
  }

  /** `m` lower-cases to a keyword and occurs in `text` at or after `pos`. */
  ghost predicate FoundAfter(keywords: seq<string>, text: string, pos: nat, m: string) {
    Lower(m) in keywords && exists i :: pos <= i && OccursAt(text, m, i)
  }

  /**
    Every education match is a piece of the text at or after `pos` that
    lower-cases to one of the keywords.
   */
  lemma {:induction false} EducationMatchesAreKeywords(keywords: seq<string>, text: string, pos: nat)
    requires NonEmptyKeywords(keywords) && pos <= |text|
    ensures forall m :: m in EducationMatches(keywords, text, pos) ==> FoundAfter(keywords, text, pos, m)
    decreases |text| - pos
  {
    if pos < |text| {
      match FirstKeyword(text[pos..], keywords)
      case None =>
        EducationMatchesAreKeywords(keywords, text, pos + 1);
        forall m | FoundAfter(keywords, text, pos + 1, m) ensures FoundAfter(keywords, text, pos, m) {
          var i :| pos + 1 <= i && OccursAt(text, m, i);
        }
      case Some(kw) =>
        var start := pos + |kw|;
        KeywordPiece(text, pos, kw);
        assert OccursAt(text, text[pos..start], pos);
        var tail := Span(text[start..], NotNewline);
        var next := start + if tail < TailLimit then tail else TailLimit;
        EducationMatchesAreKeywords(keywords, text, next);
        forall m | FoundAfter(keywords, text, next, m) ensures FoundAfter(keywords, text, pos, m) {
          var i :| next <= i && OccursAt(text, m, i);
        }
    }
  }

  /**
    The scan from `pos` finds nothing exactly when no keyword occurs,
    case-insensitively, at any index from `pos` on.
   */
  lemma {:induction false} EducationEmptyIff(keywords: seq<string>, text: string, pos: nat)
    requires NonEmptyKeywords(keywords) && pos <= |text|
    ensures EducationMatches(keywords, text, pos) == [] <==> forall i :: pos <= i < |text| ==> !KeywordAt(keywords, text, i)
    decreases |text| - pos
  {
    if pos < |text| {
      match FirstKeyword(text[pos..], keywords)
      case None =>
        EducationEmptyIff(keywords, text, pos + 1);
        assert !KeywordAt(keywords, text, pos);
      case Some(kw) =>
        var k :| 0 <= k < |keywords| && keywords[k] == kw;
        assert KeywordAt(keywords, text, pos);
    }
  }

  /** The education items are keywords as written in the section, and there are none exactly when no keyword occurs. */
  lemma EducationSpec(sections: map<string, string>)
    ensures var text := SectionText(sections, "education");
      && (forall m :: m in Education(sections) ==> Lower(m) in EducationKeywords && Contains(text, m))
      && (Education(sections) == {} <==> forall i :: 0 <= i < |text| ==> !KeywordAt(EducationKeywords, text, i))
  {
    var text := SectionText(sections, "education");
    var ms := EducationMatches(EducationKeywords, text, 0);
    EducationMatchesAreKeywords(EducationKeywords, text, 0);
    EducationEmptyIff(EducationKeywords, text, 0);
    forall m | m in Education(sections) ensures Lower(m) in EducationKeywords && Contains(text, m) {
      assert FoundAfter(EducationKeywords, text, 0, m);
      var i :| 0 <= i && OccursAt(text, m, i);
      OccursContains(text, m, i);
    }
    if ms != [] {
      assert ms[0] in Education(sections);
    }
  }

  // ---------------------------------------------------------------------------
  // Projects
  // ---------------------------------------------------------------------------

  /** The characters `line.strip("-• ")` removes. */
  const ProjectStripChars: set<char> := {'-', '•', ' '}

  /** A project line is kept when its whitespace-stripped form is longer than five characters. */
  function ProjectItem(line: string): Option<string> {
    if |Strip(line)| > 5 then Some(StripChars(line, ProjectStripChars)) else None
  }

  /** `extract_projects()`: one item per kept line, in line order, repeats included. */
  function Projects(sections: map<string, string>): seq<string> {
    FilterMap(ProjectItem, Split(SectionText(sections, "projects"), {'\n'}))
  }

  /** Splitting at the last newline: the lines of `text + "\n" + line` are those of `text`, then `line`. */
  lemma {:induction false} SplitSnocLine(text: string, line: string)
    requires '\n' !in line
    ensures Split(text + ['\n'] + line, {'\n'}) == Split(text, {'\n'}) + [line]
    decreases |text|
  {
    if text == [] {
      assert (text + ['\n'] + line)[1..] == line;
      SplitNoSep(line, '\n');
    } else {
      assert (text + ['\n'] + line)[1..] == text[1..] + ['\n'] + line;
      SplitSnocLine(text[1..], line);
    }
  }

  /**
    Adding a line to the projects section adds exactly one item, at the end,
    when its stripped form is longer than five characters, and nothing
    otherwise: items follow the lines and are never deduplicated.
   */
  lemma ProjectsAppendLine(text: string, line: string)
    requires '\n' !in line
    ensures var before := FilterMap(ProjectItem, Split(text, {'\n'}));
      FilterMap(ProjectItem, Split(text + ['\n'] + line, {'\n'})) ==
        before + (if |Strip(line)| > 5 then [StripChars(line, ProjectStripChars)] else [])
  {
    SplitSnocLine(text, line);
    FilterMapSnoc(ProjectItem, Split(text, {'\n'}), line);
  }

  /** The projects are exactly the bullet-stripped forms of the section's long lines. */
  lemma ProjectsSpec(sections: map<string, string>)
    ensures forall p :: p in Projects(sections) <==>
      exists line :: line in Split(SectionText(sections, "projects"), {'\n'}) && |Strip(line)| > 5 && p == StripChars(line, ProjectStripChars)
    ensures |Projects(sections)| <= |Split(SectionText(sections, "projects"), {'\n'})|
  {
  }

  /** A line of six dashes passes the length test and strips to an empty item. */
  lemma ProjectItemCanBeEmpty()
    ensures ProjectItem("------") == Some("")
  {
    var s := "------";
    assert forall k :: 0 <= k < |s| ==> !IsSpace(s[k]);
    assert TrimLeft(s, IsSpace) == s;
    assert TrimRight(s, IsSpace) == s;
    TrimEmptyIff(s, c => c in ProjectStripChars);
  }

  // ---------------------------------------------------------------------------
  // Experience
  // ---------------------------------------------------------------------------

  /** The characters `line.strip("-•\u2022 \t")` removes (`\u2022` is `•` written again). */
  const ExperienceStripChars: set<char> := {'-', '•', ' ', '\t'}

  /** A line is kept, stripped, when what is left is longer than five characters. */
  function ExperienceItem(line: string): Option<string> {
    var s := StripChars(line, ExperienceStripChars);
    if |s| > 5 then Some(s) else None
  }

  /** The distinct items of `extract_experience()` for the section text. */
  function ExperienceItems(text: string): set<string> {
    Elements(FilterMap(ExperienceItem, Split(text, {'\n'})))
  }

  /** `extract_experience()`: the loop appending kept lines, then `set` removes repeats. */
  method ExtractExperience(sections: map<string, string>) returns (items: set<string>)
    ensures items == ExperienceItems(SectionText(sections, "experience"))
  {
    var text := SectionText(sections, "experience");
    var lines := Split(text, {'\n'});
    var experienceList: seq<string> := [];
    for i := 0 to |lines|
      invariant experienceList == FilterMap(ExperienceItem, lines[..i])
    {
      var line := StripChars(lines[i], ExperienceStripChars);
      assert ExperienceItem(lines[i]) == if |line| > 5 then Some(line) else None;
      FilterMapSnoc(ExperienceItem, lines[..i], lines[i]);
      TakeSnoc(lines, i);
      if |line| > 5 {
        experienceList := experienceList + [line];
      }
    }
    assert lines[..|lines|] == lines;
    assert experienceList == FilterMap(ExperienceItem, lines);
    items := Elements(experienceList);
    assert items == Elements(FilterMap(ExperienceItem, lines));
    assert Elements(FilterMap(ExperienceItem, lines)) == ExperienceItems(text);
  }

  /** A kept experience line is longer than five characters and is left unchanged by the strip. */
  lemma ExperienceItemStable(line: string)
    requires ExperienceItem(line).Some?
    ensures var x := ExperienceItem(line).value;
      |x| > 5 && StripChars(x, ExperienceStripChars) == x
  {
    TrimIdempotent(line, c => c in ExperienceStripChars);
  }

  /**
    Every experience item is longer than five characters and is left unchanged
    by the strip, and the items are exactly the stripped long lines.
   */
  lemma ExperienceItemsSpec(text: string)
    ensures forall x :: x in ExperienceItems(text) ==> |x| > 5 && StripChars(x, ExperienceStripChars) == x
    ensures forall x :: x in ExperienceItems(text) <==>
      exists line :: line in Split(text, {'\n'}) && x == StripChars(line, ExperienceStripChars) && |x| > 5
  {
    var lines := Split(text, {'\n'});
    var kept := FilterMap(ExperienceItem, lines);
    assert forall x :: x in ExperienceItems(text) <==> x in kept;
    forall x | x in ExperienceItems(text)
      ensures |x| > 5 && StripChars(x, ExperienceStripChars) == x
      ensures exists line :: line in lines && x == StripChars(line, ExperienceStripChars) && |x| > 5
    {
      var line :| line in lines && ExperienceItem(line) == Some(x);
      assert x == StripChars(line, ExperienceStripChars) && |x| > 5;
      ExperienceItemStable(line);
    }
    forall x | exists line :: line in lines && x == StripChars(line, ExperienceStripChars) && |x| > 5
      ensures x in ExperienceItems(text)
    {
      var line :| line in lines && x == StripChars(line, ExperienceStripChars) && |x| > 5;
      assert ExperienceItem(line) == Some(x);
    }
  }
}
