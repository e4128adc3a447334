/** `ResumeParser.segment_sections`: cutting the résumé text into sections at heading lines. */
module Sections {
  import opened Wrappers
  import opened Text
  import opened Seqs

  /** The section that collects every line before the first heading. */
  const General: string := "general"

  /**
    The heading patterns, in the order they are tried: each section key with
    the alternatives of its case-insensitive pattern.
   */
  const HeadingPatterns: seq<(string, seq<string>)> := [
    ("experience", ExperienceHeadings),
    ("education", EducationHeadings),
    ("skills", SkillsHeadings),
    ("projects", ProjectsHeadings),
    ("certifications", CertificationsHeadings)
  ]

  /** The alternatives of the `experience` heading pattern. */
  const ExperienceHeadings: seq<string> := ["work experience", "pengalaman kerja", "pengalaman", "riwayat pekerjaan",
      "freelance", "internship", "magang", "career history", "experiences", "riwayat karir"]

  /** The alternatives of the `education` heading pattern. */
  const EducationHeadings: seq<string> := ["education", "pendidikan", "academic background", "riwayat pendidikan",
      "educational background", "academic history", "academic qualifications", "educations",
      "qualifications", "kualifikasi", "academic credentials", "academic achievements"]

  /** The alternatives of the `skills` heading pattern. */
  const SkillsHeadings: seq<string> := ["skills", "keterampilan", "keahlian", "kemampuan", "proficiencies",
      "technical skills", "soft skills", "hard skills", "expertise", "skill set", "capabilities",
      "kualifikasi"]

  /** The alternatives of the `projects` heading pattern. */
  const ProjectsHeadings: seq<string> := ["projects", "portfolio", "projek", "proyek", "project experience",
      "project history", "project portfolio", "project work", "project details", "capstones",
      "project work", "project contributions", "project showcases", "project highlights",
      "project accomplishments", "project achievements", "project summaries",
      "project descriptions", "project overviews", "project outlines", "project briefs",
      "project reports", "project documentation"]

  /** The alternatives of the `certifications` heading pattern. */
  const CertificationsHeadings: seq<string> := ["certifications", "sertifikat", "licenses", " lisensi", "certificates",
      "professional certifications", "professional licenses", "professional certificates",
      "professional qualifications", "professional accreditations", "professional credentials"]

  /** `re.match('(?i)(k1|k2|...)', line)`: some alternative is a case-insensitive prefix of the line. */
  predicate MatchesAny(line: string, keywords: seq<string>) {
    exists i :: 0 <= i < |keywords| && StartsWith(Lower(line), keywords[i])
  }

  /** The index of the first pattern that matches the line, if any matches. */
  function FirstMatch(line: string, patterns: seq<(string, seq<string>)>): (r: Option<nat>)
    ensures r.Some? ==> r.value < |patterns|
  {
    if patterns == [] then None
    else if MatchesAny(line, patterns[0].1) then Some(0)
    else
      match FirstMatch(line, patterns[1..])
      case None => None
      case Some(i) => Some(i + 1)
  }

  /** `FirstMatch` finds the first pattern in table order that matches, and only fails when none does. */
  lemma {:induction false} FirstMatchIsFirst(line: string, patterns: seq<(string, seq<string>)>)
    ensures var r := FirstMatch(line, patterns);
      && (r.Some? ==> MatchesAny(line, patterns[r.value].1))
      && (r.Some? ==> forall j :: 0 <= j < r.value ==> !MatchesAny(line, patterns[j].1))
      && (r.None? ==> forall j :: 0 <= j < |patterns| ==> !MatchesAny(line, patterns[j].1))
  {
    if patterns != [] && !MatchesAny(line, patterns[0].1) {
      FirstMatchIsFirst(line, patterns[1..]);
      assert forall j :: 0 < j < |patterns| ==> patterns[j] == patterns[1..][j - 1];
    }
  }

  /** A heading table whose keys are all different from the general section. */
  predicate ValidPatterns(patterns: seq<(string, seq<string>)>) {
    forall j :: 0 <= j < |patterns| ==> patterns[j].0 != General
  }

  /**
    The source's table is valid, its five keys are different from each other,
    and every alternative is written in lower case, so comparing it with the
    lower-cased line is the case-insensitive match.
   */
  lemma HeadingPatternsValid()
    ensures ValidPatterns(HeadingPatterns)
    ensures forall i, j :: 0 <= i < j < |HeadingPatterns| ==> HeadingPatterns[i].0 != HeadingPatterns[j].0
    ensures forall i, k :: 0 <= i < |HeadingPatterns| && 0 <= k < |HeadingPatterns[i].1| ==>
      Lower(HeadingPatterns[i].1[k]) == HeadingPatterns[i].1[k]
  {
    forall i, k | 0 <= i < |HeadingPatterns| && 0 <= k < |HeadingPatterns[i].1|
      ensures Lower(HeadingPatterns[i].1[k]) == HeadingPatterns[i].1[k]
    {
      ExperienceHeadingsLowerCase();
      EducationHeadingsLowerCase();
      SkillsHeadingsLowerCase();
      ProjectsHeadingsLowerCase();
      CertificationsHeadingsLowerCase();
      LowerOfLowerCase(HeadingPatterns[i].1[k]);
    }
  }

  /** A string of lower-case letters and spaces. */
  predicate LowerCaseWord(w: string) {
    forall n :: 0 <= n < |w| ==> IsLower(w[n]) || w[n] == ' '
  }

  /** Every alternative is a string of lower-case letters and spaces. */
  predicate LowerCaseWords(ws: seq<string>) {
    forall k :: 0 <= k < |ws| ==> LowerCaseWord(ws[k])
  }

  /** The alternatives of the `experience` pattern are lower-case words. */
  lemma ExperienceHeadingsLowerCase()
    ensures LowerCaseWords(ExperienceHeadings)
  {
    forall k | 0 <= k < |ExperienceHeadings| ensures LowerCaseWord(ExperienceHeadings[k]) {
      var w := ExperienceHeadings[k];
      forall n | 0 <= n < |w| ensures IsLower(w[n]) || w[n] == ' ' { }
    }
  }

  /** The alternatives of the `education` pattern are lower-case words. */
  lemma EducationHeadingsLowerCase()
    ensures LowerCaseWords(EducationHeadings)
  {
    forall k | 0 <= k < |EducationHeadings| ensures LowerCaseWord(EducationHeadings[k]) {
      var w := EducationHeadings[k];
      forall n | 0 <= n < |w| ensures IsLower(w[n]) || w[n] == ' ' { }
    }
  }

  /** The alternatives of the `skills` pattern are lower-case words. */
  lemma SkillsHeadingsLowerCase()
    ensures LowerCaseWords(SkillsHeadings)
  {
    forall k | 0 <= k < |SkillsHeadings| ensures LowerCaseWord(SkillsHeadings[k]) {
      var w := SkillsHeadings[k];
      forall n | 0 <= n < |w| ensures IsLower(w[n]) || w[n] == ' ' { }
    }
  }

  /** The alternatives of the `projects` pattern are lower-case words. */
  lemma ProjectsHeadingsLowerCase()
    ensures LowerCaseWords(ProjectsHeadings)
  {
    forall k | 0 <= k < |ProjectsHeadings| ensures LowerCaseWord(ProjectsHeadings[k]) {
      var w := ProjectsHeadings[k];
      forall n | 0 <= n < |w| ensures IsLower(w[n]) || w[n] == ' ' { }
    }
  }

  /** The alternatives of the `certifications` pattern are lower-case words. */
  lemma CertificationsHeadingsLowerCase()
    ensures LowerCaseWords(CertificationsHeadings)
  {
    forall k | 0 <= k < |CertificationsHeadings| ensures LowerCaseWord(CertificationsHeadings[k]) {
      var w := CertificationsHeadings[k];
      forall n | 0 <= n < |w| ensures IsLower(w[n]) || w[n] == ' ' { }
    }
  }

  /** A string already in lower case is its own lower-case form. */
  lemma LowerOfLowerCase(w: string)
    requires LowerCaseWord(w)
    ensures Lower(w) == w
  {
  }

  /** The section a stripped line opens under `patterns`, or `None` when it is not a heading. */
  function HeadingOf(patterns: seq<(string, seq<string>)>, line: string): Option<string> {
    match FirstMatch(line, patterns)
    case None => None
    case Some(i) => Some(patterns[i].0)
  }

  /**
    A line is a heading exactly when some pattern matches it, and it then opens
    the section of the first pattern that does.
   */
  lemma HeadingOfIff(patterns: seq<(string, seq<string>)>, line: string)
    ensures HeadingOf(patterns, line).Some? <==> exists j :: 0 <= j < |patterns| && MatchesAny(line, patterns[j].1)
    ensures HeadingOf(patterns, line).Some? ==>
      exists j :: (0 <= j < |patterns| && MatchesAny(line, patterns[j].1)
        && HeadingOf(patterns, line) == Some(patterns[j].0)
        && forall i :: 0 <= i < j ==> !MatchesAny(line, patterns[i].1))
    ensures ValidPatterns(patterns) && HeadingOf(patterns, line).Some? ==> HeadingOf(patterns, line) != Some(General)
  {
    FirstMatchIsFirst(line, patterns);
  }

  /** The source's heading test on a stripped line. */
  function SourceHeading(line: string): Option<string> {
    HeadingOf(HeadingPatterns, line)
  }

  /** The loop state: the section being filled and the lines collected per section. */
  datatype SegState = SegState(current: string, sections: map<string, seq<string>>)

  /** The general section and the section being filled both exist. */
  predicate WellFormed(st: SegState) {
    General in st.sections && st.current in st.sections
  }

  /**
    One iteration of the loop: the stripped line is classified by `heading`; a
    heading moves the cursor and empties its section, and the line is appended
    to the section under the cursor.
   */
  function Step(heading: string -> Option<string>, st: SegState, line: string): (r: SegState)
    requires WellFormed(st)
    ensures WellFormed(r)
    ensures r.sections.Keys == st.sections.Keys + {r.current}
  {
    var lc := Strip(line);
    match heading(lc)
    case Some(k) => SegState(k, st.sections[k := [lc]])
    case None => SegState(st.current, st.sections[st.current := st.sections[st.current] + [lc]])
  }

  /** The state after the loop has consumed `lines`. */
  function Segment(heading: string -> Option<string>, lines: seq<string>): (st: SegState)
    ensures WellFormed(st)
  {
    if lines == [] then SegState(General, map[General := []])
    else Step(heading, Segment(heading, lines[..|lines| - 1]), lines[|lines| - 1])
  }

  /** Consuming one more line is one more step. */
  lemma SegmentSnoc(heading: string -> Option<string>, lines: seq<string>, line: string)
    ensures Segment(heading, lines + [line]) == Step(heading, Segment(heading, lines), line)
  {
    assert (lines + [line])[..|lines|] == lines;
  }

  /** The returned dictionary: each section's lines joined with newlines. */
  function Render(sections: map<string, seq<string>>): (r: map<string, string>)
    ensures r.Keys == sections.Keys
  {
    map k | k in sections :: Join("\n", sections[k])
  }

  /** The loop of `segment_sections`, with the cursor and the dictionary updated line by line. */
  method SegmentLines(heading: string -> Option<string>, lines: seq<string>)
    returns (sections: map<string, seq<string>>)
    ensures sections == Segment(heading, lines).sections
  {
    var current := General;
    sections := map[General := []];
    var i := 0;
    while i < |lines|
      invariant 0 <= i <= |lines|
      invariant Segment(heading, lines[..i]) == SegState(current, sections)
    {
      ghost var before := SegState(current, sections);
      var lineClean := Strip(lines[i]);
      var matched := heading(lineClean);
      if matched.Some? {
        // the heading empties its section, and is then appended to it
        current := matched.value;
        sections := sections[current := [lineClean]];
      } else {
        sections := sections[current := sections[current] + [lineClean]];
      }
      assert SegState(current, sections) == Step(heading, before, lines[i]);
      SegmentSnoc(heading, lines[..i], lines[i]);
      TakeSnoc(lines, i);
      i := i + 1;
    }
    assert lines[..i] == lines;
  }

  /** `segment_sections(text)`: the text's lines under the source's heading table. */
  method SegmentSections(text: string) returns (result: map<string, string>)
    ensures result == Render(Segment(SourceHeading, Split(text, {'\n'})).sections)
    ensures General in result
  {
    var sections := SegmentLines(SourceHeading, Split(text, {'\n'}));
    result := map k | k in sections :: Join("\n", sections[k]);
  }

  /** Every section other than the general one starts with a heading line that opens it. */
  lemma {:induction false} SectionsStartWithHeading(heading: string -> Option<string>, lines: seq<string>)
    ensures forall k :: k in Segment(heading, lines).sections && k != General ==>
      Segment(heading, lines).sections[k] != [] &&
      heading(Segment(heading, lines).sections[k][0]) == Some(k)
  {
    if lines != [] {
      var front, last := lines[..|lines| - 1], lines[|lines| - 1];
      SectionsStartWithHeading(heading, front);
      FrontLast(lines);
      SegmentSnoc(heading, front, last);
      var st := Segment(heading, front);
      var lc := Strip(last);
      var r := Step(heading, st, last);
      forall k | k in r.sections && k != General
        ensures r.sections[k] != [] && heading(r.sections[k][0]) == Some(k)
      {
        if heading(lc) == Some(k) {
          assert r.sections[k] == [lc];
        } else if k in st.sections {
          assert r.sections[k][0] == st.sections[k][0];
        }
      }
    }
  }

  /** The stripped lines of `lines`. */
  function StripAll(lines: seq<string>): (r: seq<string>)
    ensures |r| == |lines|
    ensures forall j :: 0 <= j < |lines| ==> r[j] == Strip(lines[j])
  {
    if lines == [] then [] else [Strip(lines[0])] + StripAll(lines[1..])
  }

  /**
    A heading line for `k` throws away whatever `k` held before: afterwards the
    section is the stripped heading followed by the stripped lines after it, up
    to the next heading.
   */
  lemma {:induction false} SectionAfterHeading(heading: string -> Option<string>, lines: seq<string>,
                                               h: string, rest: seq<string>, k: string)
    requires heading(Strip(h)) == Some(k)
    requires forall j :: 0 <= j < |rest| ==> heading(Strip(rest[j])).None?
    ensures Segment(heading, lines + [h] + rest).current == k
    ensures Segment(heading, lines + [h] + rest).sections[k] == [Strip(h)] + StripAll(rest)
    decreases |rest|
  {
    if rest == [] {
      AppendEmpty(lines + [h]);
      AppendEmpty([Strip(h)]);
      SegmentSnoc(heading, lines, h);
    } else {
      var front, last := rest[..|rest| - 1], rest[|rest| - 1];
      var before := lines + [h] + front;
      FrontLast(rest);
      AppendAssoc(lines + [h], front, [last]);
      assert forall j :: 0 <= j < |front| ==> front[j] == rest[j];
      SectionAfterHeading(heading, lines, h, front, k);
      SegmentSnoc(heading, before, last);
      FrontLast(rest);
      StripAllSnoc(front, last);
      AppendAssoc([Strip(h)], StripAll(front), [Strip(last)]);
    }
  }

  lemma StripAllSnoc(lines: seq<string>, line: string)
    ensures StripAll(lines + [line]) == StripAll(lines) + [Strip(line)]
  {
  }

  /** A repeated heading loses what the first one collected. */
  lemma RepeatedHeadingDiscards(heading: string -> Option<string>, before: seq<string>,
                                h: string, body: seq<string>, again: string, k: string)
    requires heading(Strip(h)) == Some(k) && heading(Strip(again)) == Some(k)
    ensures Segment(heading, before + [h] + body + [again]).sections[k] == [Strip(again)]
  {
    SectionAfterHeading(heading, before + [h] + body, again, [], k);
    assert before + [h] + body + [again] + [] == before + [h] + body + [again];
  }

  /**
    "Kualifikasi" matches both the education and the skills pattern; education
    is tried first and wins.
   */
  lemma KualifikasiIsEducation()
    ensures MatchesAny("Kualifikasi", HeadingPatterns[2].1)
    ensures SourceHeading("Kualifikasi") == Some("education")
  {
    assert Lower("Kualifikasi") == "kualifikasi";
    assert StartsWith(Lower("Kualifikasi"), SkillsHeadings[11]);
    assert StartsWith(Lower("Kualifikasi"), EducationHeadings[9]);
    assert !MatchesAny("Kualifikasi", ExperienceHeadings) by {
      forall i | 0 <= i < |ExperienceHeadings| ensures !StartsWith("kualifikasi", ExperienceHeadings[i]) {
        assert ExperienceHeadings[i][0] != 'k';
      }
    }
    assert FirstMatch("Kualifikasi", HeadingPatterns[1..]) == Some(0);
  }

  /** A line reading just "Experience" opens no section: the pattern only knows the plural. */
  lemma ExperienceIsNoHeading()
    ensures SourceHeading("Experience") == None
  {
    var line := "experience";
    assert Lower("Experience") == line;
    forall j | 0 <= j < |HeadingPatterns| ensures !MatchesAny("Experience", HeadingPatterns[j].1) {
      var kws := HeadingPatterns[j].1;
      forall i | 0 <= i < |kws| ensures !StartsWith(line, kws[i]) {
        var kw := kws[i];
        if kw[0] != 'e' {
          NotPrefixAt(line, kw, 0);
        } else if kw[1] != 'x' {
          NotPrefixAt(line, kw, 1);
        } else if |kw| <= |line| {
          NotPrefixAt(line, kw, 5);
        }
      }
    }
    FirstMatchIsFirst("Experience", HeadingPatterns);
  }

  /** A string is no prefix of a line it differs from at some index. */
  lemma NotPrefixAt(line: string, p: string, i: nat)
    requires i < |p| && (i >= |line| || line[i] != p[i])
    ensures !StartsWith(line, p)
  {
    if |p| <= |line| {
      assert line[..|p|][i] == line[i];
    }
  }

  /** The alternative " lisensi" starts with a space, so no stripped line can match it. */
  lemma LisensiNeverMatches(line: string)
    ensures !StartsWith(Lower(Strip(line)), " lisensi")
  {
    var s := Strip(line);
    if |s| >= 8 {
      assert Lower(s)[0] == LowerChar(s[0]) != ' ';
    }
  }

  /**
    Joining a section with newlines and splitting it again gives its lines back,
    for every section that holds at least one line.
   */
  lemma RenderSplits(heading: string -> Option<string>, lines: seq<string>, k: string)
    requires forall j :: 0 <= j < |lines| ==> '\n' !in lines[j]
    requires k in Segment(heading, lines).sections && Segment(heading, lines).sections[k] != []
    ensures Split(Render(Segment(heading, lines).sections)[k], {'\n'}) == Segment(heading, lines).sections[k]
  {
    var sec := Segment(heading, lines).sections[k];
    NoNewlineStored(heading, lines);
    assert forall j :: 0 <= j < |sec| ==> '\n' !in sec[j];
    SplitJoin(sec, '\n');
  }

  /** No stored line holds a newline. */
  predicate NoNewlines(sections: map<string, seq<string>>) {
    forall k, j :: k in sections && 0 <= j < |sections[k]| ==> '\n' !in sections[k][j]
  }

  /** Lines free of newlines stay free of them once stripped and stored. */
  lemma {:induction false} NoNewlineStored(heading: string -> Option<string>, lines: seq<string>)
    requires forall j :: 0 <= j < |lines| ==> '\n' !in lines[j]
    ensures NoNewlines(Segment(heading, lines).sections)
  {
    if lines != [] {
      var front, last := lines[..|lines| - 1], lines[|lines| - 1];
      assert forall j :: 0 <= j < |front| ==> front[j] == lines[j];
      NoNewlineStored(heading, front);
      FrontLast(lines);
      SegmentSnoc(heading, front, last);
      StepNoNewlines(heading, Segment(heading, front), last);
    }
  }

  lemma StepNoNewlines(heading: string -> Option<string>, st: SegState, line: string)
    requires WellFormed(st) && NoNewlines(st.sections) && '\n' !in line
    ensures NoNewlines(Step(heading, st, line).sections)
  {
    StripIsSlice(line);
  }

  /** `s.strip()` is a contiguous piece of `s`. */
  lemma StripIsSlice(s: string)
    ensures forall c :: c in Strip(s) ==> c in s
  {
    var l := TrimLeft(s, IsSpace);
    var r := TrimRight(l, IsSpace);
    assert Strip(s) == r;
    forall c | c in r ensures c in s {
      var j :| 0 <= j < |r| && r[j] == c;
      assert r[j] == l[j] == s[|s| - |l| + j];
    }
  }
}
