/**
  `build_details()`: the analyser's result record, assembled from the
  extractors, the scorers and the recommender, together with the two formulas
  it adds itself: the skill-dataset filter and the résumé score.
 */
module Details {
  import opened Wrappers
  import opened Sorting
  import opened Entities
  import Text
  import Cleaning
  import Sections
  import Contact
  import Names
  import Skills
  import Items
  import Dates
  import ExperienceScore
  import Recommender

  // ---------------------------------------------------------------------------
  // The skill-dataset filter
  // ---------------------------------------------------------------------------

  /** `[s for s in raw if s in predefined]` */
  function MatchedSkills(raw: seq<string>, predefined: set<string>): seq<string> {
    if raw == [] then []
    else MatchedSkills(raw[..|raw| - 1], predefined) + (if raw[|raw| - 1] in predefined then [raw[|raw| - 1]] else [])
  }

  /**
    The filter keeps exactly the extracted skills that are in the dataset,
    never lengthens the list and keeps a strictly sorted list strictly sorted.
   */
  lemma {:induction false} MatchedSkillsSpec(raw: seq<string>, predefined: set<string>)
    ensures forall x :: x in MatchedSkills(raw, predefined) <==> x in raw && x in predefined
    ensures |MatchedSkills(raw, predefined)| <= |raw|
    ensures StrictlySorted(raw) ==> StrictlySorted(MatchedSkills(raw, predefined))
  {
    if raw != [] {
      var front, last := raw[..|raw| - 1], raw[|raw| - 1];
      MatchedSkillsSpec(front, predefined);
      assert forall x :: x in raw <==> x in front || x == last by {
        assert raw == front + [last];
      }
      if StrictlySorted(raw) {
        assert StrictlySorted(front);
        var kept := MatchedSkills(front, predefined);
        assert forall k :: 0 <= k < |kept| ==> Less(kept[k], last) by {
          forall k | 0 <= k < |kept| ensures Less(kept[k], last) {
            assert kept[k] in front;
            var j :| 0 <= j < |front| && front[j] == kept[k];
            assert raw[j] == kept[k];
          }
        }
      }
    }
  }

  // ---------------------------------------------------------------------------
  // The résumé score
  // ---------------------------------------------------------------------------

  /** `round(60 + 0.5 * matched)`, with Python's ties-to-even rounding. */
  function ResumeScore(matched: nat): nat {
    var half := matched / 2;
    if matched % 2 == 0 then 60 + half
    else if (60 + half) % 2 == 0 then 60 + half
    else 61 + half
  }

  /**
    The score is the nearest integer to 60 + matched / 2, an exact half goes
    to the even neighbour, and one more matched skill never lowers it.
   */
  lemma ResumeScoreSpec(matched: nat)
    ensures -1 <= 2 * ResumeScore(matched) - (120 + matched) <= 1
    ensures matched % 2 == 0 ==> 2 * ResumeScore(matched) == 120 + matched
    ensures matched % 2 == 1 ==> ResumeScore(matched) % 2 == 0
    ensures ResumeScore(matched) <= ResumeScore(matched + 1)
  {
  }

  /** The score has no upper cap: 82 matched skills already score 101. */
  lemma ResumeScoreUncapped()
    ensures ResumeScore(82) == 101
  {
  }

  // ---------------------------------------------------------------------------
  // The record
  // ---------------------------------------------------------------------------

  /**
    The dictionary `build_details()` returns. Percentages are in tenths,
    the experience score in tenths of a point and the years in hundredths.
   */
  datatype Details = Details(
    name: string,
    email: Option<string>,
    phone: Option<string>,
    linkedin: Option<string>,
    github: Option<string>,
    skills: seq<string>,
    education: set<string>,
    projects: seq<string>,
    experienceItems: set<string>,
    recommendedSkills: seq<string>,
    recommendedField: Option<string>,
    matchedFieldSkills: set<string>,
    fieldMatchPercent: nat,
    recommendedCourses: seq<string>,
    resumeVideoUrl: string,
    interviewVideoUrl: string,
    resumeScore: nat,
    experienceScore: nat,
    totalExperienceYears: nat
  )

  /** How many recommended skills `build_details()` asks for (the default `top_n`). */
  const TopSkills: nat := 10

  /** The sections `segment_sections()` finds in the raw text. */
  function SectionsOf(text: string): map<string, string> {
    Sections.Render(Sections.Segment(Sections.SourceHeading, Text.Split(text, {'\n'})).sections)
  }

  /** The contact part of the record: what the extractors find in the text and the entities. */
  ghost predicate ContactsFound(d: Details, text: string, entities: seq<Entity>) {
    var cleaned := Cleaning.CleanText(text);
    var links := Contact.Links(cleaned, 0);
    && d.name == Names.NameFromNer(entities, text)
    && d.email == Contact.ExtractEmail(cleaned)
    && d.phone == Contact.ExtractPhone(cleaned)
    && Contact.LastWith(links, |links|, Contact.IsLinkedin, Contact.TrimLink, d.linkedin)
    && Contact.LastWith(links, |links|, Contact.IsGithub, Contact.TrimLink, d.github)
  }

  /** The section part of the record: skills from the cleaned text, items from the sections. */
  ghost predicate ItemsFound(skills: seq<string>, education: set<string>, projects: seq<string>, experienceItems: set<string>,
                             text: string, predefined: set<string>) {
    var sections := SectionsOf(text);
    && skills == MatchedSkills(Skills.ExtractSkillsFromText(Cleaning.CleanText(text)), predefined)
    && education == Items.Education(sections)
    && projects == Items.Projects(sections)
    && experienceItems == Items.ExperienceItems(Items.SectionText(sections, "experience"))
  }

  /**
    What `recommend_skills()` promises for the matched skills `detected`: no
    suggestion without a field; otherwise as many distinct title-cased keywords
    of the best field as `TopSkills` allows, none of them already detected.
   */
  ghost predicate SkillsRecommended(rs: seq<string>, detected: seq<string>, table: seq<set<string>>)
    requires |table| == |Recommender.FieldNames|
  {
    && (Recommender.BestField(detected, table).None? ==> rs == [])
    && (Recommender.BestField(detected, table).Some? ==>
          var remaining := Recommender.Remaining(detected, table[Recommender.BestField(detected, table).value]);
          && |rs| == (if TopSkills < |remaining| then TopSkills else |remaining|)
          && forall i :: 0 <= i < |rs| ==> Text.Lower(rs[i]) in remaining && rs[i] == Text.Title(Text.Lower(rs[i])))
    && (forall i :: 0 <= i < |rs| ==> Text.Lower(rs[i]) !in Recommender.LowerSet(detected))
    && Recommender.Distinct(rs)
  }

  /**
    What `recommend_videos()` promises of a successful pick: a résumé video
    from its list, and an interview video other than it, or the résumé video
    itself when the interview pick was the empty string.
   */
  ghost predicate VideosChosen(resumeVideo: string, interviewVideo: string, resumeVideos: seq<string>, interviewVideos: seq<string>) {
    && resumeVideo in resumeVideos
    && ((interviewVideo in interviewVideos && interviewVideo != resumeVideo)
        || (interviewVideo == resumeVideo && "" in interviewVideos))
  }

  /**
    The video choice can fail: the résumé list is empty, or some résumé video
    leaves nothing in the interview list once it is taken out.
   */
  ghost predicate VideoChoiceCanFail(resumeVideos: seq<string>, interviewVideos: seq<string>) {
    resumeVideos == [] || exists i :: 0 <= i < |resumeVideos| && Recommender.Without(interviewVideos, resumeVideos[i]) == []
  }

  /** The recommended half of the record: what the recommender makes of the matched skills. */
  ghost predicate Recommended(d: Details, table: seq<set<string>>, courses: seq<seq<string>>,
                              resumeVideos: seq<string>, interviewVideos: seq<string>)
    requires |table| == |Recommender.FieldNames| && |courses| == Recommender.CourseFields
  {
    && SkillsRecommended(d.recommendedSkills, d.skills, table)
    && Recommender.FieldResult(d.skills, table) == Recommender.FieldMatch(d.recommendedField, d.matchedFieldSkills, d.fieldMatchPercent)
    && d.recommendedCourses == Recommender.RecommendCourses(d.recommendedField, courses)
    && VideosChosen(d.resumeVideoUrl, d.interviewVideoUrl, resumeVideos, interviewVideos)
  }

  /**
    The scored half of the record. The years count the date ranges that
    `rule` recognises: `AsWritten` is the source's pattern, `MonthYearEnd`
    the one that also accepts a month and a year as the end date.
   */
  ghost predicate Scored(d: Details, text: string, entities: seq<Entity>, sentences: nat, now: Dates.YearMonth,
                         rule: Dates.EndRule) {
    && d.resumeScore == ResumeScore(|d.skills|)
    && d.experienceScore == ExperienceScore.Score(ExperienceScore.TallyOf(entities, sentences))
    && d.totalExperienceYears == Dates.Hundredths(Dates.SumMonths(Dates.DateRanges(rule, text, 0), now))
  }

  /** The contact extractor calls of `build_details()`. */
  method ExtractContacts(text: string, entities: seq<Entity>)
    returns (name: string, email: Option<string>, phone: Option<string>, linkedin: Option<string>, github: Option<string>)
    ensures ContactsFound(Details(name, email, phone, linkedin, github, [], {}, [], {},
                                  [], None, {}, 0, [], "", "", 0, 0, 0), text, entities)
  {
    var cleaned := Cleaning.CleanText(text);
    linkedin, github := Contact.ExtractLinks(cleaned);
    name := Names.ExtractNameFromNer(entities, text);
    email, phone := Contact.ExtractEmail(cleaned), Contact.ExtractPhone(cleaned);
  }

  /** The skill and section extractor calls of `build_details()`. */
  method ExtractItems(text: string, predefined: set<string>)
    returns (skills: seq<string>, education: set<string>, projects: seq<string>, experienceItems: set<string>)
    ensures ItemsFound(skills, education, projects, experienceItems, text, predefined)
  {
    var sections := Sections.SegmentSections(text);
    assert sections == SectionsOf(text);
    var rawSkills := Skills.ExtractSkillsFromText(Cleaning.CleanText(text));
    skills := MatchedSkills(rawSkills, predefined);
    education, projects := Items.Education(sections), Items.Projects(sections);
    experienceItems := Items.ExtractExperience(sections);
    ItemsFoundOf(skills, education, projects, experienceItems, text, predefined, sections);
  }

  lemma ItemsFoundOf(skills: seq<string>, education: set<string>, projects: seq<string>, experienceItems: set<string>,
                     text: string, predefined: set<string>, sections: map<string, string>)
    requires sections == SectionsOf(text)
    requires skills == MatchedSkills(Skills.ExtractSkillsFromText(Cleaning.CleanText(text)), predefined)
    requires education == Items.Education(sections) && projects == Items.Projects(sections)
    requires experienceItems == Items.ExperienceItems(Items.SectionText(sections, "experience"))
    ensures ItemsFound(skills, education, projects, experienceItems, text, predefined)
  {
  }

  /** The recommender calls of `build_details()`; the video choice can fail. */
  method Recommend(skills: seq<string>, table: seq<set<string>>, courses: seq<seq<string>>,
                   resumeVideos: seq<string>, interviewVideos: seq<string>)
    returns (r: Result<(seq<string>, Recommender.FieldMatch, seq<string>, (string, string)), string>)
    requires |table| == |Recommender.FieldNames| && |courses| == Recommender.CourseFields
    ensures resumeVideos == [] ==> r.Failure?
    ensures r.Failure? ==> r.error == Recommender.IndexError && VideoChoiceCanFail(resumeVideos, interviewVideos)
    ensures r.Success? ==>
      var (recommendedSkills, fieldInfo, recommendedCourses, videos) := r.value;
      Recommended(Details("", None, None, None, None, skills, {}, [], {}, recommendedSkills,
                          fieldInfo.field, fieldInfo.matched, fieldInfo.percent, recommendedCourses,
                          videos.0, videos.1, 0, 0, 0), table, courses, resumeVideos, interviewVideos)
  {
    var recommendedSkills := Recommender.RecommendSkills(skills, table, TopSkills);
    var fieldInfo := Recommender.RecommendField(skills, table);
    var recommendedCourses := Recommender.RecommendCourses(fieldInfo.field, courses);
    var videos := Recommender.RecommendVideos(resumeVideos, interviewVideos);
    if videos.Failure? {
      return Failure(videos.error);
    }
    r := Success((recommendedSkills, fieldInfo, recommendedCourses, videos.value));
  }

  /**
    `build_details()` for the raw PDF text `text`, the entity list the NER
    model produced, the skill dataset, the keyword, course and video tables,
    the sentence count, today's month and the date-range rule `rule`. The
    only failure is the random video choice on an empty pool.
   */
  method BuildDetails(text: string, entities: seq<Entity>, predefined: set<string>,
                      table: seq<set<string>>, courses: seq<seq<string>>,
                      resumeVideos: seq<string>, interviewVideos: seq<string>,
                      sentences: nat, now: Dates.YearMonth, rule: Dates.EndRule)
    returns (r: Result<Details, string>)
    requires |table| == |Recommender.FieldNames| && |courses| == Recommender.CourseFields
    ensures resumeVideos == [] ==> r.Failure?
    ensures r.Failure? ==> r.error == Recommender.IndexError && VideoChoiceCanFail(resumeVideos, interviewVideos)
    ensures r.Success? ==> ContactsFound(r.value, text, entities)
    ensures r.Success? ==>
      ItemsFound(r.value.skills, r.value.education, r.value.projects, r.value.experienceItems, text, predefined)
    ensures r.Success? ==> Recommended(r.value, table, courses, resumeVideos, interviewVideos)
    ensures r.Success? ==> Scored(r.value, text, entities, sentences, now, rule)
  {
    var name, email, phone, linkedin, github := ExtractContacts(text, entities);
    var skills, education, projects, experienceItems := ExtractItems(text, predefined);
    var recommendations := Recommend(skills, table, courses, resumeVideos, interviewVideos);
    if recommendations.Failure? {
      return Failure(recommendations.error);
    }
    var (recommendedSkills, fieldInfo, recommendedCourses, videos) := recommendations.value;
    var experienceScore := ExperienceScore.ScoreExperienceWithNer(entities, sentences);
    var years := Dates.TotalExperience(rule, text, now);
    var d := Details(
      name, email, phone, linkedin, github, skills, education, projects, experienceItems,
      recommendedSkills, fieldInfo.field, fieldInfo.matched, fieldInfo.percent, recommendedCourses,
      videos.0, videos.1, ResumeScore(|skills|), experienceScore, years);
    r := Success(d);
  }
}
