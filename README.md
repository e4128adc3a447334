# Résumé parser and recommender, modelled in Dafny

This project models the text side of a résumé analyser. The analyser takes the
text of a PDF résumé and extracts:

- a name, e-mail address, phone number and LinkedIn/GitHub links;
- skills, education keywords, projects and experience lines;
- the years of experience and a 0–30 experience score;
- a résumé score.

It then recommends a career field, skills to learn, courses and two videos.

The model covers `resume_parser.py` and `recommender.py`. Three kinds of input
come from outside and are parameters here:

- the outputs of the PDF reader, the NER model and the sentence tokenizer;
- the keyword, course and video tables;
- the clock.

Modules:

| module | file | what it models |
|---|---|---|
| `Wrappers` | wrappers.dfy | `Option` and `Result` |
| `Text` | text.dfy | the Python `str` operations the source uses (ASCII case rules) |
| `Seqs` | seqs.dfy | list comprehensions, `set(xs)` |
| `Sorting` | sorting.dfy | Python string order and `sorted(set(xs))` |
| `Patterns` | patterns.dfy | a backtracking matcher for the e-mail and phone regexes, and `re.search` |
| `Cleaning` | cleaning.dfy | `clean_text` |
| `Sections` | sections.dfy | `segment_sections` |
| `Skills` | skills.dfy | `is_reasonable_skill`, `extract_skills_from_text` |
| `Contact` | contact.dfy | `extract_email`, `extract_phone`, `extract_links` |
| `Entities` | entities.dfy | one NER entity: a word and its group |
| `Names` | names.dfy | `extract_name_from_ner` |
| `Items` | items.dfy | `extract_education`, `extract_projects`, `extract_experience` |
| `Dates` | dates.dfy | `get_total_experience_from_text` |
| `ExperienceScore` | experience_score.dfy | `score_experience_with_ner` |
| `Recommender` | recommender.dfy | `recommend_field`, `recommend_skills`, `recommend_courses`, `recommend_videos` |
| `Details` | details.dfy | `build_details` |

**How values are represented.** Floats become scaled naturals:

- `match_percent` in tenths of a percent;
- the experience score in tenths of a point;
- the years of experience in hundredths.

Every rounding is stated as a property against the exact rational:

- `round` in Python rounds half to even;
- `round(months / 12, 2)` can never tie;
- every experience score is a multiple of 0.5.

**Loops.** Loops that update state in the source are methods with `for` or
`while` loops. Each method is proved equal to a specification function, and the
properties are proved about that function. Examples:

- the section cursor;
- the name, link, experience and month accumulators;
- the sub-word merge;
- the entity counters;
- the field score table;
- the shuffle.

**Points where the code is followed literally.**

- **The résumé score is not capped at 100.** `round(60 + 0.5 * n)` exceeds
  100 from 82 matched skills on (`Details.ResumeScoreUncapped`).
- **A bare "Experience" line is not a heading.** The `segment_sections`
  docstring names "Experience" as a heading. The experience pattern only
  starts with "work experience", "experiences" and similar words, so a line
  reading just "Experience" is no heading (`Sections.ExperienceIsNoHeading`).
  The fixture of tests/test_resume_parser.py:19 has such a line, so its
  experience lines fall into the section before it, and the experience items
  that tests/test_resume_parser.py:61-64 expects are not found.
- **The end of a date range.** The source's regex takes only `Present`, `Now`
  or a bare year. See "## Findings".

## Model

| member | source | states |
|---|---|---|
| `Text.Lower` | resume_parser.py:144 | `lower()` keeps the length and leaves no upper-case letter. It changes no character that was not an upper-case letter. |
| `Text.Title` | resume_parser.py:69 | `title()` keeps the length. A cased character is upper-cased exactly when the character before it is uncased or absent, and lower-cased otherwise. |
| `Text.TitleKeepsLower` | recommender.py:93 | Title-casing changes only case: the lower-case form is the same, and so is every digit position. |
| `Text.TitleInjectiveOnLower` | recommender.py:93 | Two lower-case strings with the same title-case are equal, so title-casing distinct keywords keeps them distinct. |
| `Text.Strip` | resume_parser.py:92 | `strip()` leaves no whitespace at either end and never lengthens the string. |
| `Text.StripSlice` | resume_parser.py:92 | The stripped string is a contiguous piece of the original. |
| `Text.TrimIdempotent` | resume_parser.py:121 | Stripping twice is stripping once. |
| `Text.TrimEmptyIff` | resume_parser.py:187 | Stripping leaves nothing exactly when every character is stripped. |
| `Text.StripChars` | resume_parser.py:170 | `strip(chars)` leaves none of `chars` at either end. |
| `Text.LStripChars` | resume_parser.py:64 | `lstrip(chars)` removes a prefix, and the remainder starts with no character of `chars`. |
| `Text.Split` | resume_parser.py:86 | `split` returns at least one piece, and no piece contains a separator. |
| `Text.JoinSplit` | resume_parser.py:104 | Joining the pieces of a split with the separator gives the string back. |
| `Text.SplitJoin` | resume_parser.py:104 | Splitting a join of separator-free pieces gives the pieces back. |
| `Text.Words` | resume_parser.py:153 | `split()` returns non-empty pieces without whitespace. |
| `Text.Count` | resume_parser.py:250 | A positive `count` means the substring occurs, and an empty needle counts `len + 1`. |
| `Text.FirstKeyword` | resume_parser.py:95 | The result is one of the keywords, and the lower-cased text starts with it. `None` means no keyword is a prefix. |
| `Text.FirstKeywordIndex` | resume_parser.py:95 | The keyword found sits at some index of the list, and no keyword before that index matches. So it is the first match in list order. |
| `Text.ContainsIff` | resume_parser.py:169 | `sub in s` holds exactly when `sub` occurs at some index. |
| `Text.HasDigitIff` | resume_parser.py:54 | `HasDigit` holds exactly when some character is a decimal digit. |
| `Seqs.FilterMap` | resume_parser.py:68-70 | A filtering comprehension contains exactly the present results, and is no longer than its input. |
| `Sorting.LessTotal` | resume_parser.py:71 | Python's string order: of two different strings one is smaller. |
| `Sorting.LessTransitive` | resume_parser.py:71 | Python's string order is transitive. |
| `Sorting.LessIrreflexive` | resume_parser.py:71 | No string is smaller than itself. |
| `Sorting.Insert` | resume_parser.py:71 | Inserting into a strictly ascending list keeps it strictly ascending, with exactly the old elements and the new one. |
| `Sorting.SortedDistinct` | resume_parser.py:71 | `sorted(set(xs))` is strictly ascending and has exactly the elements of `xs`. |
| `Sorting.StrictlySortedDistinct` | resume_parser.py:71 | A strictly ascending list has no repeated element. |
| `Patterns.MaxCount` | resume_parser.py:158 | Greedy repetition takes the longest run of class characters, up to the bound. It stops short of the end only at a non-class character or at the bound. |
| `Patterns.MatchFrom` | resume_parser.py:158 | A backtracking match from `i` ends between `i` and the end of the text. |
| `Patterns.MatchFromSound` | resume_parser.py:158 | A match found by the matcher matches the pattern. |
| `Patterns.MatchFromComplete` | resume_parser.py:158 | Whenever some piece of text from `i` matches, the matcher finds a match at `i`. |
| `Patterns.NoMatchAt` | resume_parser.py:158 | A failure at `i` means no piece of text from `i` matches. |
| `Patterns.Search` | resume_parser.py:162 | `re.search` returns a start and an end inside the text. |
| `Patterns.SearchLeftmost` | resume_parser.py:162 | `re.search` returns a match, and nothing matches at an earlier start. No result means no piece of text matches anywhere. |
| `Patterns.MatchEndsLastRun` | resume_parser.py:158 | When the last element has no upper bound, a match ends where that element's run of characters ends: the greedy last repetition is never cut short. |
| `Patterns.SearchEndsLastRun` | resume_parser.py:158 | The same holds for the match `re.search` returns. |
| `Cleaning.CleanText` | resume_parser.py:120-121 | The cleaned text is the whitespace-separated words joined by single spaces. It has no whitespace at either end, and no whitespace other than single spaces between words. |
| `Cleaning.CleanTextIdempotent` | resume_parser.py:120-121 | Cleaning twice is cleaning once. |
| `Cleaning.WordsOfJoin` | resume_parser.py:121 | The words of words joined by spaces are those words. |
| `Cleaning.CleanTextIsJoinedWords` | resume_parser.py:121 | Collapsing whitespace runs and then stripping gives the words joined by single spaces. |
| `Sections.FirstMatchIsFirst` | resume_parser.py:94-97 | The chosen heading pattern matches, no earlier pattern matches, and `None` means none matches. |
| `Sections.HeadingOfIff` | resume_parser.py:94-97 | A line is a heading exactly when some pattern matches it. Its key is that of the first matching pattern, and it is never `general`. |
| `Sections.HeadingPatternsValid` | resume_parser.py:78-84 | The five keys are distinct and none is `general`. Every keyword equals its own lower-case form, so testing it against the lower-cased line is the case-insensitive match. |
| `Sections.Step` | resume_parser.py:91-102 | One line keeps the state well formed: the cursor's key is present. It adds at most the cursor's key. |
| `Sections.SegmentLines` | resume_parser.py:86-102 | The line loop with its cursor produces the sections of the specification fold. |
| `Sections.SegmentSections` | resume_parser.py:86-104 | `segment_sections` renders the fold over the lines split at `\n`. It always has a `general` key. |
| `Sections.Render` | resume_parser.py:104 | The rendered map has the same keys. |
| `Sections.StripAll` | resume_parser.py:92 | Every stored line is the stripped input line. |
| `Sections.SectionsStartWithHeading` | resume_parser.py:99-102 | Every section other than `general` is non-empty and starts with a line that is a heading for that key. |
| `Sections.SectionAfterHeading` | resume_parser.py:99-102 | After a heading for `k` and non-heading lines, the cursor is `k` and section `k` is the stripped heading followed by those lines. |
| `Sections.RepeatedHeadingDiscards` | resume_parser.py:101 | A repeated heading for `k` discards what `k` held: only the new heading line is left. |
| `Sections.KualifikasiIsEducation` | resume_parser.py:80-81 | "Kualifikasi" matches both the education and the skills patterns, and goes to education. |
| `Sections.ExperienceIsNoHeading` | resume_parser.py:79 | A line reading "Experience" matches no heading pattern. |
| `Sections.LisensiNeverMatches` | resume_parser.py:83 | The alternative ` lisensi` can never match a stripped line. |
| `Sections.RenderSplits` | resume_parser.py:104 | Splitting a rendered section at `\n` gives back its stored lines. |
| `Sections.NoNewlineStored` | resume_parser.py:86 | Lines cut at `\n` contain no newline once stored. |
| `Skills.IsReasonableSkillIff` | resume_parser.py:53-54 | A skill is reasonable exactly when it has 3 to 50 characters and no digit. |
| `Skills.ParagraphEnd` | resume_parser.py:57 | The lazy capture stops at the first `\n\n` at or after its start, or else at the end of the text. |
| `Skills.ParagraphEndWithoutNewline` | resume_parser.py:57 | Without a newline the capture runs to the end of the text. |
| `Skills.OneCaptureWithoutNewline` | resume_parser.py:176 | On newline-free text such as the cleaned text, `findall` yields at most one capture, and that capture is a suffix. |
| `Skills.CollectCaptureFragments` | resume_parser.py:62-66 | The inner loop yields the fragments of every stripped, bullet-stripped line, split at `,` `\|` `•`, in order. |
| `Skills.CollectCandidates` | resume_parser.py:60-66 | The outer loop concatenates the fragments of every capture, in order. |
| `Skills.CleanSkillReasonable` | resume_parser.py:68-69 | A kept, title-cased candidate has 3 to 50 characters and no digit. |
| `Skills.CleanedSkillsReasonable` | resume_parser.py:68-70 | Every cleaned skill has 3 to 50 characters and no digit. |
| `Skills.SkillsFromCandidates` | resume_parser.py:68-71 | The result is strictly ascending, and every element has 3 to 50 characters and no digit. It holds exactly the title-cased stripped candidates that pass the filter. |
| `Skills.ExtractedSkillsAreReasonable` | resume_parser.py:56-71 | `extract_skills_from_text` is sorted, has no repeats, holds only reasonable skills, and holds exactly the cleaned candidates of the regex captures. |
| `Contact.ExtractEmailLeftmost` | resume_parser.py:157-159 | The e-mail is a piece of the cleaned text that matches the pattern, and nothing matches earlier. It ends where the greedy `[a-zA-Z0-9-.]+` run ends. It has a local part, `@`, a domain and a dot. `None` means no piece of text matches. |
| `Contact.EmailShapeMatches` | resume_parser.py:158 | Every `local@domain.tail` string, each part drawn from its class, matches the pattern. |
| `Contact.WholeEmail` | resume_parser.py:157-159 | A text that is exactly one address yields that whole address. |
| `Contact.EmailFixture` | tests/test_resume_parser.py:30-33 | `john.doe@email.com` is found whole, as the test expects. |
| `Contact.Digits` | resume_parser.py:163 | `re.sub(r'\D', '', s)` leaves only digits. |
| `Contact.DigitsAppend` | resume_parser.py:163 | Removing non-digits distributes over concatenation. |
| `Contact.PhoneMatchDigits` | resume_parser.py:162-163 | A phone match starts with `+62`, and its digits are `62` then 9 to 12 more. |
| `Contact.PhoneDigits` | resume_parser.py:161-163 | A found phone number is 11 to 14 digits only, starting with `62`. |
| `Contact.RunEnd` | resume_parser.py:167 | `[^\s]+` runs to the next whitespace or the end. |
| `Contact.LinkAtIsLink` | resume_parser.py:167 | A link matched at `i` is a `http(s)://` or `www.` link, or contains `.com/` with something on both sides. |
| `Contact.LinksAreLinks` | resume_parser.py:167 | Every link that `findall` returns has one of the three link shapes. |
| `Contact.LastWithStep` | resume_parser.py:168-172 | One loop step keeps the slot equal to the stripped form of the last matching link so far. |
| `Contact.ExtractLinks` | resume_parser.py:165-173 | `linkedin` is the `.,`-stripped last link containing `linkedin.com`. `github` is that of the last link containing `github.com` but not `linkedin.com`. Each is `None` when there is no such link. |
| `Names.CollectCleanNames` | resume_parser.py:134-138 | The filtering loop keeps exactly the stripped, underscore-replaced words without digit, `@` or `.com`, in order. |
| `Names.DedupeWords` | resume_parser.py:140-146 | The `seen` loop produces the first-seen deduplication. |
| `Names.ExtractNameFromNer` | resume_parser.py:130-155 | `extract_name_from_ner` computes the specified name. |
| `Names.DedupeKeys` | resume_parser.py:140-146 | The lower-case keys kept are exactly the keys of all the words. |
| `Names.DedupeDistinct` | resume_parser.py:140-146 | No two kept words agree when lower-cased. |
| `Names.DedupeInOrder` | resume_parser.py:140-146 | The `i`-th kept word is the stripped input word at index `idx[i]`. The indices strictly increase, and no earlier word has the same lower-case key. |
| `Names.DedupeFirstSeen` | resume_parser.py:140-146 | Every kept word is the stripped first word with its key. |
| `Names.DedupeEmpty` | resume_parser.py:148 | Nothing is kept exactly when there were no words. |
| `Names.CleanNamesPass` | resume_parser.py:136-138 | No clean name has a digit, `@` or `.com` (case-insensitively). |
| `Names.KeptNamesPass` | resume_parser.py:142-146 | Stripping in the second loop keeps every word free of digit, `@` and `.com`. |
| `Names.StripNotRejected` | resume_parser.py:143 | Stripping a clean name keeps it clean. |
| `Names.NameFromNerSpec` | resume_parser.py:132-155 | With a clean PERSON word, the name is the deduplicated words joined by spaces, and no word is rejected. The kept words come at strictly increasing positions of the clean words, so first-seen order is kept. Otherwise it is the fallback. |
| `Names.FallbackNameSpec` | resume_parser.py:151-155 | When the first line of the stripped text has at most 5 words, the fallback is that line stripped. With 6 or more words it is `""`. Either way it holds no newline and occurs in the text. |
| `Items.KeywordPiece` | resume_parser.py:181 | A keyword matched case-insensitively is the piece of text at that position, and it lower-cases to the keyword. |
| `Items.EducationMatchesAreKeywords` | resume_parser.py:180-181 | Every `findall` result lower-cases to an education keyword and occurs in the text. |
| `Items.EducationEmptyIff` | resume_parser.py:180-181 | `findall` finds nothing exactly when no keyword occurs at any position. |
| `Items.EducationSpec` | resume_parser.py:178-182 | The education set holds keywords as written in the education section. It is empty exactly when no keyword occurs there. |
| `Items.SplitSnocLine` | resume_parser.py:186 | The lines of `text + "\n" + line` are the lines of `text` followed by `line`. |
| `Items.ProjectsAppendLine` | resume_parser.py:186-187 | A further line adds its `-• `-stripped form exactly when its whitespace-stripped length exceeds 5. |
| `Items.ProjectsSpec` | resume_parser.py:184-187 | The projects are exactly the `-• `-stripped forms of the section lines longer than 5 once stripped. There is at most one per line, with no deduplication. |
| `Items.ProjectItemCanBeEmpty` | resume_parser.py:187 | A line of six dashes passes the length test and yields an empty item. |
| `Items.ExtractExperience` | resume_parser.py:189-197 | The appending loop and `set` give the distinct kept lines of the experience section. |
| `Items.ExperienceItemStable` | resume_parser.py:194-196 | A kept line is longer than 5, and stripping it again changes nothing. |
| `Items.ExperienceItemsSpec` | resume_parser.py:189-197 | Every item is longer than 5 and stable under the strip. The items are exactly the stripped lines longer than 5. |
| `Dates.MonthOf` | resume_parser.py:201 | A month number from 1 to 12 names the month in calendar order. 0 means no month name. |
| `Dates.MonthYearFrom` | resume_parser.py:201 | `Mon\.?\s?\d{4}` ends 7 to 9 characters on, after a month name and at the end of four digits. |
| `Dates.EndFrom` | resume_parser.py:201 | The end group ends after its start and inside the text. |
| `Dates.DashFrom` | resume_parser.py:201 | `\s*[-–]\s*` ends after its start and inside the text. |
| `Dates.RangeAt` | resume_parser.py:200-202 | A range match at `i` ends after `i` and inside the text. |
| `Dates.MonthNumber` | resume_parser.py:206 | A group starting with a month name reads as that month, from 1 to 12. |
| `Dates.TotalMonths` | resume_parser.py:203-211 | The accumulating loop adds up the contribution of every range. |
| `Dates.TotalExperience` | resume_parser.py:199-212 | `get_total_experience_from_text` is the rounded sum of the months of the ranges `findall` finds. |
| `Dates.HundredthsNearest` | resume_parser.py:212 | The hundredths are the nearest whole number to `100 * months / 12`, and no tie occurs. |
| `Dates.NoRangesNoYears` | resume_parser.py:203 | No range means 0 years. |
| `Dates.SumMonthsAppend` | resume_parser.py:204-208 | Months add up over a split list of ranges. |
| `Dates.ParsedRange` | resume_parser.py:208 | A parsed range adds `max(0, 12·Δyear + Δmonth)` months. |
| `Dates.SkippedRange` | resume_parser.py:209-211 | A range that fails to parse adds nothing, and the later ranges are still counted. |
| `Dates.DateRangesShape` | resume_parser.py:200-202 | Every match has a month-and-year start group. Its end group is `present`, `now` or four digits. |
| `Dates.StartParsesUnlessYearZero` | resume_parser.py:206 | Reading the four digits as the year, a matched start group fails to parse only for the year 0000. |
| `Dates.EndParsesUnlessYearZero` | resume_parser.py:207 | Reading the four digits as the year, a matched end group fails to parse only when it is the year 0000. |
| `Dates.NoRangeScan` | resume_parser.py:200-202 | With no match at any position the scan finds nothing. |
| `Dates.MonthIsNoAsWrittenEnd` | resume_parser.py:201 | As written, an end group can never start with a month name. |
| `Dates.MonthEndRefused` | resume_parser.py:201 | The source's regex refuses every range ending in a month and a year. |
| `Dates.MonthEndAccepted` | resume_parser.py:201 | The month-year end rule accepts such a range, with both dates as its groups. |
| `Dates.RangeLineAsWritten` | resume_parser.py:201 | On a line `Mon yyyy - Dec yyyy` the source's regex finds nothing. |
| `Dates.RangeLineMonthYear` | resume_parser.py:201 | On such a line the month-year end rule finds the whole line as one range. |
| `Dates.DecemberEnd` | resume_parser.py:207 | Reading the four digits as the year, an end group `Dec yyyy` reads as December of that year. |
| `Dates.FixtureAsWritten` | resume_parser.py:200-212 | On `Jan 2020 - Dec 2022` the source finds no range and reports 0 years. |
| `Dates.FixtureMonthYearEnd` | tests/test_resume_parser.py:71-74 | Under the corrected rule the same line is one range of 35 months, 2.92 years. |
| `ExperienceScore.Groups` | resume_parser.py:220-229 | Merging yields at least one group. |
| `ExperienceScore.MergeSubwords` | resume_parser.py:220-229 | The merge loop builds the space-prefixed groups, with `##` pieces glued onto the word before them. |
| `ExperienceScore.GroupsKeepText` | resume_parser.py:220-229 | Merging keeps all the text: the groups concatenate to the words with their `##` removed. |
| `ExperienceScore.GroupsWithoutPieces` | resume_parser.py:226-228 | Without `##` pieces the groups are an empty first group followed by the words. |
| `ExperienceScore.GroupsGlue` | resume_parser.py:224-225 | A `##` piece after a word extends that word's group. |
| `ExperienceScore.LabelledIff` | resume_parser.py:232-241 | A word is in the ORG, DATE or LOC set exactly when some entity with that upper-cased group has it as its lower-cased word. |
| `ExperienceScore.NumericCountIff` | resume_parser.py:242-243 | At most one numeric per entity. There are none exactly when no group is MONEY, PERCENT or CARDINAL. |
| `ExperienceScore.CountEntities` | resume_parser.py:232-243 | The `if`/`elif` loop fills the three sets and the numeric count as specified. |
| `ExperienceScore.CountPositive` | resume_parser.py:250 | A verb that occurs is counted at least once. |
| `ExperienceScore.VerbHitsZeroIff` | resume_parser.py:246-250 | The verb count is 0 exactly when no verb occurs in the text. |
| `ExperienceScore.Score` | resume_parser.py:261-269 | The score is at most 30.0 and at most the raw weighted sum. |
| `ExperienceScore.ScoreExperienceWithNer` | resume_parser.py:214-269 | `score_experience_with_ner` computes the capped score of the counts, and the score is at most 30.0. |
| `ExperienceScore.ScoreOfParts` | resume_parser.py:262-269 | The step-by-step `score +=` sum, clamped at 30, is the specified score. |
| `ExperienceScore.RawBounds` | resume_parser.py:259-266 | The parts are capped at 9, 6, 4, 4, 7.5 and 3; the raw sum is at most 33.5. |
| `ExperienceScore.ScoreMonotone` | resume_parser.py:262-269 | More of every count never lowers the score. |
| `ExperienceScore.ScoreZeroIff` | resume_parser.py:262-269 | The score is 0 exactly when every count is 0 and there are fewer than 3 sentences. |
| `ExperienceScore.ScoreFull` | resume_parser.py:269 | Full counts reach the cap of 30.0 even without the sentence bonus. |
| `Recommender.ArgMax` | recommender.py:44 | `max` with a key picks a maximal score, and every earlier score is strictly smaller (the first maximum). |
| `Recommender.PercentSpec` | recommender.py:55 | The tenths are nearest to `1000·s/t`, even on a tie, 0 for no keywords, and at most 100.0 when `s ≤ t`. |
| `Recommender.BestField` | recommender.py:44-51 | The chosen field is one of the table's. |
| `Recommender.RecommendField` | recommender.py:14-61 | The scoring loop and the choice produce the specified field result. |
| `Recommender.ChosenField` | recommender.py:44-51 | The field is the argmax of the loop's scores, or `None` when that score is 0. |
| `Recommender.FieldResultSpec` | recommender.py:14-61 | No field exactly when there are no skills or every intersection is empty. Then the matches are `[]` and the percent is 0. With a field, it has the first maximal score, its matches are the intersection, and the percent is their rounded share. The percent is always at most 100.0. |
| `Recommender.FieldIndexFrom` | recommender.py:24-34 | A field name is looked up by its position in the map. |
| `Recommender.FieldNamesDistinct` | recommender.py:24-34 | The nine field names are distinct. |
| `Recommender.Shuffled` | recommender.py:89-92 | `list(set)` with `shuffle` holds each element of the set exactly once, in some order. |
| `Recommender.RecommendSkills` | recommender.py:63-93 | `[]` without a field. Otherwise `min(top_n, \|remaining\|)` title-cased field keywords, none among the lower-cased detected skills, with no repeats. |
| `Recommender.RemainingLower` | recommender.py:86-89 | The remaining keywords are lower-case. |
| `Recommender.TitledSlice` | recommender.py:93 | Title-casing a prefix of distinct lower-case keywords keeps them distinct and recoverable. |
| `Recommender.RecommendCourses` | recommender.py:95-102 | The five listed fields map to their course lists, and every other value, `None` included, maps to `[]`. |
| `Recommender.Without` | recommender.py:107 | The filtered pool is the interview videos other than the resume video. |
| `Recommender.RecommendVideos` | recommender.py:104-111 | The resume video comes from its list. The interview video differs from it, or is the resume video when the pick was `""`. A failure carries the `IndexError` message and happens only when the resume list is empty or some resume pick empties the interview pool. An empty resume list always fails. |
| `Details.MatchedSkillsSpec` | resume_parser.py:274 | The matched skills are exactly the raw skills that are in the dataset. There are not more of them, and the order stays sorted. |
| `Details.ResumeScoreSpec` | resume_parser.py:300 | The résumé score is the nearest whole number to `60 + n/2`. Ties round to even, and the score never falls as `n` grows. |
| `Details.ResumeScoreUncapped` | resume_parser.py:300 | With 82 matched skills the score is 101. |
| `Details.ExtractContacts` | resume_parser.py:272 | The name, e-mail, phone and links are those the extractors find. |
| `Details.ExtractItems` | resume_parser.py:273-274 | Skills, education, projects and experience come from the cleaned text and the sections. |
| `Details.Recommend` | resume_parser.py:275-278 | The skills hold as many distinct title-cased, not yet detected keywords of the best field as 10 allows, and none without a field. Field, courses and videos are those of the recommender. The call fails only with the `IndexError` message, and only when a pick can meet an empty pool. |
| `Details.BuildDetails` | resume_parser.py:271-303 | `build_details` fills every field from its extractor, recommender and score. The years follow the date-range rule it is given: `AsWritten` is the source's pattern. Its only failure is the video choice, and it fails only when a pick can meet an empty pool. |

## Left out

- PDF text extraction (`extract_text`): the raw text is an input.
- The NER model: the entity list is an input.
- The skill cache built from a CSV file: the skill dataset is an input set.
- The NLTK sentence tokenizer: the sentence count is an input. When the tokenizer fails the source counts 1, and a caller passes that.
- The date parser and the clock. Dates are read by the same fields the regex guarantees: a month name and a four-digit year. Today's year and month are an input. The four digits are always read as the year; this agrees with `dateutil` for the years 0100 and later. A year 0000 is a skipped range. `print` is not modelled.
- The keyword, course and video tables (`skills.py`, `courses.py`, `videos.py` are not part of this model): they are parameters, in the source's field order.
- `random.seed`, `random.shuffle` and `random.choice`: each is modelled as an arbitrary choice. Any result the model proves holds for every outcome of the generator.
- Floating point. Scores, percentages and years are scaled naturals, rounded on the exact rational.
- `Dates.StartParsesUnlessYearZero`, `Dates.EndParsesUnlessYearZero`, `Dates.DecemberEnd`: these hold for the literal reading of the year, which agrees with `dateutil` only from 0100 up. Below that, `dateutil` reads `0001`–`0031` as a day and `0032`–`0099` as a two-digit year near today's. So `Jan 0015` is 15 January 2000 and `Jan 0050` is January 2050. A day that does not exist, such as `Feb 0030`, fails to parse; the model counts such a range.
- `Recommender.PercentSpec`: rounds `100·s/t` exactly. A float whose binary value falls just off a tie may round the other way.
- Unicode: case folding, title-casing, `isdigit` and `\d` follow ASCII only; `isspace` and `\s` follow Python's whitespace table.
- `Details.BuildDetails`: the order of lists built by `list(set(...))` is not modelled. Education, experience items and matched field skills are sets.
- `Recommender.RecommendSkills`: `top_n` is a natural number, and Python's negative slice bounds are not modelled.
- Regex matching in general: each regex of the source has its own scanner, or goes through the small matcher in `Patterns`. Python's `re` module is not modelled as a whole.
- `ner_with_indobert` sentence splitting: only its entity output, an input, is used.
- `app.py` and `error_handlers.py`: Flask routing and HTTP error mapping, outside the core.

## Findings

| source | as written | input that shows it | evidently intended | confidence | as-written member | corrected member |
|---|---|---|---|---|---|---|
| resume_parser.py:201 | The end group `(?:Present\|Now\|\d{4})` takes only a bare year, so a range ending in a month and a year never matches. | The line `Jan 2020 - Dec 2022` (the fixture of tests/test_resume_parser.py:19) yields no range, hence 0.0 years, while the test at tests/test_resume_parser.py:71-74 expects at least 2. | The end group also accepts `Mon yyyy`, so the line is one range of 35 months, 2.92 years. `Details.BuildDetails` takes the end rule as a parameter: `AsWritten` is the composition as written, `MonthYearEnd` the corrected one. | not executed | `Dates.FixtureAsWritten` | `Dates.FixtureMonthYearEnd` |
