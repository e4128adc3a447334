/**
  The recommendation rules: the best-fitting career field for a list of
  skills, skills to learn next in that field, courses for a field and a pair
  of videos. The keyword, course and video tables live in modules that are
  not part of this model, so they are parameters here, in the order the
  source lists the fields.
 */
module Recommender {
  import opened Wrappers
  import opened Text

  /** The fields, in the order of the source's field map. */
  const FieldNames: seq<string> := [
    "Data Science", "Web Development", "Android Development", "iOS Development", "UI/UX",
    "Cloud Computing", "Internet of Things", "Machine Learning", "Cyber Security"
  ]

  /** The number of fields that have a course list. */
  const CourseFields: nat := 5

  /** What `recommend_field()` returns; `percent` is `match_percent` in tenths of a percent. */
  datatype FieldMatch = FieldMatch(field: Option<string>, matched: set<string>, percent: nat)

  /** `set(skill.lower() for skill in skills)` */
  function LowerSet(skills: seq<string>): set<string> {
    set i | 0 <= i < |skills| :: Lower(skills[i])
  }

  /** The lower-cased members of a keyword set. */
  function LowerOf(keywords: set<string>): set<string> {
    set k | k in keywords :: Lower(k)
  }

  // ---------------------------------------------------------------------------
  // recommend_field
  // ---------------------------------------------------------------------------

  /** The number of matched skills of each field. */
  function Scores(skillSet: set<string>, table: seq<set<string>>): (scores: seq<nat>)
    ensures |scores| == |table|
    ensures forall k :: 0 <= k < |table| ==> scores[k] == |skillSet * table[k]|
  {
    seq(|table|, k requires 0 <= k < |table| => |skillSet * table[k]|)
  }

  /** `max(scores, key=scores.get)`: the first position holding the maximum. */
  function ArgMax(scores: seq<nat>): (best: nat)
    requires scores != []
    ensures best < |scores|
    ensures forall j :: 0 <= j < |scores| ==> scores[j] <= scores[best]
    ensures forall j :: 0 <= j < best ==> scores[j] < scores[best]
  {
    if |scores| == 1 then 0
    else
      var b := ArgMax(scores[..|scores| - 1]);
      if scores[|scores| - 1] > scores[b] then |scores| - 1 else b
  }

  /**
    `round((s / t) * 100, 1)` in tenths: the nearest tenth of a percent, ties
    to the even tenth, and 0 for an empty keyword set.
   */
  function PercentTenths(s: nat, t: nat): nat {
    if t == 0 then 0
    else
      var q, r := (1000 * s) / t, (1000 * s) % t;
      if 2 * r > t || (2 * r == t && q % 2 == 1) then q + 1 else q
  }

  /**
    The rounded percentage is the nearest tenth of `100 * s / t`, an exact tie
    goes to the even tenth, and a share of at most the whole stays within 100.
   */
  lemma PercentSpec(s: nat, t: nat)
    ensures t == 0 ==> PercentTenths(s, t) == 0
    ensures t > 0 ==> -(t as int) <= 2 * (1000 * s - PercentTenths(s, t) * t) <= t
    ensures t > 0 && (2 * (1000 * s - PercentTenths(s, t) * t) == t || 2 * (1000 * s - PercentTenths(s, t) * t) == -(t as int)) ==>
      PercentTenths(s, t) % 2 == 0
    ensures s <= t ==> PercentTenths(s, t) <= 1000
  {
    if t > 0 {
      RoundedNearest(s, t, (1000 * s) / t, (1000 * s) % t, PercentTenths(s, t));
    }
  }

  /** Rounding the quotient up exactly when the remainder passes half (or ties at an odd quotient). */
  lemma RoundedNearest(s: nat, t: nat, q: nat, r: nat, p: nat)
    requires t > 0 && q == (1000 * s) / t && r == (1000 * s) % t
    requires p == if 2 * r > t || (2 * r == t && q % 2 == 1) then q + 1 else q
    ensures -(t as int) <= 2 * (1000 * s - p * t) <= t
    ensures 2 * (1000 * s - p * t) == t || 2 * (1000 * s - p * t) == -(t as int) ==> p % 2 == 0
    ensures s <= t ==> p <= 1000
  {
    assert 1000 * s == q * t + r;
    assert p * t == q * t + (p - q) * t;
    PercentCapped(s, t, q, r);
  }

  /** A share of at most the whole rounds to at most 100 percent. */
  lemma PercentCapped(s: nat, t: nat, q: nat, r: nat)
    requires t > 0 && r < t && 1000 * s == q * t + r
    ensures s <= t ==> q <= 1000 && (q == 1000 ==> r == 0)
  {
    if s <= t {
      assert q * t <= 1000 * t;
      if q == 1000 {
        assert r == 1000 * s - 1000 * t;
      }
    }
  }

  /** The position of the recommended field, or `None` when nothing matches. */
  function BestField(skills: seq<string>, table: seq<set<string>>): (k: Option<nat>)
    requires |table| == |FieldNames|
    ensures k.Some? ==> k.value < |table|
  {
    if skills == [] then None
    else
      var scores := Scores(LowerSet(skills), table);
      var best := ArgMax(scores);
      if scores[best] == 0 then None else Some(best)
  }

  /** The value `recommend_field()` returns. */
  function FieldResult(skills: seq<string>, table: seq<set<string>>): FieldMatch
    requires |table| == |FieldNames|
  {
    match BestField(skills, table)
    case None => FieldMatch(None, {}, 0)
    case Some(k) =>
      var matched := LowerSet(skills) * table[k];
      FieldMatch(Some(FieldNames[k]), matched, PercentTenths(|matched|, |table[k]|))
  }

  /** `recommend_field()`: scores every field in one pass, then takes the first best one. */
  method RecommendField(skills: seq<string>, table: seq<set<string>>) returns (r: FieldMatch)
    requires |table| == |FieldNames|
    ensures r == FieldResult(skills, table)
  {
    if skills == [] {
      return FieldMatch(None, {}, 0);
    }
    var skillSet := LowerSet(skills);
    var scores: seq<nat> := [];
    var matchedMap: seq<set<string>> := [];
    for k := 0 to |table|
      invariant |scores| == k && |matchedMap| == k
      invariant forall j :: 0 <= j < k ==> matchedMap[j] == skillSet * table[j] && scores[j] == |matchedMap[j]|
    {
      var matched := skillSet * table[k];
      scores := scores + [|matched|];
      matchedMap := matchedMap + [matched];
    }
    assert scores == Scores(skillSet, table);
    var best := ArgMax(scores);
    ChosenField(skills, table, scores, best);
    if scores[best] == 0 {
      return FieldMatch(None, {}, 0);
    }
    var maxScore := scores[best];
    var totalKeywords := |table[best]|;
    var matchPercent := if totalKeywords > 0 then PercentTenths(maxScore, totalKeywords) else 0;
    r := FieldMatch(Some(FieldNames[best]), matchedMap[best], matchPercent);
  }

  /** The field the scores pick is the one `BestField` names. */
  lemma ChosenField(skills: seq<string>, table: seq<set<string>>, scores: seq<nat>, best: nat)
    requires |table| == |FieldNames| && skills != []
    requires scores == Scores(LowerSet(skills), table) && best == ArgMax(scores)
    ensures BestField(skills, table) == if scores[best] == 0 then None else Some(best)
  {
  }

  /** The first field is strictly better than every field before it and no worse than any after it. */
  ghost predicate FirstBest(scores: seq<nat>, k: nat) {
    k < |scores| && scores[k] > 0 &&
    (forall j :: 0 <= j < |scores| ==> scores[j] <= scores[k]) &&
    (forall j :: 0 <= j < k ==> scores[j] < scores[k])
  }

  /** `r` recommends field `k`: the first best one, with its matches and their percentage. */
  ghost predicate Recommends(skillSet: set<string>, table: seq<set<string>>, r: FieldMatch, k: nat)
    requires |table| == |FieldNames|
  {
    FirstBest(Scores(skillSet, table), k) && k < |table| &&
    r.field == Some(FieldNames[k]) && r.matched == skillSet * table[k] &&
    r.percent == PercentTenths(|r.matched|, |table[k]|)
  }

  /** A subset is no larger than its superset. */
  lemma SubsetSize<T>(a: set<T>, b: set<T>)
    requires a <= b
    ensures |a| <= |b|
  {
    if a != {} {
      var x :| x in a;
      SubsetSize(a - {x}, b - {x});
    }
  }

  /**
    No field is recommended exactly when there are no skills or no field
    matches any; otherwise the first field with the most matches is chosen,
    its matches are the lower-cased skills among its keywords and its
    percentage lies between 0 and 100.
   */
  lemma FieldResultSpec(skills: seq<string>, table: seq<set<string>>)
    requires |table| == |FieldNames|
    ensures var r := FieldResult(skills, table);
      r.field.None? <==> skills == [] || forall k :: 0 <= k < |table| ==> LowerSet(skills) * table[k] == {}
    ensures var r := FieldResult(skills, table);
      r.field.None? ==> r.matched == {} && r.percent == 0
    ensures var r := FieldResult(skills, table);
      r.field.Some? ==> exists k :: Recommends(LowerSet(skills), table, r, k)
    ensures FieldResult(skills, table).percent <= 1000
  {
    var r := FieldResult(skills, table);
    if skills != [] {
      var scores := Scores(LowerSet(skills), table);
      var best := ArgMax(scores);
      if scores[best] == 0 {
        forall k | 0 <= k < |table| ensures LowerSet(skills) * table[k] == {} {
          assert scores[k] == 0;
        }
      } else {
        assert LowerSet(skills) * table[best] != {};
        assert Recommends(LowerSet(skills), table, r, best);
        SubsetSize(LowerSet(skills) * table[best], table[best]);
        PercentSpec(|LowerSet(skills) * table[best]|, |table[best]|);
      }
    }
  }

  // ---------------------------------------------------------------------------
  // Looking fields up by name
  // ---------------------------------------------------------------------------

  /** The position of a field name among the first `n` fields, searching from `from`. */
  function FieldIndexFrom(name: string, from: nat, n: nat): (k: Option<nat>)
    requires n <= |FieldNames|
    ensures k.Some? ==> from <= k.value < n && FieldNames[k.value] == name
    ensures k.None? ==> forall j :: from <= j < n ==> FieldNames[j] != name
    decreases n - from
  {
    if from >= n then None
    else if FieldNames[from] == name then Some(from)
    else FieldIndexFrom(name, from + 1, n)
  }

  /**
    The nine field names are distinct: all but `Cloud Computing` and
    `Cyber Security` differ in their first letter, and those two differ in
    their second.
   */
  lemma FieldNamesDistinct(i: nat, j: nat)
    requires i < |FieldNames| && j < |FieldNames| && FieldNames[i] == FieldNames[j]
    ensures i == j
  {
    var initials := "DWAiUCIMC";
    assert forall k :: 0 <= k < |FieldNames| ==> FieldNames[k][0] == initials[k];
  }

  // ---------------------------------------------------------------------------
  // recommend_skills
  // ---------------------------------------------------------------------------

  /** The lower-cased keywords of a field that are not among the detected skills. */
  function Remaining(detected: seq<string>, keywords: set<string>): set<string> {
    LowerOf(keywords) - LowerSet(detected)
  }

  /** No element occurs twice. */
  predicate Distinct(xs: seq<string>) {
    forall i, j :: 0 <= i < j < |xs| ==> xs[i] != xs[j]
  }

  /**
    `random.shuffle(list(s))`: every element of `s` once, in an order the
    model leaves open (each step takes any element not yet taken).
   */
  method Shuffled(s: set<string>) returns (xs: seq<string>)
    ensures |xs| == |s| && Distinct(xs)
    ensures forall x :: x in xs <==> x in s
  {
    xs := [];
    var rest := s;
    while rest != {}
      invariant forall x :: x in s <==> x in xs || x in rest
      invariant forall x :: x in xs ==> x !in rest
      invariant Distinct(xs)
      invariant |xs| + |rest| == |s|
      decreases |rest|
    {
      var x :| x in rest;
      xs := xs + [x];
      rest := rest - {x};
    }
  }

  /**
    `recommend_skills()`: up to `topN` title-cased keywords of the recommended
    field that the candidate does not already have, in shuffled order.
   */
  method RecommendSkills(detected: seq<string>, table: seq<set<string>>, topN: nat) returns (rs: seq<string>)
    requires |table| == |FieldNames|
    ensures BestField(detected, table).None? ==> rs == []
    ensures BestField(detected, table).Some? ==>
      var remaining := Remaining(detected, table[BestField(detected, table).value]);
      |rs| == (if topN < |remaining| then topN else |remaining|) &&
      forall i :: 0 <= i < |rs| ==> Lower(rs[i]) in remaining && rs[i] == Title(Lower(rs[i]))
    ensures forall i :: 0 <= i < |rs| ==> Lower(rs[i]) !in LowerSet(detected)
    ensures Distinct(rs)
  {
    var fieldResult := RecommendField(detected, table);
    var fieldName := fieldResult.field;
    if fieldName.None? {
      return [];
    }
    ghost var best := BestField(detected, table).value;
    var k := FieldIndexFrom(fieldName.value, 0, |FieldNames|).value;
    FieldNamesDistinct(k, best);
    var predefinedSkills := LowerOf(table[k]);
    var matched := LowerSet(detected);
    var remaining := Shuffled(predefinedSkills - matched);
    RemainingLower(detected, table[k]);
    var n := if topN < |remaining| then topN else |remaining|;
    rs := seq(n, i requires 0 <= i < n => Title(remaining[i]));
    TitledSlice(remaining, n, rs);
  }

  /** The remaining skills are already lower-case. */
  lemma RemainingLower(detected: seq<string>, keywords: set<string>)
    ensures forall x :: x in Remaining(detected, keywords) ==> Lower(x) == x
  {
    forall x | x in Remaining(detected, keywords) ensures Lower(x) == x {
      var k :| k in keywords && Lower(k) == x;
      LowerIdempotent(k);
    }
  }

  lemma LowerIdempotent(s: string)
    ensures Lower(Lower(s)) == Lower(s)
  {
  }

  /** Title-casing a slice of distinct lower-case words keeps them distinct and recoverable. */
  lemma TitledSlice(xs: seq<string>, n: nat, rs: seq<string>)
    requires n <= |xs| && Distinct(xs)
    requires forall x :: x in xs ==> Lower(x) == x
    requires |rs| == n && forall i :: 0 <= i < n ==> rs[i] == Title(xs[i])
    ensures forall i :: 0 <= i < n ==> Lower(rs[i]) == xs[i] && rs[i] == Title(Lower(rs[i]))
    ensures Distinct(rs)
  {
    forall i | 0 <= i < n ensures Lower(rs[i]) == xs[i] {
      TitleKeepsLower(xs[i]);
    }
  }

  // ---------------------------------------------------------------------------
  // recommend_courses and recommend_videos
  // ---------------------------------------------------------------------------

  /** `recommend_courses()`: the course list of the first five fields, `[]` for any other value. */
  function RecommendCourses(field: Option<string>, courses: seq<seq<string>>): (r: seq<string>)
    requires |courses| == CourseFields
    ensures forall k :: 0 <= k < CourseFields && field == Some(FieldNames[k]) ==> r == courses[k]
    ensures field.None? || field.value !in FieldNames[..CourseFields] ==> r == []
  {
    if field.None? then []
    else match FieldIndexFrom(field.value, 0, CourseFields)
      case None => []
      case Some(k) => courses[k]
  }

  /** `[v for v in videos if v != excluded]` */
  function Without(videos: seq<string>, excluded: string): (r: seq<string>)
    ensures forall v :: v in r <==> v in videos && v != excluded
  {
    if videos == [] then []
    else Without(videos[..|videos| - 1], excluded) + (if videos[|videos| - 1] != excluded then [videos[|videos| - 1]] else [])
  }

  /**
    `recommend_videos()`: a resume video and an interview video other than it;
    an empty pool makes the random choice fail, and an empty-string pick falls
    back to the resume video.
   */
  method RecommendVideos(resumeVideos: seq<string>, interviewVideos: seq<string>) returns (r: Result<(string, string), string>)
    ensures r.Success? ==> r.value.0 in resumeVideos
    ensures r.Success? ==>
      (r.value.1 in interviewVideos && r.value.1 != r.value.0) || (r.value.1 == r.value.0 && "" in interviewVideos)
    ensures resumeVideos == [] ==> r.Failure?
    ensures r.Failure? ==> r.error == IndexError
    ensures r.Failure? ==>
      resumeVideos == [] || exists i :: 0 <= i < |resumeVideos| && Without(interviewVideos, resumeVideos[i]) == []
  {
    if resumeVideos == [] {
      return Failure(IndexError);
    }
    var i :| 0 <= i < |resumeVideos|;
    var resumeVideo := resumeVideos[i];
    var pool := Without(interviewVideos, resumeVideo);
    if pool == [] {
      return Failure(IndexError);
    }
    var j :| 0 <= j < |pool|;
    var interviewVideo := if pool[j] != "" then pool[j] else resumeVideo;
    assert pool[j] in pool;
    r := Success((resumeVideo, interviewVideo));
  }

  /** The message `random.choice` raises on an empty sequence. */
  const IndexError := "Cannot choose from an empty sequence"
}
