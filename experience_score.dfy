/**
  `score_experience_with_ner()`: evidence of experience drawn from the
  named-entity list, scored out of 30 points. Points are kept in tenths, which
  is exact: every component of the source's float score is a multiple of 0.5.
 */
module ExperienceScore {
  import opened Text
  import opened Entities

  // ---------------------------------------------------------------------------
  // Gluing word pieces back together
  // ---------------------------------------------------------------------------

  /** A word-piece continuation: the tokenizer marks it with a leading `##`. */
  predicate IsPiece(w: string) {
    StartsWith(w, "##")
  }

  /** A word with its continuation marker removed. */
  function Unmarked(w: string): string {
    if IsPiece(w) then w[2..] else w
  }

  /**
    The groups the merge loop builds: each piece is glued onto the group
    before it and every other word opens a new group. The first group is what
    precedes the first whole word (empty unless the list opens with pieces).
   */
  function Groups(words: seq<string>): (g: seq<string>)
    ensures |g| >= 1
  {
    if words == [] then [""]
    else
      var g := Groups(words[..|words| - 1]);
      var w := words[|words| - 1];
      if IsPiece(w) then g[..|g| - 1] + [g[|g| - 1] + w[2..]] else g + [w]
  }

  /** Each group preceded by one space, concatenated. */
  function Spaced(groups: seq<string>): string {
    if groups == [] then [] else Spaced(groups[..|groups| - 1]) + " " + groups[|groups| - 1]
  }

  /** The groups concatenated with nothing in between. */
  function Concat(groups: seq<string>): string {
    if groups == [] then [] else Concat(groups[..|groups| - 1]) + groups[|groups| - 1]
  }

  /** The words concatenated with their markers removed. */
  function UnmarkedText(words: seq<string>): string {
    if words == [] then [] else UnmarkedText(words[..|words| - 1]) + Unmarked(words[|words| - 1])
  }

  /** The `word` of each entity, in order. */
  function EntityWords(ents: seq<Entity>): (ws: seq<string>)
    ensures |ws| == |ents|
    ensures forall i :: 0 <= i < |ents| ==> ws[i] == ents[i].word
  {
    seq(|ents|, i requires 0 <= i < |ents| => ents[i].word)
  }

  /**
    The first loop of `score_experience_with_ner()`: builds `full_text` from
    the entity words, gluing `##` pieces onto the word before them.
   */
  method MergeSubwords(words: seq<string>) returns (fullText: string)
    ensures fullText == Spaced(Groups(words))
  {
    fullText := "";
    var previous := "";
    for i := 0 to |words|
      invariant previous == Groups(words[..i])[|Groups(words[..i])| - 1]
      invariant fullText == Spaced(Groups(words[..i])[..|Groups(words[..i])| - 1])
    {
      assert words[..i + 1][..i] == words[..i];
      ghost var g := Groups(words[..i]);
      var word := words[i];
      if StartsWith(word, "##") {
        previous := previous + word[2..];
        assert Groups(words[..i + 1]) == g[..|g| - 1] + [previous];
        assert (g[..|g| - 1] + [previous])[..|g| - 1] == g[..|g| - 1];
      } else {
        fullText := fullText + " " + previous;
        previous := word;
        assert Groups(words[..i + 1]) == g + [word];
        assert g[..|g| - 1] + [g[|g| - 1]] == g;
      }
    }
    assert words[..|words|] == words;
    ghost var g := Groups(words);
    assert g == g[..|g| - 1] + [g[|g| - 1]];
    fullText := fullText + " " + previous;
  }

  /** Merging loses no characters: the groups hold exactly the unmarked words. */
  lemma {:induction false} GroupsKeepText(words: seq<string>)
    ensures Concat(Groups(words)) == UnmarkedText(words)
  {
    if words != [] {
      var front := words[..|words| - 1];
      var w := words[|words| - 1];
      GroupsKeepText(front);
      var g := Groups(front);
      if IsPiece(w) {
        ConcatGlue(g[..|g| - 1], g[|g| - 1], w[2..]);
        assert g == g[..|g| - 1] + [g[|g| - 1]];
      }
    }
  }

  /** Gluing text onto the last group appends it to the concatenation. */
  lemma ConcatGlue(front: seq<string>, last: string, p: string)
    ensures Concat(front + [last + p]) == Concat(front + [last]) + p
  {
    var h, g := front + [last + p], front + [last];
    assert h[..|h| - 1] == front && g[..|g| - 1] == front;
  }

  /** Without pieces every word is its own group, after the empty first one. */
  lemma {:induction false} GroupsWithoutPieces(words: seq<string>)
    requires forall i :: 0 <= i < |words| ==> !IsPiece(words[i])
    ensures Groups(words) == [""] + words
  {
    if words != [] {
      var front := words[..|words| - 1];
      GroupsWithoutPieces(front);
      assert [""] + front + [words[|words| - 1]] == [""] + words;
    }
  }

  /** A piece right after a word joins that word into one group. */
  lemma GroupsGlue(words: seq<string>, w: string, p: string)
    requires !IsPiece(w)
    ensures Groups(words + [w] + ["##" + p]) == Groups(words) + [w + p]
  {
    var ws := words + [w];
    assert ws[..|ws| - 1] == words;
    var all := ws + ["##" + p];
    assert all[..|all| - 1] == ws;
    assert ("##" + p)[2..] == p;
    var g := Groups(words) + [w];
    assert g[..|g| - 1] == Groups(words);
  }

  // ---------------------------------------------------------------------------
  // Counting entity labels
  // ---------------------------------------------------------------------------

  /** The entity groups counted as numeric evidence. */
  const NumericLabels: seq<string> := ["MONEY", "PERCENT", "CARDINAL"]

  /** The lower-cased words of the entities whose upper-cased group is `kind`. */
  function Labelled(ents: seq<Entity>, kind: string): set<string> {
    if ents == [] then {}
    else
      var e := ents[|ents| - 1];
      Labelled(ents[..|ents| - 1], kind) + (if Upper(e.group) == kind then {Lower(e.word)} else {})
  }

  /** The number of entities whose upper-cased group is numeric. */
  function NumericCount(ents: seq<Entity>): nat {
    if ents == [] then 0
    else NumericCount(ents[..|ents| - 1]) + (if Upper(ents[|ents| - 1].group) in NumericLabels then 1 else 0)
  }

  /** A word is collected exactly when some entity of that kind spells it. */
  lemma {:induction false} LabelledIff(ents: seq<Entity>, kind: string, w: string)
    ensures w in Labelled(ents, kind) <==>
            exists i :: 0 <= i < |ents| && Upper(ents[i].group) == kind && Lower(ents[i].word) == w
  {
    if ents != [] {
      var front := ents[..|ents| - 1];
      LabelledIff(front, kind, w);
      if w in Labelled(ents, kind) && w !in Labelled(front, kind) {
        assert Upper(ents[|ents| - 1].group) == kind && Lower(ents[|ents| - 1].word) == w;
      }
      if exists i :: 0 <= i < |ents| && Upper(ents[i].group) == kind && Lower(ents[i].word) == w {
        var i :| 0 <= i < |ents| && Upper(ents[i].group) == kind && Lower(ents[i].word) == w;
        if i < |front| {
          assert front[i] == ents[i];
        }
      }
    }
  }

  /** The numeric count is zero exactly when no entity is numeric, and never exceeds the list. */
  lemma {:induction false} NumericCountIff(ents: seq<Entity>)
    ensures NumericCount(ents) <= |ents|
    ensures NumericCount(ents) == 0 <==> forall i :: 0 <= i < |ents| ==> Upper(ents[i].group) !in NumericLabels
  {
    if ents != [] {
      var front := ents[..|ents| - 1];
      NumericCountIff(front);
      assert forall i :: 0 <= i < |front| ==> front[i] == ents[i];
    }
  }

  /**
    The second loop of `score_experience_with_ner()`: one pass over the
    entities that sorts each into organisations, dates, locations or numerics.
   */
  method CountEntities(ents: seq<Entity>) returns (orgs: set<string>, dates: set<string>, locations: set<string>, numerics: nat)
    ensures orgs == Labelled(ents, "ORG")
    ensures dates == Labelled(ents, "DATE")
    ensures locations == Labelled(ents, "LOC")
    ensures numerics == NumericCount(ents)
  {
    orgs, dates, locations, numerics := {}, {}, {}, 0;
    for i := 0 to |ents|
      invariant orgs == Labelled(ents[..i], "ORG")
      invariant dates == Labelled(ents[..i], "DATE")
      invariant locations == Labelled(ents[..i], "LOC")
      invariant numerics == NumericCount(ents[..i])
    {
      assert ents[..i + 1][..i] == ents[..i];
      var kind := Upper(ents[i].group);
      var word := Lower(ents[i].word);
      if kind == "ORG" {
        orgs := orgs + {word};
      } else if kind == "DATE" {
        dates := dates + {word};
      } else if kind == "LOC" {
        locations := locations + {word};
      } else if kind in NumericLabels {
        numerics := numerics + 1;
      }
    }
    assert ents[..|ents|] == ents;
  }

  // ---------------------------------------------------------------------------
  // Action verbs
  // ---------------------------------------------------------------------------

  /** The action verbs whose occurrences are counted. */
  const ActionVerbs: seq<string> := [
    "develop", "manage", "lead", "create", "optimize", "analyze", "design", "build",
    "coordinate", "supervise", "plan", "initiate", "execute", "implement", "improve"
  ]

  /** `sum(text.count(v) for v in verbs)` */
  function VerbHits(text: string, verbs: seq<string>): nat {
    if verbs == [] then 0 else VerbHits(text, verbs[..|verbs| - 1]) + Count(text, verbs[|verbs| - 1])
  }

  /** The action-verb occurrences in `text`. */
  function ActionVerbCount(text: string): nat {
    VerbHits(text, ActionVerbs)
  }

  /** A non-empty word that occurs is counted at least once. */
  lemma {:induction false} CountPositive(s: string, sub: string)
    requires sub != [] && Contains(s, sub)
    ensures Count(s, sub) > 0
    decreases |s|
  {
    if !StartsWith(s, sub) {
      CountPositive(s[1..], sub);
    }
  }

  /** No verb is counted exactly when none of the (non-empty) verbs occurs in the text. */
  lemma {:induction false} VerbHitsZeroIff(text: string, verbs: seq<string>)
    requires forall k :: 0 <= k < |verbs| ==> verbs[k] != []
    ensures VerbHits(text, verbs) == 0 <==> forall k :: 0 <= k < |verbs| ==> !Contains(text, verbs[k])
  {
    if verbs != [] {
      var front := verbs[..|verbs| - 1];
      var v := verbs[|verbs| - 1];
      assert forall k :: 0 <= k < |front| ==> front[k] == verbs[k];
      VerbHitsZeroIff(text, front);
      if Contains(text, v) {
        CountPositive(text, v);
      }
    }
  }

  // ---------------------------------------------------------------------------
  // The score
  // ---------------------------------------------------------------------------

  /** The evidence the score is computed from. */
  datatype Tally = Tally(orgs: nat, dates: nat, locations: nat, numerics: nat, verbs: nat, sentences: nat)

  function Min(a: nat, b: nat): nat {
    if a < b then a else b
  }

  /** The uncapped score in tenths: 3, 2, 2, 2, 1.5 and 1 point per capped unit. */
  function Raw(t: Tally): nat {
    30 * Min(t.orgs, 3) + 20 * Min(t.dates, 3) + 20 * Min(t.locations, 2)
      + 20 * Min(t.numerics, 2) + 15 * Min(t.verbs, 5) + 10 * Min(t.sentences / 3, 3)
  }

  /** `round(min(score, 30), 1)` in tenths. */
  function Score(t: Tally): (tenths: nat)
    ensures tenths <= 300 && tenths <= Raw(t)
  {
    var raw := Raw(t);
    if raw < 300 then raw else 300
  }

  /** The evidence found in an entity list and a sentence count. */
  function TallyOf(ents: seq<Entity>, sentences: nat): Tally {
    Tally(|Labelled(ents, "ORG")|, |Labelled(ents, "DATE")|, |Labelled(ents, "LOC")|, NumericCount(ents),
          ActionVerbCount(Lower(Spaced(Groups(EntityWords(ents))))), sentences)
  }

  /**
    `score_experience_with_ner()` in tenths of a point. `sentences` is the
    length of the sentence tokenizer's output (1 when it fails).
   */
  method ScoreExperienceWithNer(ents: seq<Entity>, sentences: nat) returns (tenths: nat)
    ensures tenths == Score(TallyOf(ents, sentences))
    ensures tenths <= 300
  {
    var fullText := MergeSubwords(EntityWords(ents));
    var orgs, dates, locations, numerics := CountEntities(ents);
    var verbCount := ActionVerbCount(Lower(fullText));
    var sentenceBonus := Min(sentences / 3, 3);
    var score := 30 * Min(|orgs|, 3) + 20 * Min(|dates|, 3) + 20 * Min(|locations|, 2)
      + 20 * Min(numerics, 2) + 15 * Min(verbCount, 5) + 10 * sentenceBonus;
    tenths := if score < 300 then score else 300;
    ScoreOfParts(|orgs|, |dates|, |locations|, numerics, verbCount, sentences, score);
    assert Tally(|orgs|, |dates|, |locations|, numerics, verbCount, sentences) == TallyOf(ents, sentences);
  }

  /** The score of the evidence, written out term by term as the source adds it up. */
  lemma ScoreOfParts(orgs: nat, dates: nat, locations: nat, numerics: nat, verbs: nat, sentences: nat, score: nat)
    requires score == 30 * Min(orgs, 3) + 20 * Min(dates, 3) + 20 * Min(locations, 2)
      + 20 * Min(numerics, 2) + 15 * Min(verbs, 5) + 10 * Min(sentences / 3, 3)
    ensures (if score < 300 then score else 300) == Score(Tally(orgs, dates, locations, numerics, verbs, sentences))
  {
  }

  /** Each component stays within its cap, so the raw score never exceeds 33.5 points. */
  lemma RawBounds(t: Tally)
    ensures 30 * Min(t.orgs, 3) <= 90 && 20 * Min(t.dates, 3) <= 60 && 20 * Min(t.locations, 2) <= 40
    ensures 20 * Min(t.numerics, 2) <= 40 && 15 * Min(t.verbs, 5) <= 75 && 10 * Min(t.sentences / 3, 3) <= 30
    ensures Raw(t) <= 335
  {
  }

  /** More evidence of every kind never lowers the score. */
  lemma ScoreMonotone(a: Tally, b: Tally)
    requires a.orgs <= b.orgs && a.dates <= b.dates && a.locations <= b.locations
    requires a.numerics <= b.numerics && a.verbs <= b.verbs && a.sentences <= b.sentences
    ensures Score(a) <= Score(b)
  {
    assert a.sentences / 3 <= b.sentences / 3;
    assert Min(a.orgs, 3) <= Min(b.orgs, 3) && Min(a.dates, 3) <= Min(b.dates, 3);
    assert Min(a.locations, 2) <= Min(b.locations, 2) && Min(a.numerics, 2) <= Min(b.numerics, 2);
    assert Min(a.verbs, 5) <= Min(b.verbs, 5) && Min(a.sentences / 3, 3) <= Min(b.sentences / 3, 3);
  }

  /** The score is zero exactly when there is no evidence and fewer than three sentences. */
  lemma ScoreZeroIff(t: Tally)
    ensures Score(t) == 0 <==>
            t.orgs == 0 && t.dates == 0 && t.locations == 0 && t.numerics == 0 && t.verbs == 0 && t.sentences < 3
  {
  }

  /** Saturating every component reaches the 30-point cap. */
  lemma ScoreFull(t: Tally)
    requires t.orgs >= 3 && t.dates >= 3 && t.locations >= 2 && t.numerics >= 2 && t.verbs >= 5
    ensures Score(t) == 300
  {
  }
}
