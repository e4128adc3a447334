/** `extract_name_from_ner`: the candidate's name from the PERSON entities, or the first line. */
module Names {
  import opened Wrappers
  import opened Text
  import opened Seqs
  import opened Entities

  /** `[ent['word'] for ent in ner_results if ent['entity_group'] == 'PERSON']` */
  function PersonWord(e: Entity): Option<string> {
    if e.group == "PERSON" then Some(e.word) else None
  }

  /** `re.search(r'\d|\@|\.com', name, re.IGNORECASE)` finds something. */
  predicate Rejected(name: string) {
    HasDigit(name) || '@' in name || Contains(Lower(name), ".com")
  }

  /** A PERSON word stripped, with `_` read as a space, kept unless it looks like a number, address or site. */
  function CleanPerson(word: string): Option<string> {
    var name := ReplaceChar(Strip(word), '_', ' ');
    if Rejected(name) then None else Some(name)
  }

  function CleanNames(entities: seq<Entity>): seq<string> {
    FilterMap(CleanPerson, FilterMap(PersonWord, entities))
  }

  /** The keys of the words in `ws`: with `key := Lower`, the `seen` set. */
  function KeySet(key: string -> string, ws: seq<string>): set<string> {
    set w | w in ws :: key(w)
  }

  /**
    The second loop, for `norm := Strip` and `key := Lower`: each word
    normalised, kept the first time its key is seen, in first-seen order.
   */
  function Dedupe(norm: string -> string, key: string -> string, words: seq<string>): seq<string> {
    if words == [] then []
    else
      var d := Dedupe(norm, key, words[..|words| - 1]);
      var w := norm(words[|words| - 1]);
      if key(w) in KeySet(key, d) then d else d + [w]
  }

  /** The fallback: the first line of the stripped text, when it has at most five words. */
  function FallbackName(text: string): string {
    var firstLine := Split(Strip(text), {'\n'})[0];
    if |Words(firstLine)| <= 5 then Strip(firstLine) else ""
  }

  /** What `extract_name_from_ner` returns. */
  function NameFromNer(entities: seq<Entity>, text: string): string {
    var finalName := Dedupe(Strip, Lower, CleanNames(entities));
    if finalName != [] then Strip(Join(" ", finalName)) else FallbackName(text)
  }

  /** The first loop of `extract_name_from_ner`: the PERSON words that pass the filter. */
  method CollectCleanNames(names: seq<string>) returns (cleanNames: seq<string>)
    ensures cleanNames == FilterMap(CleanPerson, names)
  {
    cleanNames := [];
    for i := 0 to |names|
      invariant cleanNames == FilterMap(CleanPerson, names[..i])
    {
      var n := ReplaceChar(Strip(names[i]), '_', ' ');
      FilterMapSnoc(CleanPerson, names[..i], names[i]);
      TakeSnoc(names, i);
      if !(HasDigit(n) || '@' in n || Contains(Lower(n), ".com")) {
        cleanNames := cleanNames + [n];
      }
    }
    assert names[..|names|] == names;
  }

  /**
    The second loop, over the normalisation `norm` (there `strip`) and the key
    `key` (there `lower`): the `seen` set of keys and the `final_name` list.
   */
  method DedupeWords(norm: string -> string, key: string -> string, words: seq<string>) returns (kept: seq<string>)
    ensures kept == Dedupe(norm, key, words)
  {
    var seen: set<string> := {};
    kept := [];
    for i := 0 to |words|
      invariant kept == Dedupe(norm, key, words[..i])
      invariant seen == KeySet(key, kept)
    {
      var word := norm(words[i]);
      ghost var next := words[..i + 1];
      assert next[..i] == words[..i] && next[i] == words[i];
      if key(word) !in seen {
        assert KeySet(key, kept + [word]) == seen + {key(word)};
        kept := kept + [word];
        seen := seen + {key(word)};
      }
    }
    assert words[..|words|] == words;
  }

  /** `extract_name_from_ner` */
  method ExtractNameFromNer(entities: seq<Entity>, text: string) returns (name: string)
    ensures name == NameFromNer(entities, text)
  {
    var names := FilterMap(PersonWord, entities);
    var cleanNames := CollectCleanNames(names);
    var finalName := DedupeWords(Strip, Lower, cleanNames);
    if finalName != [] {
      return Strip(Join(" ", finalName));
    }
    var firstLine := Split(Strip(text), {'\n'})[0];
    if |Words(firstLine)| <= 5 {
      name := Strip(firstLine);
    } else {
      name := "";
    }
  }

  /** The kept words' keys are exactly the keys of the normalised input words. */
  lemma {:induction false} DedupeKeys(norm: string -> string, key: string -> string, words: seq<string>)
    ensures KeySet(key, Dedupe(norm, key, words)) == set w | w in words :: key(norm(w))
  {
    if words != [] {
      var n := |words| - 1;
      var front := words[..n];
      DedupeKeys(norm, key, front);
      var d := Dedupe(norm, key, front);
      var w := norm(words[n]);
      assert words == front + [words[n]];
      assert (set x | x in words :: key(norm(x))) == (set x | x in front :: key(norm(x))) + {key(w)};
      if key(w) !in KeySet(key, d) {
        assert KeySet(key, d + [w]) == KeySet(key, d) + {key(w)};
      }
    }
  }

  /** No two kept words share a key. */
  lemma {:induction false} DedupeDistinct(norm: string -> string, key: string -> string, words: seq<string>)
    ensures forall i, j :: 0 <= i < j < |Dedupe(norm, key, words)| ==>
      key(Dedupe(norm, key, words)[i]) != key(Dedupe(norm, key, words)[j])
  {
    if words != [] {
      var front := words[..|words| - 1];
      DedupeDistinct(norm, key, front);
      var d := Dedupe(norm, key, front);
      var w := norm(words[|words| - 1]);
      if key(w) !in KeySet(key, d) {
        var r := d + [w];
        assert forall i :: 0 <= i < |d| ==> r[i] == d[i] && key(d[i]) in KeySet(key, d);
      }
    }
  }

  /** `x` is the normalised form of the first word of `words` whose key is that of `x`. */
  ghost predicate FirstSeen(norm: string -> string, key: string -> string, words: seq<string>, x: string) {
    exists j :: 0 <= j < |words| && x == norm(words[j])
      && forall i :: 0 <= i < j ==> key(norm(words[i])) != key(x)
  }

  lemma FirstSeenExtend(norm: string -> string, key: string -> string, words: seq<string>, x: string, y: string)
    requires FirstSeen(norm, key, words, x)
    ensures FirstSeen(norm, key, words + [y], x)
  {
    var j :| 0 <= j < |words| && x == norm(words[j]) && forall i :: 0 <= i < j ==> key(norm(words[i])) != key(x);
    assert forall i :: 0 <= i <= j ==> (words + [y])[i] == words[i];
  }

  /** Each kept word is first seen: the first input word with its key is the one kept. */
  lemma {:induction false} DedupeFirstSeen(norm: string -> string, key: string -> string, words: seq<string>)
    ensures forall k :: 0 <= k < |Dedupe(norm, key, words)| ==> FirstSeen(norm, key, words, Dedupe(norm, key, words)[k])
  {
    if words != [] {
      var n := |words| - 1;
      var front := words[..n];
      assert words == front + [words[n]];
      DedupeFirstSeen(norm, key, front);
      var d := Dedupe(norm, key, front);
      var r := Dedupe(norm, key, words);
      forall k | 0 <= k < |r| ensures FirstSeen(norm, key, words, r[k]) {
        if k < |d| {
          assert r[k] == d[k];
          FirstSeenExtend(norm, key, front, d[k], words[n]);
        } else {
          DedupeKeys(norm, key, front);
          assert r[k] == norm(words[n]) && key(r[k]) !in KeySet(key, d);
          forall i | 0 <= i < n ensures key(norm(words[i])) != key(r[k]) {
            assert words[i] in front;
          }
        }
      }
    }
  }

  /**
    The kept words keep the input order: the `i`-th kept word is the
    normalised input word at index `idx[i]`, the indices strictly increase,
    and no earlier input word has that word's key.
   */
  lemma {:induction false} DedupeInOrder(norm: string -> string, key: string -> string, words: seq<string>)
    returns (idx: seq<nat>)
    ensures |idx| == |Dedupe(norm, key, words)|
    ensures forall i :: 0 <= i < |idx| ==> idx[i] < |words| && Dedupe(norm, key, words)[i] == norm(words[idx[i]])
    ensures forall i, j :: 0 <= i < j < |idx| ==> idx[i] < idx[j]
    ensures forall i, k :: 0 <= i < |idx| && 0 <= k < idx[i] ==> key(norm(words[k])) != key(Dedupe(norm, key, words)[i])
  {
    if words == [] {
      idx := [];
    } else {
      var n := |words| - 1;
      var front := words[..n];
      var prev := DedupeInOrder(norm, key, front);
      var d := Dedupe(norm, key, front);
      var w := norm(words[n]);
      var r := Dedupe(norm, key, words);
      assert forall k :: 0 <= k < n ==> words[k] == front[k];
      if key(w) in KeySet(key, d) {
        assert r == d;
        idx := prev;
      } else {
        assert r == d + [w];
        idx := prev + [n];
        DedupeKeys(norm, key, front);
        forall k | 0 <= k < n ensures key(norm(words[k])) != key(w) {
          assert front[k] in front;
        }
        forall i, k | 0 <= i < |idx| && 0 <= k < idx[i] ensures key(norm(words[k])) != key(r[i]) {
          if i < |prev| {
            assert r[i] == d[i] && idx[i] == prev[i];
          }
        }
      }
    }
  }

  /** Some word is kept exactly when there is an input word. */
  lemma DedupeEmpty(norm: string -> string, key: string -> string, words: seq<string>)
    ensures Dedupe(norm, key, words) == [] <==> words == []
  {
    DedupeKeys(norm, key, words);
    if words != [] {
      assert key(norm(words[0])) in KeySet(key, Dedupe(norm, key, words));
    }
  }

  lemma StripNoDigit(name: string)
    requires !HasDigit(name)
    ensures !HasDigit(Strip(name))
  {
    var t := Strip(name);
    var a := StripSlice(name);
    HasDigitIff(t);
    HasDigitIff(name);
    assert forall i :: 0 <= i < |t| ==> t[i] == name[a + i];
  }

  lemma StripNoAt(name: string)
    requires '@' !in name
    ensures '@' !in Strip(name)
  {
    var t := Strip(name);
    var a := StripSlice(name);
    assert forall i :: 0 <= i < |t| ==> t[i] == name[a + i];
  }

  lemma LowerStripSlice(name: string) returns (a: nat, b: nat)
    ensures a <= b <= |name| && Lower(Strip(name)) == Lower(name)[a..b]
  {
    var t := Strip(name);
    a := StripSlice(name);
    b := a + |t|;
    LowerSlice(name, a, b);
  }

  lemma StripNoLowerSub(name: string, sub: string)
    requires !Contains(Lower(name), sub)
    ensures !Contains(Lower(Strip(name)), sub)
  {
    var a, b := LowerStripSlice(name);
    if Contains(Lower(name)[a..b], sub) {
      ContainsInSlice(Lower(name), a, b, sub);
    }
  }

  /** A stripped name that passes the filter passes it again. */
  lemma StripNotRejected(name: string)
    requires !Rejected(name)
    ensures !Rejected(Strip(name))
  {
    StripNoDigit(name);
    StripNoAt(name);
    StripNoLowerSub(name, ".com");
  }

  /** Every name left after the first loop passes the filter. */
  lemma CleanNamesPass(entities: seq<Entity>)
    ensures forall x :: x in CleanNames(entities) ==> !Rejected(x)
  {
  }

  /** Every kept name passes the filter. */
  lemma KeptNamesPass(clean: seq<string>)
    requires forall x :: x in clean ==> !Rejected(x)
    ensures forall x :: x in Dedupe(Strip, Lower, clean) ==> !Rejected(x)
  {
    DedupeFirstSeen(Strip, Lower, clean);
    var finalName := Dedupe(Strip, Lower, clean);
    forall x | x in finalName ensures !Rejected(x) {
      var k :| 0 <= k < |finalName| && finalName[k] == x;
      assert FirstSeen(Strip, Lower, clean, x);
      var j :| 0 <= j < |clean| && x == Strip(clean[j]);
      assert clean[j] in clean;
      StripNotRejected(clean[j]);
    }
  }

  /**
    With PERSON words left after the filter, the name is their de-duplicated
    join, the kept words in the order the entities first give them, and no
    kept word holds a digit, an `@` or `.com` in any case; without any, it is
    the fallback line.
   */
  lemma NameFromNerSpec(entities: seq<Entity>, text: string) returns (idx: seq<nat>)
    ensures CleanNames(entities) != [] ==>
      NameFromNer(entities, text) == Strip(Join(" ", Dedupe(Strip, Lower, CleanNames(entities))))
    ensures CleanNames(entities) == [] ==> NameFromNer(entities, text) == FallbackName(text)
    ensures forall x :: x in Dedupe(Strip, Lower, CleanNames(entities)) ==> !Rejected(x)
    ensures var clean, kept := CleanNames(entities), Dedupe(Strip, Lower, CleanNames(entities));
      && |idx| == |kept|
      && (forall i :: 0 <= i < |idx| ==> idx[i] < |clean| && kept[i] == Strip(clean[idx[i]]))
      && (forall i, j :: 0 <= i < j < |idx| ==> idx[i] < idx[j])
  {
    idx := DedupeInOrder(Strip, Lower, CleanNames(entities));
    DedupeEmpty(Strip, Lower, CleanNames(entities));
    CleanNamesPass(entities);
    KeptNamesPass(CleanNames(entities));
  }

  /**
    The fallback is a single line taken from the text: the stripped first line
    of the stripped text when that line has at most five words, and `""` when
    it has six or more.
   */
  lemma FallbackNameSpec(text: string)
    ensures var firstLine := Split(Strip(text), {'\n'})[0];
      && '\n' !in FallbackName(text)
      && (|Words(firstLine)| <= 5 ==> FallbackName(text) == Strip(firstLine))
      && (|Words(firstLine)| > 5 ==> FallbackName(text) == "")
      && Contains(text, FallbackName(text))
  {
    var f := Strip(Split(Strip(text), {'\n'})[0]);
    FirstLineInText(text);
    if FallbackName(text) != f {
      assert StartsWith(text, "");
    }
  }

  /** The stripped first line of the stripped text is a newline-free piece of the text. */
  lemma FirstLineInText(text: string)
    ensures var f := Strip(Split(Strip(text), {'\n'})[0]);
      '\n' !in f && Contains(text, f)
  {
    var t := Strip(text);
    var firstLine := Split(t, {'\n'})[0];
    StrippedPiece(firstLine, {'\n'});
    StripContained(text);
    SplitFirstContained(t, {'\n'});
    ContainsTransitive(text, t, firstLine);
    ContainsTransitive(text, firstLine, Strip(firstLine));
  }

  /** Stripping a string free of some characters leaves a string free of them. */
  lemma StrippedPiece(piece: string, seps: set<char>)
    requires forall j :: 0 <= j < |piece| ==> piece[j] !in seps
    ensures forall c :: c in seps ==> c !in Strip(piece)
  {
    var f := Strip(piece);
    var a := StripSlice(piece);
    forall i | 0 <= i < |f| ensures f[i] !in seps {
      assert f[i] == piece[a + i];
    }
  }
}
