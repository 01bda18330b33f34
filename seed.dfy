/**
 * The seeding script: upserts the two JLPT levels, clears the question table and, for each
 * level, builds four-option multiple-choice questions from the dictionary entries fetched for
 * it. The fetch itself is I/O; its results are parameters here (an empty list when it failed).
 */
module Seed {
  import opened Common
  import opened Schema

  /** One written form of a dictionary entry. */
  datatype JapaneseForm = JapaneseForm(word: Option<string>, reading: string)

  /** One sense of a dictionary entry. */
  datatype Sense = Sense(englishDefinitions: seq<string>)

  /** A dictionary entry as the search API returns it. */
  datatype JishoWord = JishoWord(slug: string, japanese: seq<JapaneseForm>, senses: seq<Sense>)

  /** A row to insert into `questions` (the id is generated on insert). */
  datatype NewQuestion = NewQuestion(levelId: LevelId, questionText: string, correctAnswer: string, options: seq<string>)

  /** The levels the script seeds. */
  function LevelData(): seq<Level>
  {
    [Level(1, "jlpt-n5", 100), Level(2, "jlpt-n4", 200)]
  }

  /**
   * `shuffle`: Fisher–Yates on a copy of the input, the swap index chosen arbitrarily in
   * [0, i] (the random draw). The result is a permutation of the input; the input is a value
   * and is left as it was.
   */
  method Shuffle<T>(items: seq<T>) returns (newArr: seq<T>)
    ensures |newArr| == |items|
    ensures multiset(newArr) == multiset(items)
  {
    var a := new T[|items|](k requires 0 <= k < |items| => items[k]);
    assert a[..] == items;
    var i := a.Length - 1;
    while i > 0
      invariant i < a.Length
      invariant multiset(a[..]) == multiset(items)
    {
      var j :| 0 <= j <= i;
      ghost var before := a[..];
      a[i], a[j] := a[j], a[i];
      assert a[..] == Swapped(before, i, j);
      SwapKeepsElements(before, i, j);
      i := i - 1;
    }
    newArr := a[..];
  }

  /** `s` with the elements at `i` and `j` exchanged. */
  function Swapped<T>(s: seq<T>, i: nat, j: nat): (r: seq<T>)
    requires i < |s| && j < |s|
    ensures |r| == |s| && r[i] == s[j] && r[j] == s[i]
    ensures forall k :: 0 <= k < |s| && k != i && k != j ==> r[k] == s[k]
  {
    s[i := s[j]][j := s[i]]
  }

  /** Exchanging two elements keeps the multiset of elements. */
  lemma {:induction false} SwapKeepsElements<T>(s: seq<T>, i: nat, j: nat)
    requires i < |s| && j < |s|
    ensures multiset(Swapped(s, i, j)) == multiset(s)
  {
    var t := s[i := s[j]];
    assert multiset(t) == multiset(s) - multiset{s[i]} + multiset{s[j]};
    assert multiset(t[j := s[i]]) == multiset(t) - multiset{t[j]} + multiset{s[i]};
  }

  /** `w.senses[0]?.english_definitions[0]`, with a missing or empty definition as None. */
  function FirstDefinition(w: JishoWord): (d: Option<string>)
    ensures d.Some? ==> d.value != ""
  {
    if |w.senses| > 0 && |w.senses[0].englishDefinitions| > 0 && w.senses[0].englishDefinitions[0] != ""
    then Some(w.senses[0].englishDefinitions[0])
    else None
  }

  /** `allDefinitions`: the first definitions of the entries that have one, in entry order. */
  function AllDefinitions(words: seq<JishoWord>): (defs: seq<string>)
    ensures |defs| <= |words|
    ensures forall d :: d in defs <==> exists w :: w in words && FirstDefinition(w) == Some(d)
  {
    if words == [] then []
    else
      assert words == [words[0]] + words[1..];
      var d := FirstDefinition(words[0]);
      (if d.Some? then [d.value] else []) + AllDefinitions(words[1..])
  }

  /** The `.map` step before `.filter(Boolean)`: each entry's first definition, or None. */
  function FirstDefinitions(words: seq<JishoWord>): (m: seq<Option<string>>)
    ensures |m| == |words| && forall i :: 0 <= i < |words| ==> m[i] == FirstDefinition(words[i])
  {
    seq(|words|, i requires 0 <= i < |words| => FirstDefinition(words[i]))
  }

  /** The mapped entries of a non-empty list: the first entry's definition, then the rest's. */
  lemma {:induction false} FirstDefinitionsCons(words: seq<JishoWord>)
    requires words != []
    ensures FirstDefinitions(words) == [FirstDefinition(words[0])] + FirstDefinitions(words[1..])
  {
    var m, rest := FirstDefinitions(words), FirstDefinitions(words[1..]);
    forall i | 0 <= i < |m| ensures m[i] == ([FirstDefinition(words[0])] + rest)[i] {
      if i > 0 {
        assert words[i] == words[1..][i - 1];
      }
    }
  }

  /**
   * The pool keeps every definition as often as the mapped entries carry it: a definition
   * shared by several entries occurs once for each of them, and nothing else is dropped.
   */
  lemma {:induction false} AllDefinitionsCounts(words: seq<JishoWord>, d: string)
    ensures multiset(AllDefinitions(words))[d] == multiset(FirstDefinitions(words))[Some(d)]
  {
    if words != [] {
      AllDefinitionsCounts(words[1..], d);
      var fd := FirstDefinition(words[0]);
      FirstDefinitionsCons(words);
      var rest := AllDefinitions(words[1..]);
      assert multiset(FirstDefinitions(words)) == multiset{fd} + multiset(FirstDefinitions(words[1..]));
      if fd.Some? {
        assert AllDefinitions(words) == [fd.value] + rest;
        assert multiset(AllDefinitions(words)) == multiset{fd.value} + multiset(rest);
      } else {
        assert AllDefinitions(words) == rest;
      }
    }
  }

  /** `possibleWrongAnswers`: the pool without the correct answer. */
  function Distractors(pool: seq<string>, correctAnswer: string): (r: seq<string>)
    ensures forall d :: d in r <==> d in pool && d != correctAnswer
  {
    Filter(pool, (d: string) => d != correctAnswer)
  }

  /** The distractors hold every definition other than the answer as many times as the pool does. */
  lemma {:induction false} DistractorsCounts(pool: seq<string>, correctAnswer: string)
    ensures multiset(Distractors(pool, correctAnswer)) == multiset(pool)[correctAnswer := 0]
  {
    var r := Distractors(pool, correctAnswer);
    FilterCounts(pool, (d: string) => d != correctAnswer);
    assert forall d :: multiset(r)[d] == multiset(pool)[correctAnswer := 0][d];
  }

  /**
   * Duplicates count: the distractors are every pool entry other than the answer, so there
   * are as many as the pool's length less the answer's occurrences.
   */
  lemma {:induction false} DistractorCount(pool: seq<string>, correctAnswer: string)
    ensures |Distractors(pool, correctAnswer)| == |pool| - multiset(pool)[correctAnswer]
  {
    if pool != [] {
      DistractorCount(pool[1..], correctAnswer);
      assert pool == [pool[0]] + pool[1..];
      assert multiset(pool) == multiset{pool[0]} + multiset(pool[1..]);
    }
  }

  /** An entry yields a question when it has a definition and at least 3 pool definitions differ from it. */
  predicate Eligible(w: JishoWord, pool: seq<string>)
  {
    FirstDefinition(w).Some? && |Distractors(pool, FirstDefinition(w).value)| >= 3
  }

  /** The entries among the first `n` that yield a question, in entry order. */
  function EligibleUpTo(words: seq<JishoWord>, n: nat, pool: seq<string>): (r: seq<JishoWord>)
    requires n <= |words|
    ensures |r| <= n
  {
    if n == 0 then []
    else EligibleUpTo(words, n - 1, pool) + (if Eligible(words[n - 1], pool) then [words[n - 1]] else [])
  }

  /** The entries among the first `n` that yield a question are exactly the eligible ones among them. */
  lemma {:induction false} EligibleUpToMembers(words: seq<JishoWord>, n: nat, pool: seq<string>)
    requires n <= |words|
    ensures forall w :: w in EligibleUpTo(words, n, pool) <==> (exists j :: 0 <= j < n && words[j] == w) && Eligible(w, pool)
  {
    if n > 0 {
      EligibleUpToMembers(words, n - 1, pool);
    }
  }

  /** The entries that yield a question, in entry order. */
  function EligibleWords(words: seq<JishoWord>, pool: seq<string>): (r: seq<JishoWord>)
    ensures |r| <= |words|
    ensures forall w :: w in r <==> w in words && Eligible(w, pool)
  {
    EligibleUpToMembers(words, |words|, pool);
    EligibleUpTo(words, |words|, pool)
  }

  /** The prompt: the written form, or the reading when there is none, then the reading. */
  function QuestionText(w: JishoWord): string
    requires |w.japanese| > 0
  {
    var form := w.japanese[0];
    var kanji := if form.word.Some? && form.word.value != "" then form.word.value else form.reading;
    "What is the meaning of \"" + kanji + "\" (" + form.reading + ")?"
  }

  /**
   * The prompt's layout: the opening words, the written form or, when there is none, the
   * reading, then the reading in parentheses.
   */
  lemma {:induction false} QuestionTextLayout(w: JishoWord)
    requires |w.japanese| > 0
    ensures var t := QuestionText(w);
            var form := w.japanese[0];
            var shown := if form.word.Some? && form.word.value != "" then form.word.value else form.reading;
            var opening := "What is the meaning of \"";
            && |t| == |opening| + |shown| + 3 + |form.reading| + 2
            && t[..|opening|] == opening
            && t[|opening|..|opening| + |shown|] == shown
            && t[|opening| + |shown|..|opening| + |shown| + 3] == "\" ("
            && t[|t| - 2 - |form.reading|..|t| - 2] == form.reading
            && t[|t| - 2..] == ")?"
  {
  }

  /**
   * Four options: the answer exactly once, every other option a pool definition that differs
   * from it, and no definition used more often than the pool holds it apart from the answer.
   */
  predicate OptionsFor(correctAnswer: string, pool: seq<string>, options: seq<string>)
  {
    && |options| == 4
    && multiset(options)[correctAnswer] == 1
    && (forall o :: o in options ==> o == correctAnswer || (o in pool && o != correctAnswer))
    && multiset(options) - multiset{correctAnswer} <= multiset(Distractors(pool, correctAnswer))
  }

  /**
   * What a seeded question promises: its level, its prompt and answer taken from the entry,
   * and exactly four options, the answer exactly once and every other option a pool
   * definition that differs from it, no definition used more often than the pool holds it
   * apart from the answer.
   */
  predicate QuestionFor(levelId: LevelId, w: JishoWord, pool: seq<string>, q: NewQuestion)
  {
    && |w.japanese| > 0
    && FirstDefinition(w).Some?
    && q.levelId == levelId
    && q.questionText == QuestionText(w)
    && q.correctAnswer == FirstDefinition(w).value
    && OptionsFor(q.correctAnswer, pool, q.options)
  }

  /** Each question is the one built from the entry at the same position. */
  predicate QuestionsFor(levelId: LevelId, words: seq<JishoWord>, pool: seq<string>, qs: seq<NewQuestion>)
  {
    && |qs| == |words|
    && forall k :: 0 <= k < |qs| ==> QuestionFor(levelId, words[k], pool, qs[k])
  }

  /** Appending an entry and the question built from it keeps the correspondence. */
  lemma {:induction false} QuestionsForSnoc(levelId: LevelId, words: seq<JishoWord>, pool: seq<string>, qs: seq<NewQuestion>, w: JishoWord, q: NewQuestion)
    requires QuestionsFor(levelId, words, pool, qs) && QuestionFor(levelId, w, pool, q)
    ensures QuestionsFor(levelId, words + [w], pool, qs + [q])
  {
    var words', qs' := words + [w], qs + [q];
    forall k | 0 <= k < |qs'| ensures QuestionFor(levelId, words'[k], pool, qs'[k]) {
      if k < |qs| {
        assert words'[k] == words[k] && qs'[k] == qs[k];
      }
    }
  }

  /**
   * The options of one question: three shuffled distractors and the answer, shuffled again.
   * The answer occurs once; the others are distractors.
   */
  method BuildOptions(correctAnswer: string, possibleWrongAnswers: seq<string>) returns (options: seq<string>)
    requires |possibleWrongAnswers| >= 3
    requires correctAnswer !in possibleWrongAnswers
    ensures |options| == 4
    ensures multiset(options)[correctAnswer] == 1
    ensures forall o :: o in options ==> o == correctAnswer || o in possibleWrongAnswers
    ensures multiset(options) - multiset{correctAnswer} <= multiset(possibleWrongAnswers)
  {
    var shuffled := Shuffle(possibleWrongAnswers);
    var wrongOptions := shuffled[..3];
    assert shuffled == wrongOptions + shuffled[3..];
    assert multiset(wrongOptions) <= multiset(possibleWrongAnswers);
    assert forall o :: o in wrongOptions ==> o in multiset(possibleWrongAnswers) by {
      forall o | o in wrongOptions ensures o in multiset(possibleWrongAnswers) {
        assert o in shuffled;
      }
    }
    assert correctAnswer !in wrongOptions;
    assert multiset(wrongOptions)[correctAnswer] == 0;
    options := Shuffle([correctAnswer] + wrongOptions);
    assert multiset(options) == multiset{correctAnswer} + multiset(wrongOptions);
    forall o | o in options ensures o == correctAnswer || o in possibleWrongAnswers {
      assert o in multiset(options);
      if o != correctAnswer {
        assert o in multiset(wrongOptions);
        assert o in wrongOptions;
      }
    }
  }

  /**
   * One pass of the inner loop for an entry that has a written form: a question exactly when
   * the entry is eligible, built from the entry and the pool.
   */
  method QuestionOf(levelId: LevelId, word: JishoWord, allDefinitions: seq<string>) returns (q: Option<NewQuestion>)
    requires |word.japanese| > 0
    ensures q.Some? <==> Eligible(word, allDefinitions)
    ensures q.Some? ==> QuestionFor(levelId, word, allDefinitions, q.value)
  {
    var correctAnswer := FirstDefinition(word);
    if correctAnswer.None? {
      return None;
    }
    var possibleWrongAnswers := Distractors(allDefinitions, correctAnswer.value);
    if |possibleWrongAnswers| < 3 {
      return None;
    }
    var options := BuildOptions(correctAnswer.value, possibleWrongAnswers);
    q := Some(NewQuestion(levelId, QuestionText(word), correctAnswer.value, options));
  }

  /**
   * The inner loop of the script for one level. The first entry without a written form aborts
   * the whole run (None); otherwise one question per eligible entry, in entry order.
   */
  method BuildQuestions(levelId: LevelId, jishoWords: seq<JishoWord>) returns (r: Option<seq<NewQuestion>>)
    ensures r.None? <==> exists w :: w in jishoWords && |w.japanese| == 0
    ensures r.Some? ==>
              var pool := AllDefinitions(jishoWords);
              var eligible := EligibleWords(jishoWords, pool);
              QuestionsFor(levelId, eligible, pool, r.value)
  {
    var allDefinitions := AllDefinitions(jishoWords);
    r := QuestionsFromPool(levelId, jishoWords, allDefinitions);
  }

  /** The loop of `BuildQuestions` over the entries, drawing distractors from `allDefinitions`. */
  method QuestionsFromPool(levelId: LevelId, jishoWords: seq<JishoWord>, allDefinitions: seq<string>)
    returns (r: Option<seq<NewQuestion>>)
    ensures r.None? <==> exists w :: w in jishoWords && |w.japanese| == 0
    ensures r.Some? ==> QuestionsFor(levelId, EligibleUpTo(jishoWords, |jishoWords|, allDefinitions), allDefinitions, r.value)
  {
    var dbQuestions: seq<NewQuestion> := [];
    ghost var eligible: seq<JishoWord> := [];
    var crashed := false;
    ghost var badIndex := 0;
    for i := 0 to |jishoWords|
      invariant !crashed
      invariant forall j :: 0 <= j < i ==> |jishoWords[j].japanese| > 0
      invariant eligible == EligibleUpTo(jishoWords, i, allDefinitions)
      invariant QuestionsFor(levelId, eligible, allDefinitions, dbQuestions)
    {
      var word := jishoWords[i];
      if |word.japanese| == 0 {
        crashed, badIndex := true, i;
        break;
      }
      var q := QuestionOf(levelId, word, allDefinitions);
      if q.Some? {
        QuestionsForSnoc(levelId, eligible, allDefinitions, dbQuestions, word, q.value);
        dbQuestions := dbQuestions + [q.value];
        eligible := eligible + [word];
      }
    }
    if crashed {
      assert jishoWords[badIndex] in jishoWords;
      return None;
    }
    r := Some(dbQuestions);
  }

  /**
   * The upsert of one seed level: when the id exists, that row takes the seed's name and keeps
   * its threshold (only `name` is updated on conflict); otherwise the seed row is appended.
   * Every other row is untouched.
   */
  function UpsertLevel(levels: seq<Level>, row: Level): (r: seq<Level>)
    ensures exists k :: 0 <= k < |r| && r[k].id == row.id && r[k].name == row.name
    ensures |levels| <= |r| <= |levels| + 1
    ensures forall i :: 0 <= i < |levels| ==>
              && r[i].id == levels[i].id
              && r[i].requiredExp == levels[i].requiredExp
              && (levels[i].id != row.id ==> r[i] == levels[i])
              && (levels[i].id == row.id ==> r[i].name == row.name)
    ensures |r| == |levels| + 1 <==> forall i :: 0 <= i < |levels| ==> levels[i].id != row.id
    ensures |r| == |levels| + 1 ==> r[|levels|] == row
  {
    if exists i :: 0 <= i < |levels| && levels[i].id == row.id then
      var r := seq(|levels|, i requires 0 <= i < |levels| =>
                 if levels[i].id == row.id then levels[i].(name := row.name) else levels[i]);
      assert exists k :: 0 <= k < |r| && r[k].id == row.id && r[k].name == row.name by {
        var i :| 0 <= i < |levels| && levels[i].id == row.id;
        assert r[i].id == row.id;
      }
      r
    else
      var r := levels + [row];
      assert r[|levels|] == row;
      r
  }

  /** `levelData` upserted in order. */
  function UpsertLevels(levels: seq<Level>, rows: seq<Level>): (r: seq<Level>)
    ensures |levels| <= |r| <= |levels| + |rows|
    ensures rows != [] ==> exists k :: 0 <= k < |r| && r[k].id == rows[|rows| - 1].id && r[k].name == rows[|rows| - 1].name
    decreases |rows|
  {
    if rows == [] then levels else UpsertLevels(UpsertLevel(levels, rows[0]), rows[1..])
  }

  /** Upserting never removes a level, never changes an id or a threshold, and keeps every row of another id. */
  lemma {:induction false} UpsertLevelsKeeps(levels: seq<Level>, rows: seq<Level>)
    ensures var r := UpsertLevels(levels, rows);
            && |levels| <= |r|
            && forall i :: 0 <= i < |levels| ==>
                 && r[i].id == levels[i].id && r[i].requiredExp == levels[i].requiredExp
                 && ((forall row :: row in rows ==> row.id != levels[i].id) ==> r[i] == levels[i])
    decreases |rows|
  {
    if rows != [] {
      var once := UpsertLevel(levels, rows[0]);
      UpsertLevelsKeeps(once, rows[1..]);
      assert forall row :: row in rows[1..] ==> row in rows;
    }
  }

  /** Some row of `levels` has this id and this name. */
  predicate HasLevel(levels: seq<Level>, id: LevelId, name: string)
  {
    exists k :: 0 <= k < |levels| && levels[k].id == id && levels[k].name == name
  }

  /** After the seed's upsert both JLPT levels exist under their ids and names. */
  lemma {:induction false} SeedLevelsPresent(levels: seq<Level>)
    ensures HasLevel(UpsertLevels(levels, LevelData()), 1, "jlpt-n5")
    ensures HasLevel(UpsertLevels(levels, LevelData()), 2, "jlpt-n4")
  {
    var n5, n4 := LevelData()[0], LevelData()[1];
    var once := UpsertLevel(levels, n5);
    var twice := UpsertLevel(once, n4);
    assert LevelData()[1..] == [n4] && [n4][1..] == [];
    assert UpsertLevels(levels, LevelData()) == UpsertLevels(once, [n4]);
    assert UpsertLevels(once, [n4]) == UpsertLevels(twice, []) == twice;
    var k :| 0 <= k < |once| && once[k].id == n5.id && once[k].name == n5.name;
    assert twice[k] == once[k];
    var j :| 0 <= j < |twice| && twice[j].id == n4.id && twice[j].name == n4.name;
    assert twice[k].id == 1 && twice[k].name == "jlpt-n5";
    assert twice[j].id == 2 && twice[j].name == "jlpt-n4";
  }

  /** The number of questions the script inserts for the first `n` levels. */
  function SeededCount(fetched: seq<seq<JishoWord>>, n: nat): nat
    requires n <= |fetched|
  {
    if n == 0 then 0
    else SeededCount(fetched, n - 1) + |EligibleWords(fetched[n - 1], AllDefinitions(fetched[n - 1]))|
  }

  /** Joining one more level's questions appends them. */
  lemma {:induction false} AppendLevel(perLevel: seq<seq<NewQuestion>>, qs: seq<NewQuestion>)
    ensures Common.Flatten(perLevel + [qs]) == Common.Flatten(perLevel) + qs
  {
    assert (perLevel + [qs])[..|perLevel|] == perLevel;
  }

  /** `perLevel[i]` holds the questions built for the seed level `i` from the entries fetched for it. */
  predicate LevelsSeeded(fetched: seq<seq<JishoWord>>, perLevel: seq<seq<NewQuestion>>)
    requires |fetched| == |LevelData()|
  {
    && |perLevel| <= |fetched|
    && forall i :: 0 <= i < |perLevel| ==>
         QuestionsFor(LevelData()[i].id, EligibleWords(fetched[i], AllDefinitions(fetched[i])),
                      AllDefinitions(fetched[i]), perLevel[i])
  }

  /** Every entry of `words` has a written form. */
  predicate AllWritten(words: seq<JishoWord>)
  {
    forall w :: w in words ==> |w.japanese| > 0
  }

  /** Every entry of the first `n` levels has a written form. */
  predicate PrefixWritten(fetched: seq<seq<JishoWord>>, n: nat)
    requires n <= |fetched|
  {
    forall i :: 0 <= i < n ==> AllWritten(fetched[i])
  }

  /** The questions of one more level, built from that level's entries, extend the seeded levels. */
  lemma {:induction false} LevelsSeededSnoc(fetched: seq<seq<JishoWord>>, perLevel: seq<seq<NewQuestion>>, qs: seq<NewQuestion>)
    requires |fetched| == |LevelData()| && LevelsSeeded(fetched, perLevel) && |perLevel| < |fetched|
    requires var i := |perLevel|;
             QuestionsFor(LevelData()[i].id, EligibleWords(fetched[i], AllDefinitions(fetched[i])), AllDefinitions(fetched[i]), qs)
    ensures LevelsSeeded(fetched, perLevel + [qs])
  {
    var next := perLevel + [qs];
    forall i | 0 <= i < |next|
      ensures QuestionsFor(LevelData()[i].id, EligibleWords(fetched[i], AllDefinitions(fetched[i])),
                           AllDefinitions(fetched[i]), next[i])
    {
      if i < |perLevel| {
        assert next[i] == perLevel[i];
      }
    }
  }

  /** Every question of the seeded levels belongs to one of those levels and one of its entries. */
  lemma {:induction false} SeededQuestionsTraced(fetched: seq<seq<JishoWord>>, perLevel: seq<seq<NewQuestion>>)
    requires |fetched| == |LevelData()| && LevelsSeeded(fetched, perLevel)
    ensures forall q :: q in Common.Flatten(perLevel) ==>
              exists i, w :: 0 <= i < |fetched| && w in fetched[i] && q.levelId == LevelData()[i].id
                             && QuestionFor(LevelData()[i].id, w, AllDefinitions(fetched[i]), q)
  {
    if perLevel != [] {
      var n := |perLevel| - 1;
      var front := perLevel[..n];
      assert LevelsSeeded(fetched, front);
      SeededQuestionsTraced(fetched, front);
      var pool := AllDefinitions(fetched[n]);
      var eligible := EligibleWords(fetched[n], pool);
      forall q | q in Common.Flatten(perLevel)
        ensures exists i, w :: 0 <= i < |fetched| && w in fetched[i] && q.levelId == LevelData()[i].id
                               && QuestionFor(LevelData()[i].id, w, AllDefinitions(fetched[i]), q)
      {
        if q !in Common.Flatten(front) {
          assert q in perLevel[n];
          var k :| 0 <= k < |perLevel[n]| && perLevel[n][k] == q;
          EligibleUpToMembers(fetched[n], |fetched[n]|, pool);
          assert eligible[k] in eligible;
        }
      }
    }
  }

  /** The number of questions of the seeded levels is the number of their eligible entries. */
  lemma {:induction false} SeededQuestionsCounted(fetched: seq<seq<JishoWord>>, perLevel: seq<seq<NewQuestion>>)
    requires |fetched| == |LevelData()| && LevelsSeeded(fetched, perLevel)
    ensures |Common.Flatten(perLevel)| == SeededCount(fetched, |perLevel|)
  {
    if perLevel != [] {
      var n := |perLevel| - 1;
      assert LevelsSeeded(fetched, perLevel[..n]);
      SeededQuestionsCounted(fetched, perLevel[..n]);
    }
  }

  /** One completed level keeps the loop's invariants. */
  lemma {:induction false} SeedStep(fetched: seq<seq<JishoWord>>, perLevel: seq<seq<NewQuestion>>, qs: seq<NewQuestion>)
    requires |fetched| == |LevelData()| && |perLevel| < |fetched|
    requires PrefixWritten(fetched, |perLevel|) && LevelsSeeded(fetched, perLevel)
    requires var i := |perLevel|;
             && AllWritten(fetched[i])
             && QuestionsFor(LevelData()[i].id, EligibleWords(fetched[i], AllDefinitions(fetched[i])), AllDefinitions(fetched[i]), qs)
    ensures PrefixWritten(fetched, |perLevel| + 1) && LevelsSeeded(fetched, perLevel + [qs])
    ensures Common.Flatten(perLevel + [qs]) == Common.Flatten(perLevel) + qs
  {
    AppendLevel(perLevel, qs);
    LevelsSeededSnoc(fetched, perLevel, qs);
  }

  /**
   * What a run that stopped after the levels of `perLevel` has produced: it completed exactly
   * when every entry has a written form, its questions are those of the seeded levels, and an
   * aborted run stopped at a level holding an entry without one.
   */
  lemma {:induction false} SeedOutcome(fetched: seq<seq<JishoWord>>, perLevel: seq<seq<NewQuestion>>, completed: bool)
    requires |fetched| == |LevelData()| && LevelsSeeded(fetched, perLevel)
    requires PrefixWritten(fetched, |perLevel|)
    requires completed <==> |perLevel| == |fetched|
    requires !completed ==> !AllWritten(fetched[|perLevel|])
    ensures completed <==> forall i, w :: 0 <= i < |fetched| && w in fetched[i] ==> |w.japanese| > 0
    ensures completed ==> |Common.Flatten(perLevel)| == SeededCount(fetched, |fetched|)
    ensures forall q :: q in Common.Flatten(perLevel) ==>
              exists i, w :: 0 <= i < |fetched| && w in fetched[i] && q.levelId == LevelData()[i].id
                             && QuestionFor(LevelData()[i].id, w, AllDefinitions(fetched[i]), q)
    ensures !completed ==> exists w :: w in fetched[|perLevel|] && |w.japanese| == 0
  {
    SeededQuestionsTraced(fetched, perLevel);
    SeededQuestionsCounted(fetched, perLevel);
    if !completed {
      var w :| w in fetched[|perLevel|] && |w.japanese| == 0;
      assert !forall i, w :: 0 <= i < |fetched| && w in fetched[i] ==> |w.japanese| > 0 by {
        assert w in fetched[|perLevel|];
      }
    }
  }

  /**
   * One level of the script: no entries (a failed fetch) gives no questions; otherwise the
   * questions that `BuildQuestions` builds, or None when it aborts the run.
   */
  method SeedLevel(levelId: LevelId, jishoWords: seq<JishoWord>) returns (r: Option<seq<NewQuestion>>)
    ensures r.None? <==> !AllWritten(jishoWords)
    ensures r.Some? ==>
              QuestionsFor(levelId, EligibleWords(jishoWords, AllDefinitions(jishoWords)), AllDefinitions(jishoWords), r.value)
  {
    if |jishoWords| == 0 {
      assert EligibleWords(jishoWords, AllDefinitions(jishoWords)) == [];
      return Some([]);
    }
    r := BuildQuestions(levelId, jishoWords);
  }

  /**
   * The question part of `main`: the old questions are deleted, then for each seed level the
   * entries fetched for it (`fetched[i]`, empty when the fetch failed) are turned into
   * questions of that level. Returns the new content of the question table and whether the
   * run completed; an aborted run keeps what earlier levels inserted. `perLevel` splits the
   * questions by the level they were built for.
   */
  method SeedQuestions(fetched: seq<seq<JishoWord>>) returns (questions: seq<NewQuestion>, completed: bool, ghost perLevel: seq<seq<NewQuestion>>)
    requires |fetched| == |LevelData()|
    ensures completed <==> forall i, w :: 0 <= i < |fetched| && w in fetched[i] ==> |w.japanese| > 0
    ensures completed ==> |questions| == SeededCount(fetched, |fetched|)
    ensures forall q :: q in questions ==>
              exists i, w :: 0 <= i < |fetched| && w in fetched[i] && q.levelId == LevelData()[i].id
                             && QuestionFor(LevelData()[i].id, w, AllDefinitions(fetched[i]), q)
    ensures questions == Common.Flatten(perLevel)
    ensures LevelsSeeded(fetched, perLevel) && (completed <==> |perLevel| == |fetched|)
    ensures !completed ==> exists w :: w in fetched[|perLevel|] && |w.japanese| == 0
  {
    var levelData := LevelData();
    questions := [];
    perLevel := [];
    for i := 0 to |levelData|
      invariant PrefixWritten(fetched, i)
      invariant |perLevel| == i && questions == Common.Flatten(perLevel)
      invariant LevelsSeeded(fetched, perLevel)
    {
      var dbQuestions := SeedLevel(levelData[i].id, fetched[i]);
      if dbQuestions.None? {
        SeedOutcome(fetched, perLevel, false);
        return questions, false, perLevel;
      }
      SeedStep(fetched, perLevel, dbQuestions.value);
      questions := questions + dbQuestions.value;
      perLevel := perLevel + [dbQuestions.value];
    }
    SeedOutcome(fetched, perLevel, true);
    completed := true;
  }
}
