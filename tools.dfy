/** tools.py: the reveal primitive, the candidate filter, the
    containment-frequency ranking and the integer part of the information
    heuristic. The word list is a parameter instead of a file. */
module Tools {
  import opened Seqs
  import opened Tally
  import opened Ranking

  /** The marker of a cell that is not revealed yet. */
  const Unknown: char := '_'

  /** The letters the solver ranks, in the order it ranks ties. */
  const Alphabet: string := "abcdefghijklmnopqrstuvwxyz\U{e4}\U{f6}\U{fc}"

  // ---------------------------------------------------------------------
  // Text helpers

  /** `str.lower()` on one character, for ASCII and Latin-1 capitals. */
  function LowerChar(c: char): char {
    if 'A' <= c <= 'Z' || ('\U{c0}' <= c <= '\U{de}' && c != '\U{d7}') then (c as int + 32) as char else c
  }

  function LowerWord(w: string): (r: string)
    ensures |r| == |w|
  {
    seq(|w|, i requires 0 <= i < |w| => LowerChar(w[i]))
  }

  /** Every corpus entry lowercased, in corpus order. */
  function LowerAll(corpus: seq<string>): (r: seq<string>)
    ensures |r| == |corpus|
  {
    seq(|corpus|, i requires 0 <= i < |corpus| => LowerWord(corpus[i]))
  }

  /** Python's `s in word` for two strings: `s` is a substring of `word`. */
  predicate Contains(word: string, s: string)
    decreases |word|
  {
    s <= word || (word != [] && Contains(word[1..], s))
  }

  /** For a one-letter string, substring search is letter membership. */
  lemma {:induction false} ContainsLetter(word: string, c: char)
    ensures Contains(word, [c]) <==> c in word
  {
    if word != [] {
      ContainsLetter(word[1..], c);
      assert word == [word[0]] + word[1..];
    }
  }

  /** The empty string is a substring of every word. */
  lemma ContainsEmpty(word: string)
    ensures Contains(word, "")
  {
  }

  /** An all-unknown pattern: `'_' * n`. */
  function Blank(n: nat): (p: string)
    ensures |p| == n && forall i :: 0 <= i < n ==> p[i] == Unknown
  {
    seq(n, i => Unknown)
  }

  /** The letters revealed in a pattern: `set(c for c in p if c != '_')`. */
  function Letters(p: string): set<char> {
    set c | c in p && c != Unknown
  }

  // ---------------------------------------------------------------------
  // get_new_progress_word

  /** Python's `c == s` between a character and a string: true only when
      `s` is that one character. */
  predicate SameAs(c: char, s: string) {
    |s| == 1 && s[0] == c
  }

  /** The pattern after revealing `letter`, where `word` is the solution:
      a cell changes only where the solution holds the guess, and then it
      shows the solution's character. */
  function Reveal(progress: string, letter: string, word: string): (r: string)
    requires |progress| >= |word|
    ensures |r| == |word|
    ensures forall i :: 0 <= i < |word| && r[i] != progress[i] ==> SameAs(word[i], letter) && r[i] == word[i]
  {
    seq(|word|, i requires 0 <= i < |word| => if SameAs(word[i], letter) then word[i] else progress[i])
  }

  /** The loop of tools.py:33-45, including its dead rewrite of the
      parameter `d_progress_word`, which never feeds the result. */
  method GetNewProgressWord(progress: string, letter: string, word: string) returns (r: string)
    requires |progress| >= |word|
    ensures |r| == |word|
    ensures forall i :: 0 <= i < |word| ==> r[i] == if SameAs(word[i], letter) then word[i] else progress[i]
    ensures r == Reveal(progress, letter, word)
  {
    var d := progress;
    r := "";
    for idx := 0 to |word|
      invariant |r| == idx
      invariant forall i :: 0 <= i < idx ==> r[i] == if SameAs(word[i], letter) then word[i] else progress[i]
      invariant |d| >= |word| && d[idx..] == progress[idx..]
    {
      if SameAs(word[idx], letter) {
        r := r + letter;
        ghost var tail := d[idx + 1..];
        d := d[..idx] + letter + d[idx + 1..];
        assert d[idx + 1..] == tail;
      } else if d[idx] == Unknown {
        assert d[idx] == progress[idx];
        r := r + [Unknown];
      } else {
        assert d[idx] == progress[idx];
        r := r + [d[idx]];
      }
    }
  }

  /** Revealing the same letter twice gives the pattern of revealing it once. */
  lemma RevealIdempotent(progress: string, letter: string, word: string)
    requires |progress| >= |word|
    ensures Reveal(Reveal(progress, letter, word), letter, word) == Reveal(progress, letter, word)
  {
  }

  /** Revealing a one-character guess compares characters: a cell shows the
      solution's character exactly where it equals the guess. */
  lemma RevealChar(progress: string, c: char, word: string)
    requires |progress| >= |word|
    ensures |Reveal(progress, [c], word)| == |word|
    ensures forall i :: 0 <= i < |word| ==> Reveal(progress, [c], word)[i] == if word[i] == c then c else progress[i]
  {
  }

  /** A revealed cell never turns back into `_` when a real letter is guessed. */
  lemma RevealKeepsRevealed(progress: string, letter: string, word: string, i: nat)
    requires |progress| >= |word| && i < |word|
    requires progress[i] != Unknown && letter != [Unknown]
    ensures Reveal(progress, letter, word)[i] != Unknown
  {
  }

  /** Revealing a letter the word does not have changes nothing. */
  lemma RevealAbsent(progress: string, c: char, word: string)
    requires |progress| == |word| && c !in word
    ensures Reveal(progress, [c], word) == progress
  {
  }

  /** The pattern is unchanged exactly when every cell holding the guessed
      letter already shows it. */
  lemma RevealUnchanged(progress: string, letter: string, word: string)
    requires |progress| == |word|
    ensures Reveal(progress, letter, word) == progress <==>
              forall i :: 0 <= i < |word| && SameAs(word[i], letter) ==> progress[i] == word[i]
  {
    if forall i :: 0 <= i < |word| && SameAs(word[i], letter) ==> progress[i] == word[i] {
      assert forall i :: 0 <= i < |word| ==> Reveal(progress, letter, word)[i] == progress[i];
    }
  }

  // ---------------------------------------------------------------------
  // get_possible_words

  /** tools.py:201-202: a wrong-guess list equal to `['']` counts as empty;
      every other list is kept as it is. */
  function NormalizeWrong(wrong: seq<string>): (r: seq<string>)
    ensures forall g :: g in r ==> g in wrong
    ensures r == [] <==> wrong == [] || wrong == [""]
    ensures r != wrong ==> wrong == [""]
  {
    if wrong == [""] then [] else wrong
  }

  /** No wrong guess occurs in `w` (tools.py:213, Python substring test). */
  predicate NoWrong(w: string, wrong: seq<string>) {
    forall g :: g in wrong ==> !Contains(w, g)
  }

  /** The test of tools.py:215-220 for cell `i`. */
  predicate CellFits(w: string, p: string, i: nat)
    requires i < |w| && i < |p|
  {
    if p[i] == Unknown then w[i] !in Letters(p) else w[i] == p[i]
  }

  /** A lowercased word is consistent with the pattern and the wrong guesses:
      such a word has the pattern's length and agrees with every shown cell,
      so a pattern with no hidden cell fits only itself. */
  predicate Fits(w: string, p: string, wrong: seq<string>)
    ensures Fits(w, p, wrong) ==> |w| == |p| && forall i :: 0 <= i < |p| ==> CellFits(w, p, i) && (p[i] != Unknown ==> w[i] == p[i])
    ensures Fits(w, p, wrong) && Unknown !in p ==> w == p
  {
    |w| == |p| && NoWrong(w, wrong) && forall i :: 0 <= i < |w| ==> CellFits(w, p, i)
  }

  /** The candidate words: the lowercased corpus words that fit, in corpus order. */
  function Candidates(corpus: seq<string>, p: string, wrong: seq<string>): (r: seq<string>)
    ensures forall w :: w in r ==> Fits(w, p, NormalizeWrong(wrong))
  {
    if corpus == [] then []
    else
      var w := LowerWord(corpus[|corpus| - 1]);
      Candidates(corpus[..|corpus| - 1], p, wrong) + (if Fits(w, p, NormalizeWrong(wrong)) then [w] else [])
  }

  /** The loop of tools.py:207-224 with its `break`s and its for-else. */
  method GetPossibleWords(progress: string, wrongGuessed: seq<string>, corpus: seq<string>)
    returns (possible: seq<string>)
    ensures possible == Candidates(corpus, progress, wrongGuessed)
    ensures forall w :: w in possible <==> w in LowerAll(corpus) && Fits(w, progress, NormalizeWrong(wrongGuessed))
  {
    var wrong := wrongGuessed;
    if wrong == [""] {
      wrong := [];
    }
    var letters := set c | c in progress && c != Unknown;
    assert letters == Letters(progress);
    assert wrong == NormalizeWrong(wrongGuessed);
    possible := [];
    var k := 0;
    while k < |corpus|
      invariant 0 <= k <= |corpus|
      invariant possible == Candidates(corpus[..k], progress, wrongGuessed)
    {
      var word := LowerWord(corpus[k]);
      var fits := false;
      if |word| == |progress| {
        if !(exists g :: g in wrong && Contains(word, g)) {
          fits := CellsFit(word, progress, letters);
        }
      }
      if fits {
        possible := possible + [word];
      }
      assert fits == Fits(word, progress, NormalizeWrong(wrongGuessed));
      assert corpus[..k + 1][..k] == corpus[..k];
      k := k + 1;
    }
    assert corpus[..|corpus|] == corpus;
    CandidatesMembers(corpus, progress, wrongGuessed);
  }

  /** The cell loop of tools.py:214-222: its `break`s fire on the first cell
      that does not fit, and the for-else keeps the word otherwise. */
  method CellsFit(word: string, progress: string, letters: set<char>) returns (fits: bool)
    requires |word| == |progress| && letters == Letters(progress)
    ensures fits <==> forall i :: 0 <= i < |word| ==> CellFits(word, progress, i)
  {
    var idx := 0;
    while idx < |word|
      invariant 0 <= idx <= |word|
      invariant forall i :: 0 <= i < idx ==> CellFits(word, progress, i)
    {
      if progress[idx] == Unknown {
        if word[idx] in letters {
          assert !CellFits(word, progress, idx);
          return false;
        }
      } else {
        if word[idx] != progress[idx] {
          assert !CellFits(word, progress, idx);
          return false;
        }
      }
      idx := idx + 1;
    }
    return true;
  }

  /** Soundness and completeness of the filter: a word is a candidate exactly
      when it is a lowercased corpus word that fits. */
  lemma {:induction false} CandidatesMembers(corpus: seq<string>, p: string, wrong: seq<string>)
    ensures forall w :: w in Candidates(corpus, p, wrong) <==> w in LowerAll(corpus) && Fits(w, p, NormalizeWrong(wrong))
  {
    if corpus != [] {
      var init := corpus[..|corpus| - 1];
      CandidatesMembers(init, p, wrong);
      assert LowerAll(corpus) == LowerAll(init) + [LowerWord(corpus[|corpus| - 1])];
    }
  }

  /** The candidates keep corpus order. */
  lemma {:induction false} CandidatesInOrder(corpus: seq<string>, p: string, wrong: seq<string>)
    ensures IsSubseq(Candidates(corpus, p, wrong), LowerAll(corpus))
  {
    if corpus != [] {
      var init := corpus[..|corpus| - 1];
      CandidatesInOrder(init, p, wrong);
      var all := LowerAll(corpus);
      assert all[..|all| - 1] == LowerAll(init);
      var c := Candidates(init, p, wrong);
      var w := LowerWord(corpus[|corpus| - 1]);
      if Fits(w, p, NormalizeWrong(wrong)) {
        assert (c + [w])[..|c + [w]| - 1] == c;
      } else {
        assert c + [] == c;
        SubseqDropLast(c, all);
      }
    }
  }

  /** The candidates keep each fitting word as often as the lowercased list
      holds it, and no other word. */
  lemma {:induction false} CandidatesKeepRepeats(corpus: seq<string>, p: string, wrong: seq<string>, w: string)
    ensures Count(Candidates(corpus, p, wrong), w) ==
              if Fits(w, p, NormalizeWrong(wrong)) then Count(LowerAll(corpus), w) else 0
  {
    if corpus != [] {
      var init := corpus[..|corpus| - 1];
      CandidatesKeepRepeats(init, p, wrong, w);
      var all := LowerAll(corpus);
      assert all[..|all| - 1] == LowerAll(init);
      var last := LowerWord(corpus[|corpus| - 1]);
      CountAppend(Candidates(init, p, wrong), if Fits(last, p, NormalizeWrong(wrong)) then [last] else [], w);
      assert Count([last], w) == if last == w then 1 else 0 by {
        assert [last][..0] == [];
      }
    }
  }

  lemma {:induction false} SubseqDropLast<T>(a: seq<T>, b: seq<T>)
    requires b != [] && IsSubseq(a, b[..|b| - 1])
    ensures IsSubseq(a, b)
    decreases |b|, |a|
  {
    if a != [] && a[|a| - 1] == b[|b| - 1] {
      var b' := b[..|b| - 1];
      SubseqShorten(a, b');
    }
  }

  /** Deleting the last element of `a` keeps it a subsequence. */
  lemma {:induction false} SubseqShorten<T>(a: seq<T>, b: seq<T>)
    requires a != [] && IsSubseq(a, b)
    ensures IsSubseq(a[..|a| - 1], b)
    decreases |b|, |a|
  {
    var a' := a[..|a| - 1];
    if b != [] {
      if a[|a| - 1] == b[|b| - 1] {
        SubseqDropLast(a', b);
      } else {
        SubseqShorten(a, b[..|b| - 1]);
        SubseqDropLast(a', b);
      }
    }
  }

  /** Any empty wrong guess other than the lone `['']` rejects every word. */
  lemma EmptyWrongGuessRejectsAll(corpus: seq<string>, p: string, wrong: seq<string>)
    requires "" in wrong && wrong != [""]
    ensures Candidates(corpus, p, wrong) == []
  {
    CandidatesMembers(corpus, p, wrong);
    forall w ensures w !in Candidates(corpus, p, wrong) {
      ContainsEmpty(w);
    }
  }

  /** With one-letter wrong guesses the filter's substring test is plain
      letter membership. */
  lemma SingleLetterGuesses(w: string, wrong: seq<string>)
    requires forall g :: g in wrong ==> |g| == 1
    ensures NoWrong(w, wrong) <==> forall g :: g in wrong ==> g[0] !in w
  {
    forall g | g in wrong ensures Contains(w, g) <==> g[0] in w {
      assert g == [g[0]];
      ContainsLetter(w, g[0]);
    }
  }

  // ---------------------------------------------------------------------
  // get_most_common_letters and get_word_analysis_meth1

  /** How many of `words` contain `l` at least once. */
  function ContainCount(words: seq<string>, l: char): (n: nat)
    ensures n <= |words|
  {
    if words == [] then 0
    else ContainCount(words[..|words| - 1], l) + (if l in words[|words| - 1] then 1 else 0)
  }

  /** The letters of `letters` that are not in the list `nonIncluded`
      (tools.py:167-169), in order. */
  function Allowed(letters: string, nonIncluded: seq<string>): (r: string)
    ensures forall l :: l in r <==> l in letters && [l] !in nonIncluded
    ensures IsSubseq(r, letters)
    ensures Unique(letters) ==> Unique(r)
  {
    if letters == [] then []
    else
      var init := letters[..|letters| - 1];
      var l := letters[|letters| - 1];
      var t := Allowed(init, nonIncluded);
      assert letters == init + [l];
      AllowedStep(letters, t, nonIncluded);
      if [l] in nonIncluded then t else t + [l]
  }

  lemma AllowedStep(letters: string, t: string, nonIncluded: seq<string>)
    requires letters != []
    requires forall l :: l in t <==> l in letters[..|letters| - 1] && [l] !in nonIncluded
    requires IsSubseq(t, letters[..|letters| - 1])
    requires Unique(letters[..|letters| - 1]) ==> Unique(t)
    ensures var l := letters[|letters| - 1];
            var r := if [l] in nonIncluded then t else t + [l];
            IsSubseq(r, letters) && (Unique(letters) ==> Unique(r))
  {
    var l := letters[|letters| - 1];
    if [l] in nonIncluded {
      SubseqDropLast(t, letters);
    } else {
      assert (t + [l])[..|t|] == t;
    }
    if Unique(letters) {
      var init := letters[..|letters| - 1];
      assert Unique(init) by {
        forall i, j | 0 <= i < j < |init| ensures init[i] != init[j] {
          assert init[i] == letters[i] && init[j] == letters[j];
        }
      }
      assert l !in init by {
        forall j | 0 <= j < |init| ensures init[j] != l {
          assert init[j] == letters[j];
        }
      }
    }
  }

  /** The [letter, count] list that tools.py:165-177 builds before sorting. */
  function Appearances(letters: string, words: seq<string>, nonIncluded: seq<string>): (r: seq<Entry<char>>)
    ensures Keys(r) == Allowed(letters, nonIncluded)
    ensures forall i :: 0 <= i < |r| ==> r[i].count == ContainCount(words, r[i].key)
  {
    if letters == [] then []
    else
      var init := letters[..|letters| - 1];
      var l := letters[|letters| - 1];
      var t := Appearances(init, words, nonIncluded);
      assert forall i :: 0 <= i < |t| ==> t[i].key == Keys(t)[i];
      if [l] in nonIncluded then t else t + [Entry(l, ContainCount(words, l))]
  }

  /** tools.py:150-181: count, for every letter not excluded, the words that
      contain it, and sort stably by that count, largest first. */
  method GetMostCommonLetters(words: seq<string>, nonIncluded: seq<string>) returns (ranking: seq<Entry<char>>)
    ensures ranking == SortByCountDesc(Appearances(Alphabet, words, nonIncluded))
    ensures forall e :: e in ranking ==>
              e.key in Alphabet && [e.key] !in nonIncluded && e.count == ContainCount(words, e.key) <= |words|
    ensures forall l :: l in Alphabet && [l] !in nonIncluded ==> l in Keys(ranking)
    ensures Unique(Keys(ranking))
    ensures NonIncreasing(ranking)
    ensures forall n :: WithCount(ranking, n) == WithCount(Appearances(Alphabet, words, nonIncluded), n)
  {
    var appearances: seq<Entry<char>> := [];
    for a := 0 to |Alphabet|
      invariant appearances == Appearances(Alphabet[..a], words, nonIncluded)
    {
      var letter := Alphabet[a];
      AppearancesSnoc(Alphabet, a, words, nonIncluded);
      if [letter] !in nonIncluded {
        var letterAppearance := CountContaining(words, letter);
        appearances := appearances + [Entry(letter, letterAppearance)];
      }
    }
    assert Alphabet[..|Alphabet|] == Alphabet;
    ranking := SortByCountDesc(appearances);
    AlphabetUnique();
    RankingFacts(Alphabet, words, nonIncluded);
  }

  /** One more letter of the alphabet adds at most its own entry. */
  lemma AppearancesSnoc(letters: string, a: nat, words: seq<string>, nonIncluded: seq<string>)
    requires a < |letters|
    ensures Appearances(letters[..a + 1], words, nonIncluded) ==
              Appearances(letters[..a], words, nonIncluded) +
              (if [letters[a]] in nonIncluded then [] else [Entry(letters[a], ContainCount(words, letters[a]))])
  {
    assert letters[..a + 1][..a] == letters[..a];
  }

  /** The inner loop of tools.py:171-175. */
  method CountContaining(words: seq<string>, letter: char) returns (letterAppearance: nat)
    ensures letterAppearance == ContainCount(words, letter)
  {
    letterAppearance := 0;
    for j := 0 to |words|
      invariant letterAppearance == ContainCount(words[..j], letter)
    {
      assert words[..j + 1][..j] == words[..j];
      if letter in words[j] {
        letterAppearance := letterAppearance + 1;
      }
    }
    assert words[..|words|] == words;
  }

  /** What the sorted ranking over a list of distinct letters holds. */
  lemma RankingFacts(letters: string, words: seq<string>, nonIncluded: seq<string>)
    requires Unique(letters)
    ensures var ranking := SortByCountDesc(Appearances(letters, words, nonIncluded));
            && (forall e :: e in ranking ==>
                  e.key in letters && [e.key] !in nonIncluded && e.count == ContainCount(words, e.key) <= |words|)
            && (forall l :: l in letters && [l] !in nonIncluded ==> l in Keys(ranking))
            && Unique(Keys(ranking))
  {
    var appearances := Appearances(letters, words, nonIncluded);
    var ranking := SortByCountDesc(appearances);
    forall e | e in ranking
      ensures e.key in letters && [e.key] !in nonIncluded && e.count == ContainCount(words, e.key)
    {
      RankedEntry(letters, words, nonIncluded, e);
    }
    KeysOfPermutation(ranking, appearances);
  }

  /** An entry of the ranking is an allowed letter with its count. */
  lemma RankedEntry(letters: string, words: seq<string>, nonIncluded: seq<string>, e: Entry<char>)
    requires e in SortByCountDesc(Appearances(letters, words, nonIncluded))
    ensures e.key in letters && [e.key] !in nonIncluded && e.count == ContainCount(words, e.key)
  {
    var appearances := Appearances(letters, words, nonIncluded);
    assert e in multiset(appearances);
    var i :| 0 <= i < |appearances| && appearances[i] == e;
    assert Keys(appearances)[i] == e.key;
  }

  lemma AlphabetUnique()
    ensures Unique(Alphabet)
  {
    assert forall i :: 0 <= i < |Alphabet| - 1 ==> Alphabet[i] < Alphabet[i + 1];
    IncreasingIsUnique(Alphabet);
  }

  lemma {:induction false} IncreasingIsUnique(s: string)
    requires forall i :: 0 <= i < |s| - 1 ==> s[i] < s[i + 1]
    ensures forall i, j :: 0 <= i < j < |s| ==> s[i] < s[j]
  {
    if |s| > 1 {
      var t := s[1..];
      IncreasingIsUnique(t);
      forall i, j | 0 <= i < j < |s| ensures s[i] < s[j] {
        if i > 0 {
          assert s[i] == t[i - 1] && s[j] == t[j - 1];
        } else if j > 1 {
          assert s[1] == t[0] && s[j] == t[j - 1];
        }
      }
    }
  }

  /** The revealed letters of a pattern as one-letter strings, in pattern
      order; the source builds the same list in set order, and only list
      membership is ever asked of it. */
  function RevealedStrings(p: string): (r: seq<string>)
    ensures forall l :: [l] in r <==> l in Letters(p)
  {
    if p == [] then []
    else
      var t := RevealedStrings(p[..|p| - 1]);
      var c := p[|p| - 1];
      assert p == p[..|p| - 1] + [c];
      if c == Unknown then t else t + [[c]]
  }

  /** tools.py:243-247: the letters the ranking leaves out. */
  function NonIncluded(p: string, wrong: seq<string>): (r: seq<string>)
    ensures forall l :: [l] in r <==> l in Letters(p) || [l] in wrong
  {
    RevealedStrings(p) + wrong
  }

  /** tools.py:227-248: the candidates and their letter ranking. */
  method GetWordAnalysisMeth1(progress: string, wrongGuessed: seq<string>, corpus: seq<string>)
    returns (possible: seq<string>, ranking: seq<Entry<char>>)
    ensures possible == Candidates(corpus, progress, wrongGuessed)
    ensures ranking == SortByCountDesc(Appearances(Alphabet, possible, NonIncluded(progress, NormalizeWrong(wrongGuessed))))
    ensures forall e :: e in ranking ==>
              e.key !in Letters(progress) && [e.key] !in NormalizeWrong(wrongGuessed) &&
              e.count == ContainCount(possible, e.key) <= |possible|
    ensures forall l :: l in Alphabet && l !in Letters(progress) && [l] !in NormalizeWrong(wrongGuessed) ==>
              l in Keys(ranking)
    ensures NonIncreasing(ranking)
    ensures ranking != [] ==> forall e :: e in ranking ==> e.count <= ranking[0].count
  {
    var wrong := wrongGuessed;
    if wrong == [""] {
      wrong := [];
    }
    var progressWordLetters := RevealedStrings(progress);
    possible := GetPossibleWords(progress, wrong, corpus);
    assert Candidates(corpus, progress, wrong) == Candidates(corpus, progress, wrongGuessed) by {
      CandidatesSameWrong(corpus, progress, wrong, wrongGuessed);
    }
    ranking := GetMostCommonLetters(possible, progressWordLetters + wrong);
    forall e | e in ranking ensures e.count <= ranking[0].count {
      var i :| 0 <= i < |ranking| && ranking[i] == e;
      assert i == 0 || ranking[0].count >= ranking[i].count;
    }
  }

  /** Normalising twice is normalising once, so the candidates agree. */
  lemma {:induction false} CandidatesSameWrong(corpus: seq<string>, p: string, a: seq<string>, b: seq<string>)
    requires NormalizeWrong(a) == NormalizeWrong(b)
    ensures Candidates(corpus, p, a) == Candidates(corpus, p, b)
  {
    if corpus != [] {
      CandidatesSameWrong(corpus[..|corpus| - 1], p, a, b);
    }
  }

  // ---------------------------------------------------------------------
  // worker: revealing a letter of a hypothesis word and re-filtering

  /** Revealing a letter of a candidate keeps that candidate consistent. */
  lemma HypothesisSurvives(w: string, p: string, wrong: seq<string>, letter: string)
    requires Fits(w, p, wrong)
    ensures Fits(w, Reveal(p, letter, w), wrong)
  {
    var q := Reveal(p, letter, w);
    forall i | 0 <= i < |w| ensures CellFits(w, q, i) {
      assert CellFits(w, p, i);
      if !SameAs(w[i], letter) && p[i] == Unknown {
        forall j | 0 <= j < |q| && q[j] != Unknown ensures q[j] != w[i] {
          if !SameAs(w[j], letter) {
            assert q[j] == p[j] && p[j] in Letters(p);
          }
        }
        assert w[i] !in Letters(q);
      }
    }
  }

  /** Revealing a letter of a candidate only ever removes candidates. */
  lemma HypothesisNarrows(w: string, v: string, p: string, wrong: seq<string>, letter: string)
    requires Fits(w, p, wrong) && Fits(v, Reveal(p, letter, w), wrong)
    ensures Fits(v, p, wrong)
  {
    var q := Reveal(p, letter, w);
    assert Letters(p) <= Letters(q) by {
      forall c | c in Letters(p) ensures c in Letters(q) {
        var j :| 0 <= j < |p| && p[j] == c && c != Unknown;
        assert CellFits(w, p, j);
        assert q[j] == c;
      }
    }
    forall i | 0 <= i < |v| ensures CellFits(v, p, i) {
      assert CellFits(w, p, i) && CellFits(v, q, i);
    }
  }

  lemma {:induction false} CandidatesShrink(corpus: seq<string>, p: string, wrong: seq<string>, w: string, letter: string)
    requires Fits(w, p, NormalizeWrong(wrong))
    ensures |Candidates(corpus, Reveal(p, letter, w), wrong)| <= |Candidates(corpus, p, wrong)|
  {
    if corpus != [] {
      CandidatesShrink(corpus[..|corpus| - 1], p, wrong, w, letter);
      var v := LowerWord(corpus[|corpus| - 1]);
      if Fits(v, Reveal(p, letter, w), NormalizeWrong(wrong)) {
        HypothesisNarrows(w, v, p, NormalizeWrong(wrong), letter);
      }
    }
  }

  /** tools.py:263-269: for a candidate `w` and any letter, the re-filtered
      count lies between 1 and the number of candidates, so the division and
      the logarithm at line 269 are defined. */
  lemma HypothesisBounds(corpus: seq<string>, p: string, wrong: seq<string>, w: string, letter: string)
    requires w in Candidates(corpus, p, wrong)
    ensures 1 <= |Candidates(corpus, Reveal(p, letter, w), wrong)| <= |Candidates(corpus, p, wrong)|
  {
    CandidatesMembers(corpus, p, wrong);
    HypothesisSurvives(w, p, NormalizeWrong(wrong), letter);
    CandidatesMembers(corpus, Reveal(p, letter, w), wrong);
    assert w in Candidates(corpus, Reveal(p, letter, w), wrong);
    CandidatesShrink(corpus, p, wrong, w, letter);
  }

  /** One (letter, result) pair of `worker`: either the number of words left
      after revealing a letter the hypothesis holds, or the zero-bit case of a
      letter it lacks. */
  datatype Information = Narrowed(letter: char, remaining: nat) | Absent(letter: char)

  /** tools.py:251-275 without the logarithm: the re-filtered count for every
      unguessed letter the hypothesis word contains. */
  method Worker(word: string, progress: string, wrongGuessed: seq<string>, possible: seq<string>, corpus: seq<string>)
    returns (information: seq<Information>)
    requires |progress| >= |word|
    ensures |information| == |Allowed(Alphabet, NonIncluded(progress, wrongGuessed))|
    ensures forall i :: 0 <= i < |information| ==>
              information[i].letter == Allowed(Alphabet, NonIncluded(progress, wrongGuessed))[i]
    ensures forall e :: e in information ==> (e.Narrowed? <==> e.letter in word)
    ensures forall e :: e in information && e.Narrowed? ==>
              e.remaining == |Candidates(corpus, Reveal(progress, [e.letter], word), wrongGuessed)|
    ensures possible == Candidates(corpus, progress, wrongGuessed) && word in possible ==>
              forall e :: e in information && e.Narrowed? ==> 1 <= e.remaining <= |possible|
  {
    var excluded := RevealedStrings(progress) + wrongGuessed;
    information := [];
    for a := 0 to |Alphabet|
      invariant information == InformationFor(Alphabet[..a], word, progress, wrongGuessed, corpus)
    {
      var letter := Alphabet[a];
      InformationSnoc(Alphabet, a, word, progress, wrongGuessed, corpus);
      if [letter] !in excluded {
        var item := LetterInformation(letter, word, progress, wrongGuessed, corpus);
        information := information + [item];
      }
    }
    assert Alphabet[..|Alphabet|] == Alphabet;
    InformationForFacts(Alphabet, word, progress, wrongGuessed, corpus);
    if possible == Candidates(corpus, progress, wrongGuessed) && word in possible {
      InformationBounds(Alphabet, word, progress, wrongGuessed, corpus);
    }
  }

  /** One more letter of the alphabet adds at most its own result. */
  lemma InformationSnoc(letters: string, a: nat, word: string, progress: string, wrong: seq<string>, corpus: seq<string>)
    requires a < |letters| && |progress| >= |word|
    ensures var l := letters[a];
            InformationFor(letters[..a + 1], word, progress, wrong, corpus) ==
              InformationFor(letters[..a], word, progress, wrong, corpus) +
              (if [l] in NonIncluded(progress, wrong) then []
               else [if l in word then Narrowed(l, |Candidates(corpus, Reveal(progress, [l], word), wrong)|) else Absent(l)])
  {
    assert letters[..a + 1][..a] == letters[..a];
  }

  /** The body of the loop of tools.py:265-271 for one unguessed letter. */
  method LetterInformation(letter: char, word: string, progress: string, wrongGuessed: seq<string>, corpus: seq<string>)
    returns (item: Information)
    requires |progress| >= |word|
    ensures item == if letter in word then Narrowed(letter, |Candidates(corpus, Reveal(progress, [letter], word), wrongGuessed)|)
                    else Absent(letter)
  {
    if letter in word {
      var newProgressWord := GetNewProgressWord(progress, [letter], word);
      var analysis, _ := GetWordAnalysisMeth1(newProgressWord, wrongGuessed, corpus);
      item := Narrowed(letter, |analysis|);
    } else {
      item := Absent(letter);
    }
  }

  /** For a hypothesis among the candidates every re-filtered count lies
      between 1 and the number of candidates. */
  lemma InformationBounds(letters: string, word: string, progress: string, wrong: seq<string>, corpus: seq<string>)
    requires |progress| >= |word| && word in Candidates(corpus, progress, wrong)
    ensures forall e :: e in InformationFor(letters, word, progress, wrong, corpus) && e.Narrowed? ==>
              1 <= e.remaining <= |Candidates(corpus, progress, wrong)|
  {
    InformationForFacts(letters, word, progress, wrong, corpus);
    forall e | e in InformationFor(letters, word, progress, wrong, corpus) && e.Narrowed?
      ensures 1 <= e.remaining <= |Candidates(corpus, progress, wrong)|
    {
      HypothesisBounds(corpus, progress, wrong, word, [e.letter]);
    }
  }

  /** The list `worker` builds over `letters`. */
  function InformationFor(letters: string, word: string, progress: string, wrong: seq<string>, corpus: seq<string>)
    : seq<Information>
    requires |progress| >= |word|
  {
    if letters == [] then []
    else
      var l := letters[|letters| - 1];
      var t := InformationFor(letters[..|letters| - 1], word, progress, wrong, corpus);
      if [l] in NonIncluded(progress, wrong) then t
      else t + [if l in word then Narrowed(l, |Candidates(corpus, Reveal(progress, [l], word), wrong)|) else Absent(l)]
  }

  /** One result per allowed letter, in order: the re-filtered count for a
      letter of the hypothesis, zero information for any other. */
  lemma {:induction false} InformationForFacts(letters: string, word: string, progress: string, wrong: seq<string>, corpus: seq<string>)
    requires |progress| >= |word|
    ensures var r := InformationFor(letters, word, progress, wrong, corpus);
            var allowed := Allowed(letters, NonIncluded(progress, wrong));
            && |r| == |allowed|
            && (forall i :: 0 <= i < |r| ==> r[i].letter == allowed[i])
            && (forall e :: e in r ==> (e.Narrowed? <==> e.letter in word))
            && (forall e :: e in r && e.Narrowed? ==>
                  e.remaining == |Candidates(corpus, Reveal(progress, [e.letter], word), wrong)|)
  {
    if letters != [] {
      InformationForFacts(letters[..|letters| - 1], word, progress, wrong, corpus);
    }
  }

  /** With a single candidate every letter it holds leaves exactly that one
      word: zero bits of information, as `log2(1 / (1 / 1))` gives. */
  lemma SingleCandidateNoInformation(corpus: seq<string>, p: string, wrong: seq<string>, w: string, letter: string)
    requires Candidates(corpus, p, wrong) == [w]
    ensures w in Candidates(corpus, p, wrong) && |Candidates(corpus, Reveal(p, letter, w), wrong)| == 1
  {
    HypothesisBounds(corpus, p, wrong, w, letter);
  }
}
