/** bot.py: one step of the self-play solver (`analyze_and_update`) and the
    self-play loop of `test_bot`. The word list is a parameter. */
module Bot {
  import opened Wrappers
  import opened Seqs
  import opened Tally
  import Tools

  /** The two exceptions a step can raise: `KeyError` from `set.pop()` on an
      empty set (line 61) and `ValueError` from `max` over an empty dict
      (line 68). */
  datatype BotError = PopFromEmptySet | NoCandidates

  /** bot.py:56: the corpus words of the pattern's length, lowercased. */
  function LengthMatching(corpus: seq<string>, progress: string): (r: seq<string>)
    ensures forall w :: w in r ==> |w| == |progress|
  {
    if corpus == [] then []
    else
      var c := corpus[|corpus| - 1];
      var init := corpus[..|corpus| - 1];
      assert corpus == init + [c];
      LengthMatching(init, progress) + (if |c| == |progress| then [Tools.LowerWord(c)] else [])
  }

  /** A word is a candidate of bot.py:56 exactly when it is the lowercase
      form of a corpus word of the pattern's length. */
  lemma {:induction false} LengthMatchingMembers(corpus: seq<string>, progress: string, w: string)
    ensures w in LengthMatching(corpus, progress) <==>
              exists c :: c in corpus && |c| == |progress| && w == Tools.LowerWord(c)
  {
    if corpus != [] {
      var c := corpus[|corpus| - 1];
      var init := corpus[..|corpus| - 1];
      assert corpus == init + [c];
      LengthMatchingMembers(init, progress, w);
    }
  }

  /** The candidates of bot.py:56 are those of `get_possible_words` for an
      all-hidden pattern and no wrong guess, so they keep the corpus order
      and every repeat (`Tools.CandidatesInOrder`, `Tools.CandidatesKeepRepeats`). */
  lemma {:induction false} LengthMatchingIsBlankCandidates(corpus: seq<string>, progress: string)
    ensures LengthMatching(corpus, progress) == Tools.Candidates(corpus, Tools.Blank(|progress|), [])
  {
    if corpus != [] {
      var c := corpus[|corpus| - 1];
      var init := corpus[..|corpus| - 1];
      LengthMatchingIsBlankCandidates(init, progress);
      var blank := Tools.Blank(|progress|);
      var w := Tools.LowerWord(c);
      assert Tools.Letters(blank) == {};
      assert Tools.NoWrong(w, []);
      assert Tools.NormalizeWrong([]) == [];
      if |c| == |progress| {
        assert forall i :: 0 <= i < |w| ==> Tools.CellFits(w, blank, i);
        assert Tools.Fits(w, blank, []);
      }
    }
  }

  /** bot.py:56 keeps the lowercased words of the pattern's length in corpus
      order, each as often as it occurs. */
  lemma {:induction false} LengthMatchingOrderAndRepeats(corpus: seq<string>, progress: string, w: string)
    ensures IsSubseq(LengthMatching(corpus, progress), Tools.LowerAll(corpus))
    ensures Count(LengthMatching(corpus, progress), w) ==
              if |w| == |progress| then Count(Tools.LowerAll(corpus), w) else 0
  {
    var blank := Tools.Blank(|progress|);
    LengthMatchingIsBlankCandidates(corpus, progress);
    Tools.CandidatesInOrder(corpus, blank, []);
    Tools.CandidatesKeepRepeats(corpus, blank, [], w);
    assert Tools.NormalizeWrong([]) == [];
    assert Tools.Letters(blank) == {};
    assert Tools.NoWrong(w, []);
    if |w| == |progress| {
      assert forall i :: 0 <= i < |w| ==> Tools.CellFits(w, blank, i);
      assert Tools.Fits(w, blank, []);
    }
  }

  // ---------------------------------------------------------------------
  // The filter of bot.py:59-61

  /** The `all(...)` of line 61 as written, for one word: every revealed cell
      is compared with `guessed_letters.pop()`. The set's iteration order is
      hash order, so the model takes it as the sequence `pool`, popped from
      the front. Returns the verdict and what is left of the set. */
  function AllPop(w: string, progress: string, i: nat, pool: seq<char>): Result<(bool, seq<char>), BotError>
    requires |w| == |progress| && i <= |progress|
    decreases |progress| - i
  {
    if i == |progress| then Success((true, pool))
    else if progress[i] == Tools.Unknown then AllPop(w, progress, i + 1, pool)
    else if pool == [] then Failure(PopFromEmptySet)
    else if w[i] == pool[0] then AllPop(w, progress, i + 1, pool[1..])
    else Success((false, pool[1..]))
  }

  /** The comprehension of lines 59-61 as written: words with a wrong guess
      are skipped before `all(...)` runs; the popped set is shared by all
      words. */
  function FilterPop(possible: seq<string>, progress: string, wrong: seq<string>, pool: seq<char>)
    : Result<(seq<string>, seq<char>), BotError>
    requires forall w :: w in possible ==> |w| == |progress|
  {
    if possible == [] then Success(([], pool))
    else
      var w := possible[0];
      if !Tools.NoWrong(w, wrong) then FilterPop(possible[1..], progress, wrong, pool)
      else
        match AllPop(w, progress, 0, pool)
        case Failure(e) => Failure(e)
        case Success((keep, rest)) =>
          match FilterPop(possible[1..], progress, wrong, rest)
          case Failure(e) => Failure(e)
          case Success((ws, left)) => Success(((if keep then [w] else []) + ws, left))
  }

  /** Every revealed cell of the pattern holds the same letter in `w`. */
  predicate MatchesRevealed(w: string, progress: string)
    requires |w| == |progress|
  {
    forall i :: 0 <= i < |progress| && progress[i] != Tools.Unknown ==> w[i] == progress[i]
  }

  /** The evidently intended filter of line 61, `w[i] == p` at each revealed
      cell: the words without a wrong guess that agree with every revealed
      cell, in order. */
  function FilterIntended(possible: seq<string>, progress: string, wrong: seq<string>): (r: seq<string>)
    requires forall w :: w in possible ==> |w| == |progress|
    ensures IsSubseq(r, possible)
  {
    if possible == [] then []
    else
      var init := possible[..|possible| - 1];
      var w := possible[|possible| - 1];
      assert possible == init + [w];
      var t := FilterIntended(init, progress, wrong);
      var keep := Tools.NoWrong(w, wrong) && MatchesRevealed(w, progress);
      if keep then
        assert (t + [w])[..|t|] == t;
        t + [w]
      else
        Tools.SubseqDropLast(t, possible);
        t
  }

  /** A word survives the intended filter exactly when it is a candidate,
      contains no wrong guess and agrees with every revealed cell. */
  lemma {:induction false} FilterIntendedMembers(possible: seq<string>, progress: string, wrong: seq<string>, w: string)
    requires forall w :: w in possible ==> |w| == |progress|
    ensures w in FilterIntended(possible, progress, wrong) <==>
              w in possible && |w| == |progress| && Tools.NoWrong(w, wrong) && MatchesRevealed(w, progress)
  {
    if possible != [] {
      var init := possible[..|possible| - 1];
      var last := possible[|possible| - 1];
      assert possible == init + [last];
      FilterIntendedMembers(init, progress, wrong, w);
    }
  }

  /** The intended filter keeps each passing word as often as it occurs,
      and no other word, so the letter counts of bot.py:64-67 see every
      repeat. */
  lemma {:induction false} FilterIntendedKeepsRepeats(possible: seq<string>, progress: string, wrong: seq<string>, w: string)
    requires forall v :: v in possible ==> |v| == |progress|
    ensures Count(FilterIntended(possible, progress, wrong), w) ==
              if |w| == |progress| && Tools.NoWrong(w, wrong) && MatchesRevealed(w, progress) then Count(possible, w) else 0
  {
    if possible != [] {
      var init := possible[..|possible| - 1];
      var last := possible[|possible| - 1];
      assert possible == init + [last];
      FilterIntendedKeepsRepeats(init, progress, wrong, w);
      var t := FilterIntended(init, progress, wrong);
      var keep := Tools.NoWrong(last, wrong) && MatchesRevealed(last, progress);
      var added: seq<string> := if keep then [last] else [];
      assert FilterIntended(possible, progress, wrong) == t + added;
      CountAppend(t, added, w);
      assert Count(added, w) == if keep && last == w then 1 else 0 by {
        if keep {
          assert added[..0] == [];
        }
      }
      assert Count(possible, w) == Count(init, w) + (if last == w then 1 else 0);
    }
  }

  /** With no revealed letter nothing is popped, and the filter as written
      keeps exactly the words without a wrong guess (bot.py:55-61). */
  lemma {:induction false} FilterPopWithoutRevealed(possible: seq<string>, progress: string, wrong: seq<string>, pool: seq<char>)
    requires forall w :: w in possible ==> |w| == |progress|
    requires forall i :: 0 <= i < |progress| ==> progress[i] == Tools.Unknown
    ensures FilterPop(possible, progress, wrong, pool) == Success((FilterIntended(possible, progress, wrong), pool))
  {
    if possible != [] {
      var w := possible[0];
      var rest := possible[1..];
      AllPopWithoutRevealed(w, progress, 0, pool);
      FilterPopWithoutRevealed(rest, progress, wrong, pool);
      FilterIntendedCons(possible, progress, wrong);
      assert MatchesRevealed(w, progress);
      if Tools.NoWrong(w, wrong) {
        assert FilterPop(possible, progress, wrong, pool) == Success(([w] + FilterIntended(rest, progress, wrong), pool));
      } else {
        assert FilterPop(possible, progress, wrong, pool) == FilterPop(rest, progress, wrong, pool);
        assert [] + FilterIntended(rest, progress, wrong) == FilterIntended(rest, progress, wrong);
      }
    }
  }

  lemma {:induction false} AllPopWithoutRevealed(w: string, progress: string, i: nat, pool: seq<char>)
    requires |w| == |progress| && i <= |progress|
    requires forall j :: i <= j < |progress| ==> progress[j] == Tools.Unknown
    ensures AllPop(w, progress, i, pool) == Success((true, pool))
    decreases |progress| - i
  {
    if i < |progress| {
      AllPopWithoutRevealed(w, progress, i + 1, pool);
    }
  }

  /** FilterIntended also reads as a filter from the front. */
  lemma FilterIntendedCons(possible: seq<string>, progress: string, wrong: seq<string>)
    requires possible != [] && forall w :: w in possible ==> |w| == |progress|
    ensures FilterIntended(possible, progress, wrong) ==
              (if Tools.NoWrong(possible[0], wrong) && MatchesRevealed(possible[0], progress) then [possible[0]] else [])
              + FilterIntended(possible[1..], progress, wrong)
  {
    FilterIntendedAppend([possible[0]], possible[1..], progress, wrong);
    assert [possible[0]] + possible[1..] == possible;
  }

  lemma {:induction false} FilterIntendedAppend(a: seq<string>, b: seq<string>, progress: string, wrong: seq<string>)
    requires forall w :: w in a + b ==> |w| == |progress|
    ensures FilterIntended(a + b, progress, wrong) == FilterIntended(a, progress, wrong) + FilterIntended(b, progress, wrong)
    decreases |b|
  {
    if b == [] {
      assert a + b == a;
    } else {
      var b' := b[..|b| - 1];
      assert (a + b)[..|a + b| - 1] == a + b';
      assert (a + b)[|a + b| - 1] == b[|b| - 1];
      FilterIntendedAppend(a, b', progress, wrong);
    }
  }

  /** The filter as written raises `KeyError` when two words are tested
      against a pattern with one revealed letter: the set of revealed letters
      is `{'a'}`, its only element is popped for the first word and the set
      is empty when the second word is tested. */
  lemma FilterPopRaisesOnSecondWord()
    ensures Tools.Letters("a__") == {'a'}
    ensures FilterPop(["abc", "abd"], "a__", [], ['a']) == Failure(PopFromEmptySet)
  {
  }

  /** For the same input the intended filter keeps both words. */
  lemma FilterIntendedKeepsBoth()
    ensures FilterIntended(["abc", "abd"], "a__", []) == ["abc", "abd"]
  {
    var possible: seq<string> := ["abc", "abd"];
    var first: seq<string> := ["abc"];
    assert possible[..1] == first && first[..0] == [];
    assert Tools.NoWrong("abc", []) && Tools.NoWrong("abd", []);
    assert MatchesRevealed("abc", "a__") && MatchesRevealed("abd", "a__");
    assert FilterIntended(first, "a__", []) == first;
  }

  // ---------------------------------------------------------------------
  // Counting and selecting the letter (bot.py:63-68)

  /** All characters of the words, one word after the other. */
  function Flatten(words: seq<string>): string {
    if words == [] then [] else Flatten(words[..|words| - 1]) + words[|words| - 1]
  }

  /** Total occurrences of `c` across the words, with multiplicity. */
  function Occurrences(words: seq<string>, c: char): nat {
    if words == [] then 0 else Occurrences(words[..|words| - 1], c) + Count(words[|words| - 1], c)
  }

  lemma FlattenSnoc(words: seq<string>, i: nat)
    requires i < |words|
    ensures Flatten(words[..i + 1]) == Flatten(words[..i]) + words[i][..|words[i]|]
  {
    assert words[..i + 1][..i] == words[..i];
    assert words[i][..|words[i]|] == words[i];
  }

  lemma {:induction false} CountFlatten(words: seq<string>, c: char)
    ensures Count(Flatten(words), c) == Occurrences(words, c)
  {
    if words != [] {
      CountFlatten(words[..|words| - 1], c);
      CountAppend(Flatten(words[..|words| - 1]), words[|words| - 1], c);
    }
  }

  /** Counting the characters of the words gives each character its total
      number of occurrences over all words. */
  lemma TallyOccurrences(words: seq<string>)
    ensures var counts := Tally.Tally(Flatten(words));
            forall i :: 0 <= i < |counts| ==> counts[i].count == Occurrences(words, counts[i].key)
  {
    var counts := Tally.Tally(Flatten(words));
    forall i | 0 <= i < |counts| ensures counts[i].count == Occurrences(words, counts[i].key) {
      CountFlatten(words, counts[i].key);
    }
  }

  /** bot.py:64-67: `letter_counts[ch] = letter_counts.get(ch, 0) + 1` for
      every character of every filtered word. */
  method CountLetters(filtered: seq<string>) returns (counts: seq<Entry<char>>)
    ensures counts == Tally.Tally(Flatten(filtered))
    ensures Keys(counts) == FirstSeen(Flatten(filtered))
    ensures forall i :: 0 <= i < |counts| ==> counts[i].count == Occurrences(filtered, counts[i].key)
  {
    counts := [];
    for i := 0 to |filtered|
      invariant counts == Tally.Tally(Flatten(filtered[..i]))
    {
      counts := CountWord(counts, Flatten(filtered[..i]), filtered[i]);
      FlattenSnoc(filtered, i);
    }
    assert filtered[..|filtered|] == filtered;
    TallyOccurrences(filtered);
  }

  /** The inner loop of bot.py:66-67: the characters of one word added to
      the counts so far. */
  method CountWord(counts: seq<Entry<char>>, ghost before: string, w: string) returns (updated: seq<Entry<char>>)
    requires counts == Tally.Tally(before)
    ensures updated == Tally.Tally(before + w[..|w|])
  {
    updated := counts;
    assert before + w[..0] == before;
    for j := 0 to |w|
      invariant updated == Tally.Tally(before + w[..j])
    {
      updated := CountChar(updated, before, w, j);
    }
  }

  /** One pass of the inner loop: the count of `w[j]` goes up by one. */
  method CountChar(counts: seq<Entry<char>>, ghost before: string, w: string, j: nat) returns (updated: seq<Entry<char>>)
    requires j < |w| && counts == Tally.Tally(before + w[..j])
    ensures updated == Tally.Tally(before + w[..j + 1])
  {
    Tally.TallyExtend(before, w, j);
    updated := Bump(counts, w[j]);
  }

  /** Index of the first entry with the largest count: Python's `max`
      keeps the first of equal maxima. */
  function FirstMaxIndex<K>(es: seq<Entry<K>>): (k: nat)
    requires es != []
    ensures k < |es|
    ensures forall j :: 0 <= j < |es| ==> es[j].count <= es[k].count
    ensures forall j :: 0 <= j < k ==> es[j].count < es[k].count
  {
    if |es| == 1 then 0
    else
      var k := FirstMaxIndex(es[..|es| - 1]);
      if es[|es| - 1].count > es[k].count then |es| - 1 else k
  }

  /** bot.py:68: `max(letter_counts, key=letter_counts.get)`. */
  method SelectMax(counts: seq<Entry<char>>) returns (r: Result<char, BotError>)
    ensures counts == [] ==> r == Failure(NoCandidates)
    ensures counts != [] ==> r == Success(counts[FirstMaxIndex(counts)].key)
  {
    if counts == [] {
      return Failure(NoCandidates);
    }
    var best := 0;
    for i := 1 to |counts|
      invariant best == FirstMaxIndex(counts[..i])
    {
      assert counts[..i + 1][..i] == counts[..i];
      if counts[i].count > counts[best].count {
        best := i;
      }
    }
    assert counts[..|counts|] == counts;
    r := Success(counts[best].key);
  }

  // ---------------------------------------------------------------------
  // analyze_and_update

  /** The words a step counts letters in, with the intended filter. */
  function Filtered(corpus: seq<string>, progress: string, wrong: seq<string>): seq<string> {
    FilterIntended(LengthMatching(corpus, progress), progress, wrong)
  }

  /** The character `max(letter_counts, key=letter_counts.get)` picks for
      the counts of `s`: one with the largest number of occurrences, and among
      those the one seen first in `s`, since the dict keeps insertion order
      and `max` keeps the first of equal maxima. `None` when `s` is empty,
      where `max` raises `ValueError`. */
  function MostFrequent(s: string): (r: Option<char>)
    ensures r.None? <==> s == []
    ensures r.Some? ==> r.value in s && forall c :: Count(s, c) <= Count(s, r.value)
    ensures r.Some? ==> forall c :: c in s && Count(s, c) == Count(s, r.value) ==>
                          IndexOf(FirstSeen(s), r.value) <= IndexOf(FirstSeen(s), c)
  {
    var counts := Tally.Tally(s);
    if counts == [] then None
    else
      var k := FirstMaxIndex(counts);
      MaxIsMaximal(s, counts, k);
      MaxIsFirst(s, counts, k);
      Some(counts[k].key)
  }

  lemma MaxIsMaximal(s: string, counts: seq<Entry<char>>, k: nat)
    requires counts == Tally.Tally(s) && counts != [] && k == FirstMaxIndex(counts)
    ensures counts[k].key in s
    ensures forall c :: Count(s, c) <= Count(s, counts[k].key)
  {
    assert Keys(counts)[k] == counts[k].key;
    forall c ensures Count(s, c) <= Count(s, counts[k].key) {
      MaxBeats(s, counts, k, c);
    }
  }

  lemma MaxBeats(s: string, counts: seq<Entry<char>>, k: nat, c: char)
    requires counts == Tally.Tally(s) && counts != [] && k == FirstMaxIndex(counts)
    ensures Count(s, c) <= Count(s, counts[k].key)
  {
    if c in s {
      var ks := Keys(counts);
      assert c in ks;
      var j := IndexOf(ks, c);
      assert counts[j].key == c;
      assert counts[j].count <= counts[k].count;
    } else {
      CountAbsent(s, c);
    }
  }

  lemma MaxIsFirst(s: string, counts: seq<Entry<char>>, k: nat)
    requires counts == Tally.Tally(s) && counts != [] && k == FirstMaxIndex(counts)
    ensures counts[k].key in FirstSeen(s)
    ensures forall c :: c in s && Count(s, c) == Count(s, counts[k].key) ==>
              IndexOf(FirstSeen(s), counts[k].key) <= IndexOf(FirstSeen(s), c)
  {
    var ks := Keys(counts);
    assert ks == FirstSeen(s);
    assert ks[k] == counts[k].key;
    assert counts[k].key in ks;
    IndexOfUnique(ks, k);
    forall c | c in s && Count(s, c) == Count(s, counts[k].key)
      ensures IndexOf(ks, counts[k].key) <= IndexOf(ks, c)
    {
      var j := IndexOf(ks, c);
      assert counts[j].key == c;
      assert counts[j].count == counts[k].count;
    }
  }

  /** One step of the solver on the intended filter: the letter chosen from
      the remaining words and the pattern with it revealed. */
  function Step(progress: string, wrong: seq<string>, word: string, corpus: seq<string>)
    : Result<(char, string), BotError>
    requires |progress| >= |word|
  {
    match MostFrequent(Flatten(Filtered(corpus, progress, wrong)))
    case None => Failure(NoCandidates)
    case Some(l) => Success((l, Tools.Reveal(progress, [l], word)))
  }

  /** What a step promises: it fails exactly when no remaining word has a
      character; otherwise the letter has the most occurrences over all
      remaining words, the one seen first among ties, and the new pattern
      shows it wherever the solution has it and keeps every other cell. */
  lemma StepChoosesMostFrequent(progress: string, wrong: seq<string>, word: string, corpus: seq<string>)
    requires |progress| >= |word|
    ensures var r := Step(progress, wrong, word, corpus);
            var ws := Filtered(corpus, progress, wrong);
            && (r.Failure? <==> forall w :: w in ws ==> w == [])
            && (r.Failure? ==> r.error == NoCandidates)
            && (r.Success? ==>
                  && (forall c :: Occurrences(ws, c) <= Occurrences(ws, r.value.0))
                  && (forall c :: c in Flatten(ws) && Occurrences(ws, c) == Occurrences(ws, r.value.0) ==>
                        IndexOf(FirstSeen(Flatten(ws)), r.value.0) <= IndexOf(FirstSeen(Flatten(ws)), c))
                  && (exists w :: w in ws && r.value.0 in w)
                  && |r.value.1| == |word|
                  && (forall i :: 0 <= i < |word| ==>
                        r.value.1[i] == if word[i] == r.value.0 then word[i] else progress[i]))
  {
    var ws := Filtered(corpus, progress, wrong);
    FlattenEmpty(ws);
    var m := MostFrequent(Flatten(ws));
    if m.Some? {
      MostFrequentOfWords(ws);
      Tools.RevealChar(progress, m.value, word);
    }
  }

  /** The most frequent character of the concatenation is a character of
      some word with the most occurrences over all words. */
  lemma MostFrequentOfWords(ws: seq<string>)
    requires MostFrequent(Flatten(ws)).Some?
    ensures var l := MostFrequent(Flatten(ws)).value;
            && (forall c :: Occurrences(ws, c) <= Occurrences(ws, l))
            && (forall c :: c in Flatten(ws) && Occurrences(ws, c) == Occurrences(ws, l) ==>
                  IndexOf(FirstSeen(Flatten(ws)), l) <= IndexOf(FirstSeen(Flatten(ws)), c))
            && (exists w :: w in ws && l in w)
  {
    var l := MostFrequent(Flatten(ws)).value;
    CountFlatten(ws, l);
    forall c ensures Count(Flatten(ws), c) == Occurrences(ws, c) {
      CountFlatten(ws, c);
    }
    FlattenMembers(ws, l);
  }

  lemma {:induction false} FlattenEmpty(ws: seq<string>)
    ensures Flatten(ws) == [] <==> forall w :: w in ws ==> w == []
  {
    if ws != [] {
      var init := ws[..|ws| - 1];
      var last := ws[|ws| - 1];
      FlattenEmpty(init);
      assert ws == init + [last];
      assert Flatten(ws) == Flatten(init) + last;
      assert |Flatten(ws)| == |Flatten(init)| + |last|;
      assert forall w :: w in ws <==> w in init || w == last;
      if Flatten(ws) == [] {
        assert Flatten(init) == [] && last == [];
      }
      if forall w :: w in ws ==> w == [] {
        assert last in ws;
        assert Flatten(init) == [];
      }
    }
  }

  lemma {:induction false} FlattenMembers(ws: seq<string>, c: char)
    ensures c in Flatten(ws) <==> exists w :: w in ws && c in w
  {
    if ws != [] {
      var init := ws[..|ws| - 1];
      var last := ws[|ws| - 1];
      FlattenMembers(init, c);
      assert ws == init + [last];
      assert c in Flatten(ws) <==> c in Flatten(init) || c in last;
    }
  }

  /** bot.py:52-68 with the intended filter of line 61: the words of the
      pattern's length that survive the filter, their characters counted,
      and the first most frequent one picked. */
  method ChooseLetter(progress: string, wrongGuessed: seq<string>, corpus: seq<string>)
    returns (r: Result<char, BotError>)
    ensures r.Failure? <==> MostFrequent(Flatten(Filtered(corpus, progress, wrongGuessed))).None?
    ensures r.Failure? ==> r.error == NoCandidates
    ensures r.Success? ==> r.value == MostFrequent(Flatten(Filtered(corpus, progress, wrongGuessed))).value
  {
    var possibleWords := LengthMatching(corpus, progress);
    var filteredWords := FilterIntended(possibleWords, progress, wrongGuessed);
    var letterCounts := CountLetters(filteredWords);
    r := SelectMax(letterCounts);
  }

  /** bot.py:71-78: the pattern rebuilt cell by cell, showing the chosen
      letter wherever the solution has it and keeping every other cell. */
  method RebuildPattern(progress: string, nextLetter: char, word: string) returns (updated: string)
    requires |progress| >= |word|
    ensures |updated| == |word|
    ensures forall i :: 0 <= i < |word| ==> updated[i] == if word[i] == nextLetter then nextLetter else progress[i]
    ensures updated == Tools.Reveal(progress, [nextLetter], word)
  {
    updated := "";
    for i := 0 to |word|
      invariant |updated| == i
      invariant forall k :: 0 <= k < i ==> updated[k] == if word[k] == nextLetter then nextLetter else progress[k]
    {
      if word[i] == nextLetter {
        updated := updated + [nextLetter];
      } else if progress[i] == Tools.Unknown {
        updated := updated + [Tools.Unknown];
      } else {
        updated := updated + [progress[i]];
      }
    }
    Tools.RevealChar(progress, nextLetter, word);
  }

  /** bot.py:36-80 with the intended filter of line 61: choose the letter,
      then rebuild the pattern with it. */
  method AnalyzeAndUpdate(progress: string, wrongGuessed: seq<string>, word: string, corpus: seq<string>)
    returns (r: Result<(char, string), BotError>)
    requires |progress| >= |word|
    ensures r == Step(progress, wrongGuessed, word, corpus)
  {
    var next := ChooseLetter(progress, wrongGuessed, corpus);
    match next {
      case Failure(e) =>
        r := Failure(e);
      case Success(nextLetter) =>
        var updated := RebuildPattern(progress, nextLetter, word);
        r := Success((nextLetter, updated));
    }
  }

  // ---------------------------------------------------------------------
  // test_bot

  /** How a self-play run ends: solved after some rounds, an exception in
      some round, or the round cap reached. */
  datatype PlayOutcome = Solved(rounds: nat) | Crashed(error: BotError, round: nat) | OutOfFuel

  /** The inner loop of bot.py:300-307 from `progress`, after `done` rounds,
      with at most `fuel` more rounds. `wrong_guessed` stays empty: the loop
      never appends to it. */
  function Play(progress: string, word: string, corpus: seq<string>, fuel: nat, done: nat): PlayOutcome
    requires |progress| == |word|
    decreases fuel
  {
    if fuel == 0 then OutOfFuel
    else
      match Step(progress, [], word, corpus)
      case Failure(e) => Crashed(e, done + 1)
      case Success((_, next)) =>
        if next == word then Solved(done + 1) else Play(next, word, corpus, fuel - 1, done + 1)
  }

  /** One round of `Play`, unfolded. */
  lemma PlayRound(progress: string, word: string, corpus: seq<string>, fuel: nat, done: nat)
    requires |progress| == |word| && fuel > 0
    ensures var step := Step(progress, [], word, corpus);
            && (step.Failure? ==> Play(progress, word, corpus, fuel, done) == Crashed(step.error, done + 1))
            && (step.Success? ==>
                  && |step.value.1| == |word|
                  && Play(progress, word, corpus, fuel, done) ==
                       if step.value.1 == word then Solved(done + 1)
                       else Play(step.value.1, word, corpus, fuel - 1, done + 1))
  {
  }

  /** The inner loop of `test_bot` for one solution word, capped at `fuel`
      rounds: it stops exactly when the pattern equals the word. */
  method SelfPlay(word: string, corpus: seq<string>, fuel: nat) returns (outcome: PlayOutcome, progress: string)
    ensures outcome == Play(Tools.Blank(|word|), word, corpus, fuel, 0)
    ensures |progress| == |word|
    ensures outcome.Solved? ==> progress == word && 1 <= outcome.rounds <= fuel
  {
    progress := Tools.Blank(|word|);
    ghost var target := Play(progress, word, corpus, fuel, 0);
    var done := 0;
    var left := fuel;
    while left > 0
      invariant |progress| == |word| && done + left == fuel
      invariant target == Play(progress, word, corpus, left, done)
    {
      PlayRound(progress, word, corpus, left, done);
      var step := AnalyzeAndUpdate(progress, [], word, corpus);
      if step.Failure? {
        return Crashed(step.error, done + 1), progress;
      }
      var next := step.value.1;
      if next == word {
        return Solved(done + 1), next;
      }
      assert target == Play(next, word, corpus, left - 1, done + 1);
      progress, done, left := next, done + 1, left - 1;
    }
    return OutOfFuel, progress;
  }

  /** The outcome `test_bot` reaches for one line of the word list. */
  function PlayWord(line: string, corpus: seq<string>, fuel: nat): PlayOutcome {
    var w := Tools.LowerWord(line);
    Play(Tools.Blank(|w|), w, corpus, fuel, 0)
  }

  /** The self-play of one line of the word list, lowercased. */
  method PlayLine(line: string, corpus: seq<string>, fuel: nat) returns (outcome: PlayOutcome)
    ensures outcome == PlayWord(line, corpus, fuel)
  {
    var word := Tools.LowerWord(line);
    var progress;
    outcome, progress := SelfPlay(word, corpus, fuel);
  }

  lemma OutcomesSnoc(outcomes: seq<PlayOutcome>, outcome: PlayOutcome, corpus: seq<string>, fuel: nat)
    requires |outcomes| < |corpus|
    requires forall k :: 0 <= k < |outcomes| ==> outcomes[k] == PlayWord(corpus[k], corpus, fuel)
    requires outcome == PlayWord(corpus[|outcomes|], corpus, fuel)
    ensures forall k :: 0 <= k <= |outcomes| ==> (outcomes + [outcome])[k] == PlayWord(corpus[k], corpus, fuel)
  {
  }

  /** bot.py:285-314: self-play on the words of the list in order, each
      lowercased. The source has no `try`, so an exception in a round ends
      `test_bot`, and a word whose loop never ends keeps it from reaching
      the next one: the run stops after the first word not solved. */
  method TestBot(corpus: seq<string>, fuel: nat) returns (outcomes: seq<PlayOutcome>)
    ensures |outcomes| <= |corpus|
    ensures forall i :: 0 <= i < |outcomes| ==> outcomes[i] == PlayWord(corpus[i], corpus, fuel)
    ensures forall i :: 0 <= i < |outcomes| - 1 ==> outcomes[i].Solved?
    ensures |outcomes| < |corpus| ==> outcomes != [] && !outcomes[|outcomes| - 1].Solved?
  {
    outcomes := [];
    var i := 0;
    while i < |corpus|
      invariant i == |outcomes| <= |corpus|
      invariant forall k :: 0 <= k < i ==> outcomes[k] == PlayWord(corpus[k], corpus, fuel)
      invariant forall k :: 0 <= k < i ==> outcomes[k].Solved?
    {
      var outcome := PlayLine(corpus[i], corpus, fuel);
      OutcomesSnoc(outcomes, outcome, corpus, fuel);
      outcomes := outcomes + [outcome];
      if !outcome.Solved? {
        return;
      }
      i := i + 1;
    }
  }

  // ---------------------------------------------------------------------
  // The loop of bot.py:300-307 as written need not end

  /** In a string whose characters are distinct, all counts are equal and
      the first character is picked. */
  lemma DistinctMostFrequent(s: string)
    requires s != [] && Unique(s)
    ensures MostFrequent(s) == Some(s[0])
  {
    var v := MostFrequent(s).value;
    FirstSeenUnique(s);
    CountUnique(s, v);
    CountUnique(s, s[0]);
    IndexOfUnique(s, 0);
    assert IndexOf(s, v) == 0;
  }

  /** With a one-word list, the word remains as long as the pattern agrees
      with it. */
  lemma SingleWordFiltered(w: string, progress: string)
    requires Tools.LowerWord(w) == w && |progress| == |w| && MatchesRevealed(w, progress)
    ensures Filtered([w], progress, []) == [w]
  {
    var corpus := [w];
    assert corpus[..0] == [];
    assert LengthMatching(corpus, progress) == corpus;
    assert Tools.NoWrong(w, []);
  }

  /** With a one-word list of distinct letters, every round agreeing with the
      word picks its first letter. */
  lemma SingleWordRound(w: string, progress: string)
    requires Tools.LowerWord(w) == w && w != [] && Unique(w)
    requires |progress| == |w| && MatchesRevealed(w, progress)
    ensures Step(progress, [], w, [w]) == Success((w[0], Tools.Reveal(progress, [w[0]], w)))
  {
    var corpus := [w];
    SingleWordFiltered(w, progress);
    assert corpus[..0] == [];
    assert Flatten(corpus) == w;
    DistinctMostFrequent(w);
  }

  /** A pattern short of the word that a round leaves unchanged is never
      left again. */
  lemma {:induction false} StallsAt(stuck: string, word: string, corpus: seq<string>, l: char, fuel: nat, done: nat)
    requires |stuck| == |word| && stuck != word
    requires Step(stuck, [], word, corpus) == Success((l, stuck))
    ensures Play(stuck, word, corpus, fuel, done) == OutOfFuel
  {
    if fuel > 0 {
      forall f: nat, d: nat | f == fuel - 1 && d == done + 1
        ensures Play(stuck, word, corpus, f, d) == OutOfFuel
      {
        StallsAt(stuck, word, corpus, l, f, d);
      }
    }
  }

  /** The pattern after the first letter of `w` is revealed on a blank. */
  function FirstShown(w: string): string
    requires w != []
  {
    Tools.Reveal(Tools.Blank(|w|), [w[0]], w)
  }

  /** The pattern after the first round on a one-word list: the first letter
      shown, every other cell hidden. */
  lemma FirstLetterShown(w: string)
    requires w != [] && Unique(w) && Tools.Unknown !in w
    ensures |FirstShown(w)| == |w| && MatchesRevealed(w, FirstShown(w))
    ensures Tools.Reveal(FirstShown(w), [w[0]], w) == FirstShown(w)
    ensures |w| >= 2 ==> FirstShown(w) != w
  {
    var blank := Tools.Blank(|w|);
    var p := FirstShown(w);
    Tools.RevealChar(blank, w[0], w);
    Tools.RevealChar(p, w[0], w);
    assert forall i :: 0 < i < |w| ==> p[i] == Tools.Unknown;
    if |w| >= 2 {
      assert p[1] != w[1];
    }
  }

  /** On a one-word list, every round after the first picks the first letter
      again and leaves the pattern unchanged. */
  lemma SingleWordStuck(w: string)
    requires |w| >= 2 && Unique(w) && Tools.LowerWord(w) == w && Tools.Unknown !in w
    ensures |FirstShown(w)| == |w| && FirstShown(w) != w
    ensures Step(FirstShown(w), [], w, [w]) == Success((w[0], FirstShown(w)))
  {
    var p := FirstShown(w);
    FirstLetterShown(w);
    SingleWordRound(w, p);
  }

  /** The loop keeps no record of the letters tried, so it can pick a
      revealed letter again and again. On a list that holds one word of two
      or more distinct lowercase letters, say `["cat"]`, the first round
      reveals the first letter, every later round picks that letter again,
      and no round cap is ever enough. */
  lemma {:induction false} SingleWordStalls(line: string, fuel: nat)
    requires |line| >= 2 && Unique(line) && Tools.LowerWord(line) == line && Tools.Unknown !in line
    ensures PlayWord(line, [line], fuel) == OutOfFuel
  {
    SingleWordPlays(line, fuel, 0);
  }

  /** `SingleWordStalls`, from the blank pattern on. */
  lemma {:induction false} SingleWordPlays(w: string, fuel: nat, done: nat)
    requires |w| >= 2 && Unique(w) && Tools.LowerWord(w) == w && Tools.Unknown !in w
    ensures Play(Tools.Blank(|w|), w, [w], fuel, done) == OutOfFuel
  {
    var blank := Tools.Blank(|w|);
    FirstLetterShown(w);
    assert MatchesRevealed(w, blank);
    SingleWordRound(w, blank);
    SingleWordStuck(w);
    StallsFrom(blank, FirstShown(w), w, [w], w[0], fuel, done);
  }

  /** A round that moves to a pattern that is never left again. */
  lemma {:induction false} StallsFrom(start: string, stuck: string, word: string, corpus: seq<string>, l: char, fuel: nat, done: nat)
    requires |start| == |word| == |stuck| && stuck != word
    requires Step(start, [], word, corpus) == Success((l, stuck))
    requires Step(stuck, [], word, corpus) == Success((l, stuck))
    ensures Play(start, word, corpus, fuel, done) == OutOfFuel
  {
    if fuel > 0 {
      forall f: nat, d: nat | f == fuel - 1 && d == done + 1
        ensures Play(stuck, word, corpus, f, d) == OutOfFuel
      {
        StallsAt(stuck, word, corpus, l, f, d);
      }
    }
  }

  /** The filter as written agrees with the intended one on the stuck
      pattern of a one-word list: only the first cell is shown, so the set
      of bot.py:55 is that one letter, popped once, and the word stays. */
  lemma SingleWordPopAgrees(w: string)
    requires |w| >= 2 && Unique(w) && Tools.LowerWord(w) == w && Tools.Unknown !in w
    ensures Tools.Letters(FirstShown(w)) == {w[0]}
    ensures FilterPop([w], FirstShown(w), [], [w[0]]) == Success(([w], []))
    ensures Filtered([w], FirstShown(w), []) == [w]
  {
    var p := FirstShown(w);
    FirstLetterShown(w);
    Tools.RevealChar(Tools.Blank(|w|), w[0], w);
    assert forall j :: 1 <= j < |w| ==> p[j] == Tools.Unknown;
    assert p[0] == w[0];
    assert w[0] != Tools.Unknown;
    AllPopWithoutRevealed(w, p, 1, []);
    assert [w[0]][1..] == [];
    assert AllPop(w, p, 0, [w[0]]) == Success((true, []));
    assert Tools.NoWrong(w, []);
    assert [w][1..] == [];
    assert FilterPop([], p, [], []) == Success(([], []));
    assert [w] + [] == [w];
    assert FilterPop([w], p, [], [w[0]]) == Success(([w] + [], []));
    SingleWordFiltered(w, p);
  }

  /** The word `cat` meets the conditions. */
  lemma CatStalls(fuel: nat)
    ensures PlayWord("cat", ["cat"], fuel) == OutOfFuel
  {
    assert Tools.LowerWord("cat") == "cat";
    assert Unique("cat");
    SingleWordStalls("cat", fuel);
  }

  // ---------------------------------------------------------------------
  // A loop that ends: untried letters only, misses recorded

  /** The letters a corrected round may not pick: the revealed ones and the
      recorded misses. */
  function Tried(progress: string, wrong: seq<string>): set<char> {
    Tools.Letters(progress) + set g | g in wrong && |g| == 1 :: g[0]
  }

  /** The characters of `s` outside `tried`, in order. */
  function Untried(s: string, tried: set<char>): (r: string)
    ensures forall c :: c in r <==> c in s && c !in tried
  {
    if s == [] then []
    else
      var init := s[..|s| - 1];
      assert s == init + [s[|s| - 1]];
      Untried(init, tried) + (if s[|s| - 1] in tried then [] else [s[|s| - 1]])
  }

  /** The corrected round: the most frequent letter of the remaining words
      among those not tried yet; a hit is revealed, a miss is recorded. */
  function FixedStep(progress: string, wrong: seq<string>, word: string, corpus: seq<string>)
    : (r: Result<(char, string, seq<string>), BotError>)
    requires |progress| >= |word|
    ensures var left := Flatten(Filtered(corpus, progress, wrong));
            && (r.Failure? <==> forall c :: c in left ==> c in Tried(progress, wrong))
            && (r.Success? ==> r.value.0 in left && r.value.0 !in Tried(progress, wrong))
  {
    match MostFrequent(Untried(Flatten(Filtered(corpus, progress, wrong)), Tried(progress, wrong)))
    case None => Failure(NoCandidates)
    case Some(l) =>
      if l in word then Success((l, Tools.Reveal(progress, [l], word), wrong))
      else Success((l, progress, wrong + [[l]]))
  }

  /** What every round of the corrected loop keeps: each revealed cell is
      right, each tried letter of the word is revealed wherever it occurs,
      and each recorded miss is one letter the word does not have. */
  predicate Sound(progress: string, wrong: seq<string>, word: string) {
    && |progress| == |word|
    && Tools.Unknown !in word
    && (forall i :: 0 <= i < |word| ==> progress[i] == Tools.Unknown || progress[i] == word[i])
    && (forall i :: 0 <= i < |word| && word[i] in Tools.Letters(progress) ==> progress[i] == word[i])
    && (forall g :: g in wrong ==> |g| == 1 && g[0] !in word)
  }

  /** The characters of the lowercased words of length `n` in the list. */
  function Pool(corpus: seq<string>, n: nat): set<char> {
    set c | c in Flatten(LengthMatching(corpus, Tools.Blank(n)))
  }

  /** The candidates of bot.py:56 depend on the pattern's length only. */
  lemma {:induction false} LengthMatchingOnlyLength(corpus: seq<string>, p: string, q: string)
    requires |p| == |q|
    ensures LengthMatching(corpus, p) == LengthMatching(corpus, q)
  {
    if corpus != [] {
      LengthMatchingOnlyLength(corpus[..|corpus| - 1], p, q);
    }
  }

  /** Revealing a letter of the word adds exactly that letter to the
      revealed ones. */
  lemma LettersAfterHit(progress: string, wrong: seq<string>, word: string, l: char)
    requires Sound(progress, wrong, word) && l in word
    ensures Tools.Letters(Tools.Reveal(progress, [l], word)) == Tools.Letters(progress) + {l}
    ensures Tried(Tools.Reveal(progress, [l], word), wrong) == Tried(progress, wrong) + {l}
    ensures Sound(Tools.Reveal(progress, [l], word), wrong, word)
  {
    var next := Tools.Reveal(progress, [l], word);
    Tools.RevealChar(progress, l, word);
    var j :| 0 <= j < |word| && word[j] == l;
    assert next[j] == l && l != Tools.Unknown;
    forall c | c in Tools.Letters(progress) ensures c in next {
      var k :| 0 <= k < |progress| && progress[k] == c;
      assert next[k] == c;
    }
  }

  /** A round of the corrected loop before the word is solved always
      succeeds, keeps `Sound`, and tries one more letter of the pool. */
  lemma FixedRound(progress: string, wrong: seq<string>, word: string, corpus: seq<string>)
    requires Sound(progress, wrong, word) && progress != word
    requires word in LengthMatching(corpus, progress)
    ensures var r := FixedStep(progress, wrong, word, corpus);
            && r.Success?
            && Sound(r.value.1, r.value.2, word)
            && r.value.0 in Pool(corpus, |word|) && r.value.0 !in Tried(progress, wrong)
            && Tried(r.value.1, r.value.2) == Tried(progress, wrong) + {r.value.0}
  {
    FixedChoice(progress, wrong, word, corpus);
    var l := MostFrequent(Untried(Flatten(Filtered(corpus, progress, wrong)), Tried(progress, wrong))).value;
    if l in word {
      LettersAfterHit(progress, wrong, word, l);
    } else {
      SoundAfterMiss(progress, wrong, word, l);
      TriedAfterMiss(progress, wrong, l);
    }
  }

  /** Before the word is solved, some letter of the remaining words is
      untried: a cell still hidden holds one, and the word itself remains. */
  lemma FixedChoice(progress: string, wrong: seq<string>, word: string, corpus: seq<string>)
    requires Sound(progress, wrong, word) && progress != word
    requires word in LengthMatching(corpus, progress)
    ensures var m := MostFrequent(Untried(Flatten(Filtered(corpus, progress, wrong)), Tried(progress, wrong)));
            m.Some? && m.value in Pool(corpus, |word|) && m.value !in Tried(progress, wrong)
  {
    var possible := LengthMatching(corpus, progress);
    var ws := Filtered(corpus, progress, wrong);
    var tried := Tried(progress, wrong);
    forall g | g in wrong ensures !Tools.Contains(word, g) {
      assert g == [g[0]];
      Tools.ContainsLetter(word, g[0]);
    }
    FilterIntendedMembers(possible, progress, wrong, word);
    assert word in ws;
    assert exists i :: 0 <= i < |word| && progress[i] != word[i];
    var i :| 0 <= i < |word| && progress[i] != word[i];
    assert word[i] !in tried;
    FlattenMembers(ws, word[i]);
    var m := MostFrequent(Untried(Flatten(ws), tried));
    assert m.Some?;
    var l := m.value;
    FlattenMembers(ws, l);
    var w :| w in ws && l in w;
    FilterIntendedMembers(possible, progress, wrong, w);
    FlattenMembers(possible, l);
    LengthMatchingOnlyLength(corpus, progress, Tools.Blank(|word|));
  }

  /** Recording a letter the word lacks keeps `Sound`. */
  lemma SoundAfterMiss(progress: string, wrong: seq<string>, word: string, l: char)
    requires Sound(progress, wrong, word) && l !in word
    ensures Sound(progress, wrong + [[l]], word)
  {
    assert forall g :: g in wrong + [[l]] ==> g in wrong || g == [l];
  }

  /** Recording a miss adds exactly that letter to the tried ones. */
  lemma TriedAfterMiss(progress: string, wrong: seq<string>, l: char)
    ensures Tried(progress, wrong + [[l]]) == Tried(progress, wrong) + {l}
  {
    var wrong' := wrong + [[l]];
    assert [l] in wrong' && [l][0] == l;
    assert forall g :: g in wrong' <==> g in wrong || g == [l];
  }

  /** Trying one more letter of the pool leaves one fewer untried. */
  lemma FewerLeft(pool: set<char>, tried: set<char>, l: char, tried': set<char>)
    requires l in pool && l !in tried && tried' == tried + {l}
    ensures |pool - tried| >= 1
    ensures |pool - tried'| == |pool - tried| - 1
  {
    assert pool - tried' == (pool - tried) - {l};
  }

  /** The letters of the pool not tried yet. */
  function Untouched(corpus: seq<string>, progress: string, wrong: seq<string>): nat {
    |Pool(corpus, |progress|) - Tried(progress, wrong)|
  }

  /** The loop of bot.py:298-307 for one line of the word list, with the
      corrected round. Every word with a character and no `_` is solved,
      within as many rounds as the words of its length have distinct
      characters, and every recorded miss is a letter the word lacks. */
  method FixedSelfPlay(line: string, corpus: seq<string>) returns (progress: string, wrong: seq<string>, rounds: nat)
    requires line in corpus
    requires Tools.LowerWord(line) != [] && Tools.Unknown !in Tools.LowerWord(line)
    ensures progress == Tools.LowerWord(line)
    ensures 1 <= rounds <= |Pool(corpus, |line|)|
    ensures forall g :: g in wrong ==> |g| == 1 && g[0] !in progress
  {
    var word := Tools.LowerWord(line);
    progress := Tools.Blank(|word|);
    wrong := [];
    rounds := 0;
    assert Tools.Letters(progress) == {};
    assert Tried(progress, wrong) == {};
    assert progress[0] != word[0];
    LengthMatchingMembers(corpus, progress, word);
    // The source tests for the solved pattern after each round; the
    // pattern is never solved before the first one.
    while progress != word
      invariant Sound(progress, wrong, word)
      invariant word in LengthMatching(corpus, progress)
      invariant rounds + Untouched(corpus, progress, wrong) <= |Pool(corpus, |word|)|
      invariant progress == word ==> rounds >= 1
      decreases Untouched(corpus, progress, wrong)
    {
      FixedRound(progress, wrong, word, corpus);
      var step := FixedStep(progress, wrong, word, corpus).value;
      FewerLeft(Pool(corpus, |word|), Tried(progress, wrong), step.0, Tried(step.1, step.2));
      LengthMatchingOnlyLength(corpus, progress, step.1);
      progress, wrong := step.1, step.2;
      rounds := rounds + 1;
    }
  }
}
