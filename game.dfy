/** game.py: the normal-mode round of `Game.start`, the loss rule of
    `print_hangman` and the word-length histogram of impossible mode.
    Console input and the random choice of the word are parameters. */
module Game {
  import opened Wrappers
  import opened Seqs
  import opened Tally
  import opened Ranking
  import Tools

  /** The number of pictures in `hangman_ascii` (game.py:37-98). */
  const Stages: nat := 11

  datatype Mode = Normal | Impossible

  /** How a round stands: still guessing, won, or lost. */
  datatype Status = Playing | Won | Lost

  /** The end of a round: its status, the pattern, the wrong guesses, and how
      many guesses were read. */
  datatype RoundEnd = RoundEnd(status: Status, progress: string, wrong: seq<string>, used: nat)

  /** game.py:115: with graphics on, the player has lost once there are more
      wrong guesses than the last picture's index. Without graphics
      `print_hangman` does nothing, so the round is never lost. Fewer wrong
      guesses than pictures never lose; the eleventh does. */
  predicate IsLost(graphics: bool, wrong: seq<string>)
    ensures |wrong| < Stages ==> !IsLost(graphics, wrong)
    ensures graphics && |wrong| == Stages ==> IsLost(graphics, wrong)
    ensures !graphics ==> !IsLost(graphics, wrong)
  {
    graphics && |wrong| > Stages - 1
  }

  // ---------------------------------------------------------------------
  // One guess (game.py:160-167)

  /** A normal-mode guess: the pattern becomes the reveal of the guess, and
      the guess is appended to the wrong guesses when the reveal changes
      nothing. The loss check between the two (line 164) is left to the
      caller. */
  function Guess(progress: string, wrong: seq<string>, letter: string, word: string): (r: (string, seq<string>))
    requires |progress| == |word|
    ensures |r.0| == |word|
  {
    var next := Tools.Reveal(progress, letter, word);
    if next == progress then (next, wrong + [letter]) else (next, wrong)
  }

  /** The pattern agrees with the solution on every revealed cell. */
  predicate Consistent(progress: string, word: string) {
    |progress| == |word| && forall i :: 0 <= i < |word| ==> progress[i] == Tools.Unknown || progress[i] == word[i]
  }

  /** A guess is recorded as wrong exactly when every cell of the solution
      holding that guess is already shown; otherwise the wrong guesses stay
      as they were. The pattern stays consistent with the solution. */
  lemma GuessRecordsMiss(progress: string, wrong: seq<string>, letter: string, word: string)
    requires Consistent(progress, word)
    ensures var r := Guess(progress, wrong, letter, word);
            && (r.1 == wrong + [letter] <==>
                  forall i :: 0 <= i < |word| && Tools.SameAs(word[i], letter) ==> progress[i] == word[i])
            && (r.1 == wrong || r.1 == wrong + [letter])
            && Consistent(r.0, word)
  {
    Tools.RevealUnchanged(progress, letter, word);
    var r := Guess(progress, wrong, letter, word);
    if r.1 == wrong + [letter] {
      assert |r.1| == |wrong| + 1;
    }
  }

  /** Guessing a letter again is always recorded as wrong (game.py:161 after
      tools.py:33-45 revealed it the first time). */
  lemma RepeatedGuessIsMiss(progress: string, wrong: seq<string>, letter: string, word: string)
    requires |progress| == |word|
    ensures var r := Guess(progress, wrong, letter, word);
            var again := Guess(r.0, r.1, letter, word);
            again == (r.0, r.1 + [letter])
  {
    Tools.RevealIdempotent(progress, letter, word);
  }

  /** A letter the solution does not have is recorded as wrong and leaves
      the pattern as it was. */
  lemma AbsentLetterIsMiss(progress: string, wrong: seq<string>, c: char, word: string)
    requires |progress| == |word| && c !in word
    ensures Guess(progress, wrong, [c], word) == (progress, wrong + [[c]])
  {
    Tools.RevealAbsent(progress, c, word);
  }

  // ---------------------------------------------------------------------
  // The normal-mode round (game.py:143-204)

  /** The round from guess `k` on: each guess is applied; after a wrong guess
      the loss rule is checked, then the win rule of line 197. The round ends
      when it is lost, won, or the guesses run out. */
  function Run(word: string, progress: string, wrong: seq<string>, guesses: seq<string>, k: nat, graphics: bool): (r: RoundEnd)
    requires |progress| == |word| && k <= |guesses|
    decreases |guesses| - k
  {
    if k == |guesses| then RoundEnd(Playing, progress, wrong, k)
    else
      var (next, wrong') := Guess(progress, wrong, guesses[k], word);
      if wrong' != wrong && IsLost(graphics, wrong') then RoundEnd(Lost, next, wrong', k + 1)
      else if next == word then RoundEnd(Won, next, wrong', k + 1)
      else Run(word, next, wrong', guesses, k + 1, graphics)
  }

  /** What a round promises: it is won exactly when the whole word is shown
      (unless the word was shown before any guess), lost only with graphics
      on and exactly `Stages` wrong guesses, still going only when every
      guess was read. The pattern always agrees with the solution, and the
      wrong guesses only grow by appending, to at most `Stages` with
      graphics on, so every picture `hangman_ascii[len(wrong_guessed) - 1]`
      drawn on the way is in range. */
  lemma {:induction false} RunOutcome(word: string, progress: string, wrong: seq<string>, guesses: seq<string>, k: nat, graphics: bool)
    requires Consistent(progress, word) && k <= |guesses|
    requires graphics ==> |wrong| < Stages
    ensures var r := Run(word, progress, wrong, guesses, k, graphics);
            && k <= r.used <= |guesses|
            && Consistent(r.progress, word)
            && (r.status == Won ==> r.progress == word)
            && ((progress != word || (k < |guesses| && (graphics ==> |wrong| + 1 < Stages))) ==>
                  (r.status == Won <==> r.progress == word))
            && (r.status == Lost <==> graphics && |r.wrong| == Stages)
            && (r.status == Playing ==> r.used == |guesses|)
            && (graphics ==> |r.wrong| <= Stages)
            && wrong <= r.wrong && |r.wrong| <= |wrong| + (r.used - k)
    decreases |guesses| - k
  {
    if k < |guesses| {
      GuessRecordsMiss(progress, wrong, guesses[k], word);
      var (next, wrong') := Guess(progress, wrong, guesses[k], word);
      if !(wrong' != wrong && IsLost(graphics, wrong')) && next != word {
        RunOutcome(word, next, wrong', guesses, k + 1, graphics);
      }
    }
  }

  /** The inner `while True` loop of game.py:150-204 in normal mode, for the
      word `random.choice` picked and the letters the player types. The
      dialogs after a win or a loss end the round either way. */
  method PlayRound(chosen: string, guesses: seq<string>, graphics: bool) returns (r: RoundEnd)
    ensures var word := Tools.LowerWord(chosen);
            r == Run(word, Tools.Blank(|word|), [], guesses, 0, graphics)
    ensures r.status == Won ==> r.progress == Tools.LowerWord(chosen)
    ensures guesses != [] ==> (r.status == Won <==> r.progress == Tools.LowerWord(chosen))
    ensures graphics ==> |r.wrong| <= Stages
    ensures |r.progress| == |chosen|
  {
    var word := Tools.LowerWord(chosen);
    r := NormalRound(word, guesses, graphics);
    RunOutcome(word, Tools.Blank(|word|), [], guesses, 0, graphics);
  }

  /** The loop of `PlayRound` for the lowercased word: each guess is read,
      a miss is recorded and checked for a loss, then the pattern is
      updated and checked for a win. */
  method NormalRound(word: string, guesses: seq<string>, graphics: bool) returns (r: RoundEnd)
    ensures r == Run(word, Tools.Blank(|word|), [], guesses, 0, graphics)
  {
    var progressWord := Tools.Blank(|word|);
    var wrongGuessed: seq<string> := [];
    ghost var target := Run(word, progressWord, wrongGuessed, guesses, 0, graphics);
    var k := 0;
    while k < |guesses|
      invariant k <= |guesses| && |progressWord| == |word|
      invariant target == Run(word, progressWord, wrongGuessed, guesses, k, graphics)
      decreases |guesses| - k
    {
      var letter := guesses[k];
      var probe := Tools.GetNewProgressWord(progressWord, letter, word);
      if probe == progressWord {
        wrongGuessed := wrongGuessed + [letter];
        if IsLost(graphics, wrongGuessed) {
          return RoundEnd(Lost, progressWord, wrongGuessed, k + 1);
        }
      }
      progressWord := Tools.GetNewProgressWord(progressWord, letter, word);
      k := k + 1;
      if progressWord == word {
        return RoundEnd(Won, progressWord, wrongGuessed, k);
      }
    }
    r := RoundEnd(Playing, progressWord, wrongGuessed, k);
  }

  // ---------------------------------------------------------------------
  // The word-length histogram (game.py:131-145)

  /** The length of every word, in list order. */
  function Lengths(words: seq<string>): (r: seq<nat>)
    ensures |r| == |words|
  {
    seq(|words|, i requires 0 <= i < |words| => |words[i]|)
  }

  /** The sorted histogram of lines 134-141. */
  function Histogram(words: seq<string>): seq<Entry<nat>> {
    SortByCountDesc(Tally.Tally(Lengths(words)))
  }

  /** What the histogram holds: exactly the distinct word lengths, each once,
      with the number of words of that length; counts sum to the number of
      words and do not increase; equal counts keep the order in which their
      lengths first appear. */
  lemma HistogramFacts(words: seq<string>)
    ensures var hist := Histogram(words);
            && (forall n :: n in Keys(hist) <==> n in Lengths(words))
            && Unique(Keys(hist))
            && (forall i :: 0 <= i < |hist| ==> 1 <= hist[i].count == Count(Lengths(words), hist[i].key))
            && Total(hist) == |words|
            && NonIncreasing(hist)
            && (forall c :: WithCount(hist, c) == WithCount(Tally.Tally(Lengths(words)), c))
  {
    HistogramKeys(words);
    HistogramCounts(words);
  }

  lemma HistogramKeys(words: seq<string>)
    ensures forall n :: n in Keys(Histogram(words)) <==> n in Lengths(words)
  {
    KeysOfPermutation(Tally.Tally(Lengths(words)), Histogram(words));
  }

  lemma HistogramCounts(words: seq<string>)
    ensures var hist := Histogram(words);
            forall i :: 0 <= i < |hist| ==> 1 <= hist[i].count == Count(Lengths(words), hist[i].key)
  {
    var t := Tally.Tally(Lengths(words));
    var hist := Histogram(words);
    forall i | 0 <= i < |hist| ensures 1 <= hist[i].count == Count(Lengths(words), hist[i].key) {
      assert hist[i] in multiset(t);
      var j :| 0 <= j < |t| && t[j] == hist[i];
    }
  }

  /** game.py:131-141: the histogram is built only in impossible mode; in
      normal mode it stays `{}`. */
  method WordLengthHistogram(mode: Mode, words: seq<string>) returns (hist: seq<Entry<nat>>)
    ensures mode == Normal ==> hist == []
    ensures mode == Impossible ==> hist == Histogram(words)
    ensures mode == Impossible ==> forall n :: n in Keys(hist) <==> n in Lengths(words)
    ensures mode == Impossible ==> Total(hist) == |words| && NonIncreasing(hist)
  {
    hist := [];
    if mode == Impossible {
      var wordLengths := CountLengths(words);
      hist := SortByCountDesc(wordLengths);
      HistogramKeys(words);
    }
  }

  /** The counting loop of game.py:134-138: a length seen for the first time
      is added with count 1, a known one has its count raised by one. */
  method CountLengths(words: seq<string>) returns (wordLengths: seq<Entry<nat>>)
    ensures wordLengths == Tally.Tally(Lengths(words))
  {
    ghost var lens := Lengths(words);
    wordLengths := [];
    for i := 0 to |words|
      invariant wordLengths == Tally.Tally(lens[..i])
    {
      TallyPrefix(lens, i);
      wordLengths := Bump(wordLengths, |words[i]|);
    }
    assert lens[..|words|] == lens;
  }

  /** game.py:145: impossible mode starts from `'_' * n` for the first
      length of the sorted histogram; with no words the lookup raises
      `IndexError`. */
  function ImpossibleStart(hist: seq<Entry<nat>>): Option<string> {
    if hist == [] then None else Some(Tools.Blank(hist[0].key))
  }

  /** The first entry of `WithCount(s, n)` is the first entry of `s` with
      count `n`. */
  lemma WithCountHead<K>(s: seq<Entry<K>>, n: nat) returns (j: nat)
    requires WithCount(s, n) != []
    ensures j < |s| && s[j] == WithCount(s, n)[0] && s[j].count == n
    ensures forall i :: 0 <= i < j ==> s[i].count != n
  {
    if s[0].count == n {
      j := 0;
    } else {
      var j' := WithCountHead(s[1..], n);
      j := j' + 1;
    }
  }

  /** Impossible mode starts from a pattern as long as the most frequent word
      length, the one appearing first among equally frequent lengths. */
  lemma ImpossibleStartIsMostFrequentLength(words: seq<string>)
    ensures words == [] ==> ImpossibleStart(Histogram(words)) == None
    ensures words != [] ==>
              var lens := Lengths(words);
              exists n :: && n in lens
                          && ImpossibleStart(Histogram(words)) == Some(Tools.Blank(n))
                          && (forall m :: Count(lens, m) <= Count(lens, n))
                          && (forall m :: m in lens && Count(lens, m) == Count(lens, n) ==>
                                IndexOf(FirstSeen(lens), n) <= IndexOf(FirstSeen(lens), m))
  {
    if words != [] {
      HeadIsMostFrequent(words);
      HeadIsFirstAmongTies(words);
      var n := Histogram(words)[0].key;
      assert ImpossibleStart(Histogram(words)) == Some(Tools.Blank(n));
    }
  }

  /** The first entry of the histogram is a length of largest count. */
  lemma HeadIsMostFrequent(words: seq<string>)
    requires words != []
    ensures var hist := Histogram(words);
            var lens := Lengths(words);
            && hist != []
            && hist[0].key in lens
            && hist[0].count == Count(lens, hist[0].key)
            && forall m :: Count(lens, m) <= hist[0].count
  {
    var lens := Lengths(words);
    var hist := Histogram(words);
    HistogramKeys(words);
    HistogramCounts(words);
    assert Total(hist) == |words|;
    assert hist != [];
    assert hist[0].key in Keys(hist) by { assert Keys(hist)[0] == hist[0].key; }
    forall m ensures Count(lens, m) <= hist[0].count {
      CountAbsent(lens, m);
      if m in lens {
        var i := IndexOf(Keys(hist), m);
        assert hist[i].key == m;
        assert NonIncreasing(hist);
        assert i == 0 || hist[0].count >= hist[i].count;
      }
    }
  }

  /** Among lengths as frequent as the first entry, none was seen earlier. */
  lemma HeadIsFirstAmongTies(words: seq<string>)
    requires Histogram(words) != []
    ensures var lens := Lengths(words);
            var n := Histogram(words)[0].key;
            && n in lens
            && forall m :: m in lens && Count(lens, m) == Count(lens, n) ==>
              IndexOf(FirstSeen(lens), n) <= IndexOf(FirstSeen(lens), m)
  {
    var lens := Lengths(words);
    var t := Tally.Tally(lens);
    var hist := Histogram(words);
    var c := hist[0].count;
    assert WithCount(hist, c)[0] == hist[0];
    assert WithCount(hist, c) == WithCount(t, c);
    var j := WithCountHead(t, c);
    var n := t[j].key;
    assert Keys(t)[j] == n;
    IndexOfUnique(Keys(t), j);
    forall m | m in lens && Count(lens, m) == Count(lens, n)
      ensures IndexOf(FirstSeen(lens), n) <= IndexOf(FirstSeen(lens), m)
    {
      var jm := IndexOf(Keys(t), m);
      assert t[jm].key == m;
    }
  }
}
