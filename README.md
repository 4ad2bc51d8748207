# Hangman solver and game, modelled in Dafny

The repository is a Hangman game with a helper that suggests letters. It also has a bot that plays Hangman against every word of a word list. This project models its core in Dafny 4.11:

- `tools.dfy` (module `Tools`) covers the helper library:
  - revealing a guessed letter in the pattern (`get_new_progress_word`);
  - filtering the word list down to the words that still fit the pattern and the wrong guesses (`get_possible_words`);
  - ranking the unguessed letters by how many remaining words contain them (`get_most_common_letters`, `get_word_analysis_meth1`);
  - the per-letter count of remaining words that `worker` computes.
- `bot.dfy` (module `Bot`) covers one move of the bot (`analyze_and_update`) and the self-play loop of `test_bot`.
- `game.dfy` (module `Game`) covers two parts of `Game`:
  - the normal-mode guess and its win and loss rules (`start`, `print_hangman`);
  - the word-length histogram that impossible mode starts from.
- `seqs.dfy`, `tally.dfy` and `ranking.dfy` hold the shared vocabulary:
  - an insertion-ordered counting dictionary, which is a Python `dict` filled by `d[k] = d.get(k, 0) + 1`;
  - Python's stable `sort(..., reverse=True)` on a count;
  - a few facts about sequences.
- `wrappers.dfy` holds `Option` and `Result`.

The word list is always a parameter. Reading it from a file is left out.

A pattern ("progress word") is a string as long as the solution. `_` marks a cell that is still hidden. A guess is a string, as the console reads it. A guess reveals a cell only when it is exactly that cell's one-character string. Lowercasing is ASCII plus the Latin-1 capitals, which covers the alphabet of the source, including `ä`, `ö` and `ü`.

Where the code computes step by step, the model is a method with loops. Each such method is proved equal to a specification function. The properties are then lemmas about that function.

## Model

| member | source | states |
|---|---|---|
| Tally.Bump | bot.py:67 | Incrementing a key changes only that key's count, by one, and appends a new key at the end with count 1. The total rises by one. Keys stay unique. |
| Tally.Tally | game.py:134-138 | The counting dictionary of a sequence has its keys in first-seen order. Each key's count is its number of occurrences, at least 1. The counts sum to the length. |
| Ranking.SortByCountDesc | tools.py:180 | A stable sort by count, largest first. The result does not increase and is a permutation of the input. Entries with equal counts keep their relative order. The total is unchanged. Unique keys stay unique. |
| Ranking.KeysOfPermutation | game.py:141 | Reordering the entries keeps the set of keys and keeps them unique. |
| Tools.ContainsLetter | tools.py:213 | For a one-character guess, the substring test `letter in word` is character membership. |
| Tools.ContainsEmpty | tools.py:213 | The empty string is a substring of every word. |
| Tools.Blank | bot.py:300 | `'_' * n` is n hidden cells. |
| Tools.Reveal | tools.py:33-45 | The revealed pattern has the solution's length. A cell changes only where the solution's character is exactly the guess, and then it shows that character. |
| Tools.GetNewProgressWord | tools.py:33-45 | The loop builds the reveal specification: the result has the solution's length. A cell equal to the guess shows the guess; every other cell keeps the old pattern's character. |
| Tools.RevealIdempotent | tools.py:33-45 | Revealing the same guess twice gives the same pattern as once. |
| Tools.RevealKeepsRevealed | tools.py:37-43 | A revealed cell never turns back into `_`, whatever letter other than `_` is guessed. |
| Tools.RevealAbsent | tools.py:37 | A letter the solution lacks leaves the pattern unchanged. |
| Tools.RevealUnchanged | tools.py:37-43 | The pattern is unchanged iff every cell holding the guess is already shown. |
| Tools.NormalizeWrong | tools.py:201-202 | The list `['']` becomes empty and every other list is kept as it is, so the result is empty iff the list was empty or `['']`. |
| Tools.Fits | tools.py:207-222 | A word that fits has the pattern's length, passes the cell test at every cell and agrees with every shown cell; a pattern with no hidden cell fits only itself. |
| Tools.Candidates | tools.py:209-222 | Every candidate has the pattern's length, contains no wrong guess and passes the cell test. |
| Tools.CellsFit | tools.py:214-222 | The cell loop accepts a word iff every cell fits: a hidden cell holds a letter that is not revealed anywhere in the pattern, and a shown cell equals the word's character. |
| Tools.GetPossibleWords | tools.py:200-224 | The loop builds `Candidates` over the list order. The `['']` wrong-guess list is treated as empty. |
| Tools.CandidatesMembers | tools.py:209-222 | A word is a candidate iff it is the lowercase form of a list word with the pattern's length and no wrong guess as a substring. Each revealed cell must equal the word's character, and each hidden cell must hold a letter not already revealed. |
| Tools.CandidatesInOrder | tools.py:207-222 | The candidates are a subsequence of the lowercased list: they keep the list's order. |
| Tools.CandidatesKeepRepeats | tools.py:207-224 | A word that fits occurs among the candidates as often as the lowercased list holds it; a word that does not fit never occurs. |
| Tools.EmptyWrongGuessRejectsAll | tools.py:201-213 | An empty wrong guess in any list other than `['']` rejects every word. |
| Tools.SingleLetterGuesses | tools.py:213 | With one-character wrong guesses, the substring test is "the word lacks every wrong letter". |
| Tools.ContainCount | tools.py:171-175 | The count of words containing a letter is at most the number of words. |
| Tools.CountContaining | tools.py:171-175 | The inner loop counts the words that contain the letter, each word once. |
| Tools.Allowed | tools.py:167-169 | The letters kept are exactly those not in the exclusion list, in alphabet order and without repeats. |
| Tools.Appearances | tools.py:165-177 | One `[letter, count]` entry per allowed letter, in alphabet order. The count is the number of words containing that letter. |
| Tools.RankingFacts | tools.py:165-180 | After the sort, every entry is an allowed letter with the number of words containing it, at most the number of words. Every allowed letter is a key, and no key repeats. |
| Tools.GetMostCommonLetters | tools.py:150-181 | The result is the stable descending sort of `Appearances`. Every entry is an allowed letter with its containing-word count, every allowed letter appears exactly once, the counts do not increase, and equal counts keep alphabet order. |
| Tools.RevealedStrings | tools.py:243 | Membership in the list of revealed letters is membership in the pattern's non-`_` characters. |
| Tools.NonIncluded | tools.py:247 | A letter is excluded iff it is revealed or is a wrong guess. |
| Tools.GetWordAnalysisMeth1 | tools.py:227-248 | The result is the candidates, plus the ranking of the letters that are neither revealed nor wrong. Each count is a number of candidates, the ranking does not increase, and its head has the largest count. |
| Tools.CandidatesSameWrong | tools.py:240-241 | Normalising `['']` again before `get_possible_words` does not change the candidates. |
| Tools.HypothesisSurvives | tools.py:266-268 | A candidate stays a candidate after revealing any guess as if it were the solution. |
| Tools.HypothesisNarrows | tools.py:266-268 | Every candidate after that reveal was a candidate before. |
| Tools.CandidatesShrink | tools.py:266-268 | Revealing a letter of a hypothesis never increases the number of candidates. |
| Tools.HypothesisBounds | tools.py:266-269 | For a hypothesis among the candidates, the re-filtered count lies between 1 and the current number of candidates, so `log2` at line 269 never divides by zero. |
| Tools.LetterInformation | tools.py:264-273 | For a letter of the hypothesis, the result is the number of candidates left after revealing that letter as if the hypothesis were the solution. For any other letter it is zero information. |
| Tools.InformationForFacts | tools.py:263-273 | One entry per allowed letter, in alphabet order. An entry carries a re-filtered count iff its letter is in the hypothesis, and that count is the number of candidates after revealing the letter; any other letter carries zero information. |
| Tools.InformationBounds | tools.py:266-269 | For a hypothesis among the candidates, every re-filtered count lies between 1 and the current number of candidates. |
| Tools.Worker | tools.py:251-275 | One result per letter of the alphabet that is neither revealed nor wrong, in alphabet order. A letter of the hypothesis carries the count of words left after revealing it; any other letter carries zero. For a hypothesis among the candidates, every count lies in `[1, len(possible_words)]`. |
| Tools.SingleCandidateNoInformation | tools.py:269 | With a single candidate, every letter leaves exactly that candidate, which is zero bits. |
| Bot.LengthMatching | bot.py:56 | Every word kept has the pattern's length. |
| Bot.LengthMatchingMembers | bot.py:56 | A word is kept iff it is the lowercase form of a list word of the pattern's length. |
| Bot.LengthMatchingIsBlankCandidates | bot.py:56 | The length-matched words are exactly the candidates of `get_possible_words` for an all-hidden pattern of that length and no wrong guess. |
| Bot.LengthMatchingOrderAndRepeats | bot.py:56 | The length-matched words are a subsequence of the lowercased list, so they keep its order, and each word of the pattern's length occurs as often as in the lowercased list; no other word occurs. |
| Bot.FilterPopWithoutRevealed | bot.py:59-61 | With no letter revealed, the filter as written never pops and equals the intended filter. |
| Bot.FilterPopRaisesOnSecondWord | bot.py:55-61 | The filter as written (`Bot.FilterPop`) pops the shared set at every revealed cell. For words `abc`, `abd`, pattern `a__` and no wrong guesses, it raises `KeyError` on the second word. |
| Bot.FilterIntended | bot.py:59-61 | The intended filter keeps a subsequence of its input. |
| Bot.FilterIntendedMembers | bot.py:59-61 | A word passes iff it contains no wrong guess and agrees with every revealed cell. |
| Bot.FilterIntendedKeepsRepeats | bot.py:59-67 | A passing word is kept as often as it occurs in the length-matched words, and a word that does not pass never occurs, so the letter counts see every repeat. |
| Bot.FilterIntendedKeepsBoth | bot.py:59-61 | On the input above, the intended filter keeps both words. |
| Bot.CountFlatten | bot.py:65-67 | Occurrences over the concatenated words are the sum over the words. |
| Bot.TallyOccurrences | bot.py:64-67 | The nested loop's dictionary gives each letter its total number of occurrences in the remaining words. |
| Bot.CountLetters | bot.py:64-67 | The nested loop builds the counting dictionary of the concatenated remaining words. Its keys are the letters in first-seen order, each with its number of occurrences. |
| Bot.CountWord | bot.py:66-67 | The loop over one word's characters turns the counts of the text so far into the counts of that text followed by the word. |
| Bot.FirstMaxIndex | bot.py:68 | The index of a largest count, the first such index. |
| Bot.SelectMax | bot.py:68 | `max(d, key=d.get)`: an empty dictionary raises `ValueError`. Otherwise the result is the first key with the largest count. |
| Bot.MostFrequent | bot.py:63-68 | `None` iff the text is empty. Otherwise the result is a character of the text with the largest count. Ties go to the one seen first. |
| Bot.MostFrequentOfWords | bot.py:63-68 | The chosen letter occurs in some remaining word, no character occurs more often over all remaining words, and among equally frequent characters it is the one seen first. |
| Bot.DistinctMostFrequent | bot.py:63-68 | In a text whose characters are all distinct, every count is 1 and the first character is chosen. |
| Bot.StepChoosesMostFrequent | bot.py:52-80 | The intended move, with the filter of `Bot.FilterIntended`, fails iff every remaining word is empty, and then with `ValueError`. Otherwise the letter chosen occurs in a remaining word, no letter occurs more often over the remaining words, and among equally frequent letters it is the one seen first. The new pattern reveals that letter where the solution has it and keeps every other cell. |
| Bot.ChooseLetter | bot.py:52-68 | Filtering with the intended filter (`Bot.FilterIntended`), counting and the maximum together compute `MostFrequent` of the remaining words' letters. |
| Bot.RebuildPattern | bot.py:71-78 | The rebuilt pattern has the solution's length. Where the solution has the chosen letter it shows that letter; elsewhere it keeps the old cell. This equals `get_new_progress_word` for that letter. |
| Bot.AnalyzeAndUpdate | bot.py:36-80 | One move equals the specification `Step`, with the intended filter. |
| Bot.SelfPlay | bot.py:300-307 | The loop equals `Play` from the all-hidden pattern. When solved, the pattern is the word and the number of moves lies between 1 and the move bound. |
| Bot.TestBot | bot.py:285-307 | The words are played in list order. Each outcome is that of playing the word, lowercased, from its own all-hidden pattern with an empty wrong-guess list (`Bot.PlayWord`). Every outcome but the last is solved, and the run reaches the end of the list unless its last outcome is an exception or a loop that does not end, after which no later word is played. |
| Bot.StallsAt | bot.py:302-307 | A pattern short of the word that one round maps back to itself is never left: every move bound runs out. |
| Bot.SingleWordStalls | bot.py:298-307 | For a list holding just one word of two or more distinct lowercase letters, self-play runs out of every move bound. The first round reveals the first letter, and every later round picks it again. On that input the filter as written agrees with the intended one (`Bot.FilterPopWithoutRevealed` for the first round, `Bot.SingleWordPopAgrees` for the later ones). |
| Bot.SingleWordPopAgrees | bot.py:55-61 | On the pattern such a word is stuck at, the set of shown letters is its first letter alone, and the filter as written pops it once and keeps the word, exactly as the intended filter does. |
| Bot.CatStalls | bot.py:298-307 | The list `["cat"]` is such an input: playing `cat` never ends. |
| Bot.FixedStep | bot.py:52-80 | The corrected move fails iff every letter of the remaining words has been tried; otherwise it picks a letter of the remaining words that was not tried. |
| Bot.FixedRound | bot.py:302-307 | In the corrected loop, a round before the word is solved always succeeds. It keeps the pattern and the recorded misses consistent with the word. It tries a letter of the remaining words that was not tried before, and the tried letters grow by exactly that letter. |
| Bot.FixedSelfPlay | bot.py:298-307 | The corrected loop ends on every word with a character and no `_`. It stops with the pattern equal to the word after at least one round and at most as many rounds as the words of that length have distinct characters. Every recorded miss is a letter the word lacks. |
| Game.IsLost | game.py:112-115 | With fewer wrong guesses than pictures the round is not lost; with graphics on, the eleventh wrong guess loses it; without graphics it is never lost. |
| Game.Guess | game.py:160-167 | The new pattern has the solution's length. |
| Game.GuessRecordsMiss | game.py:161-167 | A guess is appended to the wrong guesses iff every cell of the solution holding it is already shown. Otherwise the wrong guesses are unchanged, and the pattern stays consistent with the solution. |
| Game.RepeatedGuessIsMiss | game.py:161-162 | Guessing the same letter a second time is always recorded as a miss. |
| Game.AbsentLetterIsMiss | game.py:161-162 | A letter the solution lacks is recorded as a miss, and the pattern stays as it was. |
| Game.RunOutcome | game.py:150-204 | A round is won iff it ends with the whole word shown, provided the word was not already shown before the first guess. It is lost iff graphics are on and exactly eleven guesses were wrong. It stays open only when every guess was read. The pattern agrees with the solution throughout. The wrong guesses only grow by appending, by at most one per guess and to at most eleven with graphics on, so every picture index `len(wrong_guessed) - 1` drawn on the way is in range. |
| Game.PlayRound | game.py:147-204 | The normal-mode round equals `Run` from the all-hidden pattern of the lowercased word. After at least one guess it is won iff the whole word is shown, and with graphics on it never holds more than eleven wrong guesses. |
| Game.NormalRound | game.py:150-197 | The loop of reading a guess, recording a miss, checking the loss, revealing and checking the win equals `Run` from the all-hidden pattern. |
| Game.Lengths | game.py:134-135 | There are as many lengths as words. |
| Game.CountLengths | game.py:134-138 | The counting loop builds the counting dictionary of the word lengths, in first-seen order. |
| Game.HistogramFacts | game.py:131-141 | The sorted histogram holds exactly the distinct word lengths, each once, with its number of words. The counts sum to the number of words and do not increase, and equal counts keep first-seen order. |
| Game.HistogramKeys | game.py:134-141 | A length is a key of the sorted histogram iff some word has that length. |
| Game.HistogramCounts | game.py:134-141 | Every entry's count is the number of words of its length, and at least 1. |
| Game.HeadIsMostFrequent | game.py:141-145 | With at least one word, the first key is a word length, and no length has more words. |
| Game.HeadIsFirstAmongTies | game.py:141-145 | Among lengths with as many words as the first key, none was seen before it. |
| Game.WordLengthHistogram | game.py:131-141 | In normal mode the dictionary stays empty. In impossible mode the loop builds the sorted histogram, with the properties above. |
| Game.ImpossibleStartIsMostFrequentLength | game.py:141-145 | Impossible mode starts from a blank pattern of the most frequent word length. Among equally frequent lengths it takes the one seen first. With no words there is no start: the source raises `IndexError`. |

## Left out

- Reading the word list (`txt2list`, the `open` in `test_bot`), console input and output, `rich` and `pygame` rendering, timing and the progress bars are left out. The word list and the typed letters are parameters.
- `random.choice` at game.py:147 is left out; the chosen word is the parameter `chosen` of `Game.PlayRound`.
- The impossible-mode guess (game.py:168-195) is left out. It counts words, calls `get_word_analysis_meth1` with a fixed file and prints a dictionary. Only its histogram and its starting pattern are modelled.
- The quit and replay dialogs (game.py:154-158, 116-122, 200-204) are left out. A round ends at its win or loss, whatever the player answers. An empty letter is an ordinary guess, as happens when the player declines to quit.
- The outer `while True` of `start`, which starts a new round, is left out.
- `get_word_analysis_meth2`, `Pool`, `get_average`, `get_letter_averages` and `remove_non_valid` are left out. They are not part of the modelled core.
- Tools.Worker: does not compute `math.log2`. It returns the re-filtered count, and `Information.Absent` stands for the literal `0`; floating point is not modelled. The revealed-letter list that the caller passes in is derived from the pattern, which is what `get_word_analysis_meth2` passes.
- Tools.RevealedStrings: `list(set(...))` has an unspecified order. The model keeps pattern order (with repeats), and only membership in it is ever used.
- Tools.LowerWord: only ASCII and Latin-1 capitals are lowered. Other Unicode case mappings of `str.lower` are left out.
- Bot.ChooseLetter: filters with `Bot.FilterIntended`, not the `set.pop()` comparison of bot.py:61, so the `KeyError` that comparison can raise is not among its failures.
- Bot.StepChoosesMostFrequent: states the intended move, with `Bot.FilterIntended`; the `KeyError` of the `set.pop()` filter as written (`Bot.FilterPopRaisesOnSecondWord`) is not among its failures.
- Bot.AnalyzeAndUpdate: uses the intended filter (`Bot.FilterIntended`), not the `set.pop()` filter as written. The as-written filter is `Bot.FilterPop`, with the iteration order of the set as an explicit parameter, because a Python set's order is not specified.
- Bot.SelfPlay: the source loop has no bound. The model gives it a move bound (`fuel`) and returns `OutOfFuel` when the bound runs out.
- Bot.TestBot: takes the same move bound for every word. A word that runs out of the bound ends the run, as a loop that never ends would; a word that the source would solve in more rounds than the bound is reported as out of bound too. `Bot.SelfPlay` and `Bot.TestBot` model the loop as written around the intended step (`Bot.Step`), so the `KeyError` of the filter as written is not among their outcomes; `Bot.FixedSelfPlay` is the corrected loop, defined beside it. The loop that `wrong_guessed` never updates is modelled as written, with the list staying empty. Stripping whitespace from the lines is left out with the file reading.
- Bot.FixedSelfPlay: covers only a line of the list whose lowercase form is non-empty and has no `_`. `test_bot` plays lines of its own list, so the first condition always holds; an empty line or a word containing `_` is not covered. It uses the intended filter, and it returns the round count, not the timing output.
- Game.PlayRound: `print_hangman` draws `hangman_ascii[len(wrong_guessed) - 1]`; only that the index stays in range is proved (`Game.RunOutcome`), and the drawing is left out.
- Ranking.SortByCountDesc: models `list.sort` and `sorted` on values. The in-place update of the Python list is not modelled.

## Findings

| source | as written | input that shows it | evidently intended | confidence | as-written member | corrected member |
|---|---|---|---|---|---|---|
| bot.py:55-61 | At each revealed cell, the filter compares the word's character with `guessed_letters.pop()`. This removes an arbitrary letter from the one set shared by all words. Once the set is empty, the next revealed cell raises `KeyError`. | Words `abc`, `abd`, pattern `a__`, no wrong guesses: the first word empties the set `{'a'}`, and the second raises `KeyError`. | Each revealed cell is compared with the pattern's own character at that cell, so both words are kept. | not executed | Bot.FilterPopRaisesOnSecondWord | Bot.FilterIntendedKeepsBoth |
| bot.py:298-307 | The loop keeps no record of the letters it tried, and it never adds a miss to `wrong_guessed`. A round can therefore choose a letter that is already shown, leave the pattern unchanged, and do the same again forever. | The list `["cat"]` and the word `cat`: the first round reveals `c`, and every later round chooses `c` again. The filter as written keeps `cat` in every round, so its `KeyError` does not arise here. | Choose only letters not tried yet and record each miss; then every round tries a new letter of the remaining words, and the loop ends. | not executed | Bot.SingleWordStalls | Bot.FixedSelfPlay |
