# qb-bot core in Dafny

A model of the game logic of qb-bot, a Discord bot for quiz-bowl practice
that fetches questions from the QB Reader random-question API:

- **Reveal** — `Tossup.generate_lines`: a tossup's text is cut into lines
  that each show five more words than the last. When power watching is on,
  one extra line ends exactly at the first `(*)` power mark.
- **Buzz** — `Tossup.play_tossup`. The reader shows lines and clears the
  power flag once a shown line passes the mark. The buzz-and-answer
  dialogue turns a player's messages and the judge's verdicts into one of
  `power`, `correct`, `neg`, `dead` or `ended by user`.
- **Tk** — the `tk` session: tossups played back to back, a counter per
  outcome, the end command (during a tossup or in the pause after one), and
  `send_tk_end_stats` (the total, the points and the points per twenty
  tossups heard, PP20TUH).
- **Tables, DifficultyFilter, CategoryFilter, Params** — the filter parser
  in `bot/lib/utils.py` over the tables in `bot/lib/consts.py`:
  - `parse_int_range` turns difficulty tokens (`n`, `n-`, `n-m`, `n+`,
    `<n`, `<=n`, `>n`, `>=n`) into a sorted set of difficulties between 0
    and 10;
  - `parse_subcats` greedily merges words into multi-word aliases, resolves
    each name or alias (ignoring case and spaces) to its subcategories, and
    returns them sorted and without duplicates;
  - `generate_params` sends each argument to the digit group or the letter
    group, or rejects it.
- **AliasIndex** — the alias table has no collisions: ignoring case and
  spaces, no name of one entry is a name of another. So the first-match
  loop of `parse_subcats` does not depend on the table's order, and every
  key or alias resolves to its own key's subcategories.
- **BonusPlay** — `Bonus.play_bonus` (every part in turn; 10 points per
  accepted answer; prompts; the `>end` command; messages starting with `_`
  ignored) and the `pk` session totals.

The modules Wrappers (Option/Result), Text (the Python `str` operations
used: `strip`, `split`, `join`, `startswith`, `lower`, `int()`, `str()`,
code-point ordering), Sorting (`sorted(set(...))` as insertion into an ascending list
without duplicates) and Parsing (`sum(map(parse, tokens), [])`) are shared
helpers.

Where the source loops over local variables, the model is a `method` with a
`while` or `for` loop. Such a method is proved equal to a recursive
specification function, and the source's promises are proved as lemmas
about that function:

- `GenerateLines`, `ReadTossup`, `ListenForAnswer`, `PlayTossup`;
- `TkSession`;
- `MergeAliases`, `ParseSubcats`, `GenerateParams`;
- `AnswerPart`, `PlayBonus`, `PkSession`.

No source object is updated field by field, so there are no classes. The
only mutable state lives in local variables and `asyncio.Event` flags, and
those become loop variables.

Things the program reads from outside become parameters:

- Every `wait_for` is the next item of a script `seq<Event>`: a message's
  content, or `Timeout`. Running out of the script is a timeout.
- `check_answer` is a function parameter `judge(answerKey, answer)` that
  returns `Accept`, `Reject` or `Prompt`.
- The command prefix is a parameter.
- The moment of the first buzz is an input: `NoBuzz` means the reader
  finished first; `BuzzAfter(shown, message)` means the buzz came after
  `shown` lines.

## Model

| member | source | states |
|---|---|---|
| Reveal.Words | bot/exts/tossup.py:41 | splitting the stripped text on spaces (newlines replaced by spaces) gives at least one word, even for empty text |
| Reveal.ReadStride | bot/exts/tossup.py:45-58 | one iteration of the `for i in range(0, len(text), chunk_size)` body: the lines it appends (the power line, then `text[:i+chunk_size]`) and the new `seen_power` |
| Reveal.ChunkWords | bot/exts/tossup.py:42-60 | the loop over all strides appends exactly the chunks at the cut positions the stride rule gives |
| Reveal.GenerateLines | bot/exts/tossup.py:19-60 | `generate_lines(text, chunk_size, watch_power)` returns the specification's lines for the normalised word list |
| Reveal.CutsShape | bot/exts/tossup.py:45-58 | the word counts of successive lines strictly increase, all lie in 1..len(words), and the last is len(words) |
| Reveal.LastLine | bot/exts/tossup.py:41-58 | the last line is the whole stripped question with newlines replaced by spaces |
| Reveal.LineCount | bot/exts/tossup.py:45-56 | there are ceil(words / chunk_size) lines, plus one exactly when a power line is inserted |
| Reveal.StrideCountCeil | bot/exts/tossup.py:45 | the number of strides of `range(0, n, size)` is the least k with k*size >= n |
| Reveal.LinesGrow | bot/exts/tossup.py:47-58 | each line's words are a proper prefix of the next line's, and all are prefixes of the question's words |
| Reveal.PowerLine | bot/exts/tossup.py:49-54 | when a power line is inserted, some line is exactly the words up to and including the first `(*)` |
| Reveal.InsertsPowerCut | bot/exts/tossup.py:49-58 | the inserted cut sits just after the first `(*)`, and the next cut ends the stride that holds it, whose last word does not end with `(*)` |
| Reveal.ChunkSplit | bot/exts/tossup.py:54-58 | splitting a joined chunk on spaces gives back its words |
| Buzz.PowerFlagClosed | bot/exts/tossup.py:92-127 | after some lines are shown, `can_power` is set iff the question has a `*` and no shown line has a `*` without ending in `(*)` |
| Buzz.PowerFlagNeverSet | bot/exts/tossup.py:123-127 | once cleared, the power flag stays cleared as more lines are shown |
| Buzz.ReadTossup | bot/exts/tossup.py:112-130 | the reader loop's `can_power` after `shown` lines equals the flag specification, and `tu_finished` is set iff every line was shown |
| Buzz.Miss | bot/exts/tossup.py:205-259 | a missed answer is `dead` after the reader finished and `neg` before |
| Buzz.ListenForAnswer | bot/exts/tossup.py:186-260 | the answer wait and the `while True` verdict loop compute the dialogue's outcome |
| Buzz.PromptsReopen | bot/exts/tossup.py:240-252 | a run of prompted answers leaves the outcome to the answer that follows them |
| Buzz.AnswerFlags | bot/exts/tossup.py:205-259 | `power` only while the flag is set, `correct` only when it is not, `neg` only before the reader finished, `dead` only after |
| Buzz.EndWins | bot/exts/tossup.py:209-219 | an answer starting with prefix + `end` ends the tossup before the judge is asked |
| Buzz.FirstDecisive | bot/exts/tossup.py:209-238 | `power` or `correct` means some answer was accepted and every earlier answer was prompted |
| Buzz.PlayTossup | bot/exts/tossup.py:81-284 | `play_tossup` with the lines from `generate_lines(question, 5)` equals the specification: no buzz is `dead`; a buzz with the end command is `ended by user`; otherwise the dialogue decides |
| Buzz.PlayOutcomes | bot/exts/tossup.py:62-280 | no buzz is `dead`; `power` needs a `*` in the question and no clearing line shown before the buzz; `neg` needs a buzz before the last line |
| Buzz.StarFreeChunk | bot/exts/tossup.py:123 | a line made of `*`-free words does not clear the power flag |
| Buzz.PowerLinesAroundMark | bot/exts/tossup.py:49-127 | the inserted power line does not clear the flag, and the line after it does |
| Buzz.ChunkFlags | bot/exts/tossup.py:45-127 | with no `*` before the mark, every line up to the power line keeps the flag and the next clears it |
| Buzz.PowerWindow | bot/exts/tossup.py:45-127 | the flag is set while the line ending at the power mark is the last line shown, and is cleared once the next line is shown |
| Buzz.FlagWindow | bot/exts/tossup.py:114-127 | if line k+1 is the first line that clears the flag, the flag is set after 0 to k+1 lines are shown (that is, through line k) and clear once line k+1 is shown |
| Tk.RecordAddsOne | bot/exts/tossup.py:361-377 | recording a non-end outcome adds one tossup and the outcome's value (15, 10, -5, 0) to the points |
| Tk.TkSession | bot/exts/tossup.py:351-391 | the session loop's counters and its end equal the specification run |
| Tk.Played | bot/exts/tossup.py:355-377 | the outcomes a session counts never include the end outcome |
| Tk.RunCounts | bot/exts/tossup.py:351-377 | each counter grows by the number of tossups with that outcome; the total grows by the tossups played; the points by the sum of their values |
| Tk.RunEnds | bot/exts/tossup.py:357-391 | a session ends iff some tossup was ended by the user or followed by the end command in the pause |
| Tk.EndStats | bot/exts/tossup.py:315-337 | the total and the points of `send_tk_end_stats`; PP20TUH is present iff a tossup was played, and then PP20TUH × total = 20 × points |
| Tk.RateBounds | bot/exts/tossup.py:325-330 | PP20TUH lies between -100 (all negs) and 300 (all powers) |
| Tk.EndStatsExample | bot/exts/tossup.py:318-330 | one tossup of each kind gives 4 tossups, 20 points and PP20TUH 100 |
| Tables.CategoriesTable | bot/lib/consts.py:16-56 | the subcategory table has a non-empty list for exactly the twelve categories |
| Tables.SubcategoryCounts | bot/lib/consts.py:30-47 | Literature has 6 subcategories, History 5, Science 5, Fine Arts 3 |
| Tables.SingleSubcategories | bot/lib/consts.py:48-55 | the last eight categories are their own single subcategory |
| Tables.AliasLayout | bot/lib/consts.py:57-89 | the alias table lists each of the four large categories followed by its subcategories, then the eight single ones |
| Tables.AliasKeysValid | bot/lib/consts.py:16-89 | every alias key is a category or a subcategory of one |
| Tables.AliasCoverage | bot/lib/consts.py:16-89 | every category and every subcategory has an alias entry |
| Tables.FlattenHas | bot/lib/consts.py:90 | a string is in the flattened list iff some inner list holds it |
| Tables.AllAliasesMembers | bot/lib/consts.py:90 | `ALL_ALIASES` holds exactly the aliases of all entries |
| Sorting.InsertFacts | bot/lib/utils.py:68 | inserting into an ascending duplicate-free list keeps it so and adds exactly the new element |
| Sorting.SortedSetFacts | bot/lib/utils.py:68 | `sorted(set(xs))` is strictly ascending and has exactly the elements of `xs` |
| Sorting.AscendingUnique | bot/lib/utils.py:68 | two strictly ascending lists with the same elements are equal, so the sorted set is determined by its elements |
| Sorting.SortedSetOfAscending | bot/lib/utils.py:68 | an already strictly ascending list is its own sorted set |
| Parsing.ParseAllFacts | bot/lib/utils.py:68 | `sum(map(parse, tokens), [])` succeeds iff every token parses; it then holds exactly the parsed values; otherwise the error is the first failing token's |
| Text.CodeLessTotal | bot/lib/utils.py:123 | Python's string ordering (by code point, a proper prefix first) is total |
| Text.CodeLessTransitive | bot/lib/utils.py:123 | that ordering is transitive |
| Text.JoinSplit | bot/exts/tossup.py:41-58 | joining the pieces of a split with the same separator gives the string back |
| Text.SplitJoin | bot/exts/tossup.py:41-58 | splitting a join of separator-free pieces gives the pieces back |
| Text.ParseShowNat | bot/lib/utils.py:46-66 | `int(str(n)) == n` for every natural number |
| DifficultyFilter.Range | bot/lib/utils.py:46-64 | `list(range(lo, hi))` has hi - lo elements (none when hi <= lo), the k-th being lo + k |
| DifficultyFilter.RangeHas | bot/lib/utils.py:46-64 | d is in `range(lo, hi)` iff lo <= d < hi |
| DifficultyFilter.IntLessStrict | bot/lib/utils.py:68 | integer `<` is a strict total order |
| DifficultyFilter.ParseIntRangeFacts | bot/lib/utils.py:42-72 | on success: ascending, within 0-10, and d is in the result iff some token admits it. "Invalid difficulty" iff every token parses but some admitted value is outside 0-10. A token error iff some token does not parse |
| DifficultyFilter.BelowStrictToken | bot/lib/utils.py:48 | `<n` gives 0..n-1 |
| DifficultyFilter.UptoToken | bot/lib/utils.py:46 | `<=n` gives 0..n |
| DifficultyFilter.AboveStrictToken | bot/lib/utils.py:54 | `>n` gives n+1..10 |
| DifficultyFilter.FromToken | bot/lib/utils.py:52 | `>=n` gives n..10 |
| DifficultyFilter.SpanToken | bot/lib/utils.py:56-59 | `n-m` gives n..m |
| DifficultyFilter.SpanOf | bot/lib/utils.py:56-59 | `a-b` with two integers a, b gives a..b |
| DifficultyFilter.DashToken | bot/lib/utils.py:56-59 | a token that splits on `-` into a start and a non-empty end is parsed as the span between them |
| DifficultyFilter.BelowToken | bot/lib/utils.py:60-61 | `n-` gives 0..n-1 |
| DifficultyFilter.OnwardToken | bot/lib/utils.py:63-64 | `n+` gives n..10 |
| DifficultyFilter.SingleToken | bot/lib/utils.py:65-66 | `n` gives [n] |
| DifficultyFilter.Numeral | bot/lib/utils.py:44-66 | a plain numeral has no sign, dash, plus or comparison, and `int` reads it back |
| DifficultyFilter.Plain | bot/lib/utils.py:65-66 | one plain token per difficulty |
| DifficultyFilter.RoundTrip | bot/lib/utils.py:42-72 | parsing the plain numerals of a parsed result gives the same result |
| DifficultyFilter.RangeAscending | bot/lib/utils.py:46-64 | every range is strictly ascending |
| DifficultyFilter.OneToken | bot/lib/utils.py:68-72 | one token with an ascending value gives that value if it lies in 0-10, else "Invalid difficulty" |
| DifficultyFilter.FromPastTenPasses | bot/lib/utils.py:52-72 | `>=n` with n > 10 gives the empty list, not an error |
| DifficultyFilter.PastTenFails | bot/lib/utils.py:65-72 | a single difficulty above 10 is "Invalid difficulty" |
| DifficultyFilter.UptoPastTenFails | bot/lib/utils.py:46-72 | `<=n` with n > 10 is "Invalid difficulty" |
| DifficultyFilter.BelowExcludesBound | bot/lib/utils.py:60-72 | `n-` gives 0..n-1, which does not contain n |
| CategoryFilter.Absorb | bot/lib/utils.py:101-107 | absorbing the following words leaves a suffix of them |
| CategoryFilter.Merge | bot/lib/utils.py:100-109 | merging never lengthens the word list and empties it only when it was empty |
| CategoryFilter.AbsorbFollowing | bot/lib/utils.py:101-107 | the inner `while` loop (join with the next word while the result is an alias, pop that word) leaves the words before `index` alone and computes the absorb specification |
| CategoryFilter.MergeAliases | bot/lib/utils.py:100-109 | the `for index, cat in enumerate(subcats)` loop over the list it pops from computes the merge specification |
| CategoryFilter.MergeStep | bot/lib/utils.py:100-109 | the merge takes the first word's absorption, then merges what is left |
| CategoryFilter.Pop | bot/lib/utils.py:106 | `subcats.pop(index + 1)` removes exactly that element |
| CategoryFilter.Settle | bot/lib/utils.py:109 | `subcats[index] = cat` replaces exactly that element |
| CategoryFilter.AbsorbJoin | bot/lib/utils.py:102-106 | absorbing only regroups words: joined with spaces, the text is unchanged |
| CategoryFilter.MergeJoin | bot/lib/utils.py:100-109 | merging only regroups words: joined with spaces, the text is unchanged |
| CategoryFilter.MergeTokens | bot/lib/utils.py:100-109 | every merged token is an input word or an alias |
| CategoryFilter.AbsorbPhrase | bot/lib/utils.py:102-105 | the absorbed token is the original word or an alias |
| CategoryFilter.Lookup | bot/lib/utils.py:112-116 | the entry found matches the token (ignoring case and spaces) and no earlier entry does |
| CategoryFilter.Resolve | bot/lib/utils.py:111-121 | "Invalid category: s" iff no alias entry matches; otherwise a non-empty list of subcategories |
| AliasIndex.OwnerAt | bot/lib/consts.py:57-89 | every name of entry k (its key and each alias), folded, has owner k |
| AliasIndex.NoCollisions | bot/lib/consts.py:57-89 | two names of the alias table that are equal ignoring case and spaces belong to the same entry |
| AliasIndex.MatchUnique | bot/lib/utils.py:112-116 | no token matches two entries of the alias table |
| AliasIndex.LookupMatch | bot/lib/utils.py:112-116 | the first-match loop returns whichever entry the token matches, so the order of the table does not matter |
| AliasIndex.ResolveName | bot/lib/utils.py:112-120 | resolving any key or alias of the table gives its own key's subcategories, or the key itself when the key is a subcategory |
| CategoryFilter.CodeOrder | bot/lib/utils.py:123 | the string ordering used by `sorted` is a strict total order |
| CategoryFilter.CollectFacts | bot/lib/utils.py:123 | for any parser with non-empty results: success iff all tokens parse; the result is ascending, empty only for no tokens, and holds exactly the parsed values; otherwise the first failing token's error |
| CategoryFilter.ParseSubcats | bot/lib/utils.py:100-123 | `parse_subcats` resolves the merged tokens to their sorted set of subcategories |
| CategoryFilter.ResolvedFacts | bot/lib/utils.py:111-123 | success iff every token resolves. Then the result is ascending, empty only for no tokens, and holds exactly the tokens' subcategories. Otherwise the error names the first token that fails |
| CategoryFilter.ResolvedSubcategories | bot/lib/utils.py:117-123 | everything `parse_subcats` returns is a subcategory in the tables |
| Params.Route | bot/lib/utils.py:143-152 | routing fails, with "Invalid argument", iff some argument has no decimal digit and is not all letters |
| Params.RouteKinds | bot/lib/utils.py:143-150 | difficulty tokens all have a digit, category words are all letters and digit-free, and together they are the arguments |
| Params.RouteAppend | bot/lib/utils.py:143-150 | routing keeps the arguments' order within each group |
| Params.RouteGroups | bot/lib/utils.py:143-160 | a group is non-empty (its key is set) iff some argument of its kind was given |
| Params.Optionally | bot/lib/utils.py:156-160 | an empty group adds no key; a present group adds its parse result or fails with its error |
| Params.AssembleFacts | bot/lib/utils.py:138-165 | the dict keeps the question type. Each key is present iff its group is non-empty, holding the parsed value. A difficulty error is raised before a category error |
| Params.GenerateParams | bot/lib/utils.py:126-165 | `generate_params` routes the arguments and assembles the dict from the two parsers |
| Params.GenerateRejects | bot/lib/utils.py:151-152 | an invalid argument fails the call before either parser runs |
| BonusPlay.Pairs | bot/exts/bonus.py:44-47 | `zip(parts, keys)` pairs the i-th part with the i-th formatted answer (or answer), as many as the shorter list |
| BonusPlay.Wait | bot/exts/bonus.py:55-63 | the wait skips exactly the messages starting with `_` and returns the next other message or the timeout |
| BonusPlay.Part | bot/exts/bonus.py:55-99 | a part scores 0 or 10 |
| BonusPlay.Attempt | bot/exts/bonus.py:65-99 | judging an answer scores 0 or 10 |
| BonusPlay.AnswerPart | bot/exts/bonus.py:55-99 | the wait and the verdict loop of one part compute the part specification |
| BonusPlay.PromptsKeepPart | bot/exts/bonus.py:55-99 | a run of ignored or prompted messages does not change how the part ends |
| BonusPlay.PlayBonus | bot/exts/bonus.py:17-101 | `play_bonus` over the paired parts equals the bonus specification |
| BonusPlay.PlayPoints | bot/exts/bonus.py:22-101 | the points returned are the starting points plus a multiple of 10, at most 10 per part |
| BonusPlay.BonusPoints | bot/exts/bonus.py:22-101 | a bonus scores a multiple of 10, at most 10 per paired part |
| BonusPlay.SkipIgnored | bot/exts/bonus.py:55-63 | a message starting with `_` changes nothing |
| BonusPlay.EndDiscards | bot/exts/bonus.py:67-68 | an answer starting with `>end` ends the bonus, discarding its points |
| BonusPlay.VerdictPoints | bot/exts/bonus.py:70-87 | an accepted answer adds 10 and a rejected one adds 0, and play moves to the next part |
| BonusPlay.PkSession | bot/exts/bonus.py:135-154 | the `pk` loop's totals equal the session specification |
| BonusPlay.PkTotals | bot/exts/bonus.py:135-152 | the session counts at most one bonus per bonus fetched, and its points only grow, by multiples of 10 |
| BonusPlay.PpbRaisesOnFirstEnd | bot/exts/bonus.py:140-147 | ending the first bonus of a session leaves 0 bonuses, and the PPB division fails |
| BonusPlay.Ppb | bot/exts/bonus.py:147 | PPB is present iff a bonus was played, and then PPB × bonuses = points and PPB >= 0 |
| BonusPlay.PpbAgrees | bot/exts/bonus.py:147 | where the division as written succeeds, it equals the guarded PPB |

## Left out

- I/O: Discord embeds and messages, the HTTP request for a question, the
  `print` calls and the `asyncio.sleep` delays. The question record is an
  input, and the script of events stands in for the player.
- Concurrency: the reader and listener tasks, the `lock`, and `cancel` are
  left out. The model runs the reader up to the buzz and then the dialogue.
  The buzz moment is an input, so every interleaving the lock allows is
  covered by some input.
- Timeouts are `Timeout` events, and an exhausted script is a timeout. The
  durations (8 s, 60 s, 3.2 s) are not modelled.
- The first `wait_for` in `listen_for_answer` has no timeout, so its
  `TimeoutError` branch (bot/exts/tossup.py:150-159) cannot be taken. It is
  not modelled.
- `check_answer` and the QB Reader answer-checking service are not part of
  this model. The judge returns the directive that the `match` statements
  inspect, as a plain string. The source's `check_answer`
  (bot/lib/utils.py:168-186) returns a tuple of the directive and the
  prompted responses. No `case "accept"`, `case "reject"` or
  `case "prompt"` (bot/exts/tossup.py:221, bot/exts/bonus.py:70) matches a
  tuple, so as written both `while True` loops would call the judge again
  on the same answer without end. The model assumes the string directive
  the `match` statements evidently expect.
- The bonus's 60-second timeout is not caught by `play_bonus` or `pk`.
  `BonusResult.TimedOut` stands for the exception, and `PkResult.Aborted`
  for the `pk` session it ends.
- `pk` and `tk` fetch questions without end. In the model they take the
  question list as an input, and running out of it gives `Unfinished` (pk)
  or an un-ended run (tk).
- Rounding: `round(x, 2)` for PP20TUH and PPB is left out. The model states
  the exact real ratio.
- `Reveal.GenerateLines` requires `chunk_size > 0`. The source passes 5,
  and `range` raises on 0.
- Python `str` methods are modelled as follows:
  - `isdecimal` is an ASCII digit;
  - `isalpha` is an ASCII letter;
  - `lower` folds ASCII letters;
  - `strip` removes the characters CPython's `str.isspace` accepts;
  - `int()` accepts ASCII digits with single underscores between them.

  Non-ASCII digits, letters and case mappings are not modelled.
- `CategoryFilter.Merge` takes the alias list as a parameter.
  `ParseSubcats` passes `ALL_ALIASES`, so no merge property is proved for
  one particular table.
- Three-word aliases (`vis fine art`, `audio fine art`, `other fine art`)
  cannot be reached when typed as three words. The merge stops at the
  two-word prefix, which is not an alias, so the first word fails as an
  invalid category. Typed as one word (`visfineart`), they still resolve.
  No lemma proves this on the literal tables: evaluating the full merge and
  lookup over the tables is beyond what the proofs here can afford.
- The docstring of `parse_int_range` (bot/lib/utils.py:36) lists `2-` as
  giving 0, 1 and 2. The code gives `range(2)`, which is 0 and 1. The model
  follows the code (`DifficultyFilter.BelowExcludesBound`).
- The `"/30"` display and the "Session Stats" layout are presentation only.
- Author and channel filtering of messages: every event in the script is
  taken to come from the player in the channel.

## Findings

| source | as written | input that shows it | evidently intended | confidence | as-written member | corrected member |
|---|---|---|---|---|---|---|
| bot/exts/bonus.py:147 | PPB is `round(total_points / total_bonuses, 2)`, with no guard | a `pk` session whose first bonus is answered `>end`: `total_bonuses` is 0, so the division raises `ZeroDivisionError` and no stats are sent | guard the empty session the way PP20TUH is guarded (bot/exts/tossup.py:329-335) | not executed | BonusPlay.PpbRaisesOnFirstEnd | BonusPlay.Ppb |
