# koishi-plugin-solitaire in Dafny

A model of the phonetic word-chain game ("接龙") of koishi-plugin-solitaire. The model covers these parts:

- **Phonetic dictionary** (`dict.dfy`, module `Dict`):
  - the inversion of the pinyin table into a per-character reading map;
  - `getPinyin`, `getTone` and `stripWord`;
  - the four tone indexes that `loadTone` builds (start/end, loose/strict), together with the lists of words whose strict tone is unknown;
  - `getToneDict`.
- **Chaining rules** (`chain.dfy`, module `Chain`):
  - `getNextTones`;
  - gathering the unused candidates of the next turn;
  - the turn deadline and the arcade threshold;
  - the arcade restriction rules (category, strict mode, polyphone, tone overlap, at least / at most *n* characters).
- **Game engine** (`session.dfy`, module `Engine`):
  - `prepareNext` and `createWord`;
  - the checks an answer goes through, and accepting an answer;
  - the PK ("对战") bookkeeping of `pkRounds`, and the elimination, draw, win or restart on a dead end.
- **Channel registry** (`game.dfy`, module `Game`), covering the game-facing branches of the `solitaire` command:
  - the daily usage quotas (`getUsage`/`checkUsage`);
  - starting, stopping and hinting;
  - toggling warnings, the status view and submitting an answer;
  - the verdict when the turn timer fires;
  - the `-S`/`-E` tone lookups.
- **Activity record** (`activity.dfy`, module `Activity`):
  - `Activity.update`, which counts a game and forgets old days;
  - the integer weighted sums of `Activity.get`.
- **Shared helpers** (`text.dfy`, module `Text`): sequences, splitting on `,`, and an injected source of random draws.

**Modelling choices.**

- **The game state is a value.** A channel's game is the datatype `Engine.State`. Each operation on a game is a method proved against a ghost specification function: `Prepared`, `Created`, `Accepted`, `Submitted`, `Opened`. Properties are lemmas about those functions.
- **Classes where the source updates things in place:**
  - `Dict.PhoneticIndex`: the word map and the tone indexes;
  - `Game.Registry`: the channel → game map;
  - `Game.User`: a user's usage record;
  - `Activity.Activity`: the day → count record.
- **Injected inputs.** Randomness (`Random.pick`) comes from a `Text.Random` object that consumes a sequence of draws. The clock is passed as a parameter (`now`, `today`, `date`).

## Model

| member | source | states |
|---|---|---|
| Dict.BuildCharMap | src/dict.ts:8-17 | the character map lists, for every character, exactly the pinyin keys it appears under, comma-joined in table order |
| Dict.AddReadings | src/dict.ts:10-16 | adding one pinyin's characters keeps the map the inversion of everything visited so far |
| Dict.InvertsStep | src/dict.ts:11-15 | appending `,pinyin` to a known character, or inserting a new one, extends the inversion by one visit |
| Dict.ReadingsAreKeys | src/dict.ts:8-17 | every reading recorded for a character is a pinyin key of the table |
| Dict.PinyinFromTable | src/dict.ts:22-24 | `getPinyin` returns the character's table readings in order, or the character itself when it has none |
| Dict.GetPinyin | src/dict.ts:22-24 | at least one reading; an unmapped character reads as itself |
| Dict.RewriteConcat | src/dict.ts:27 | replacing tone-marked vowels distributes over concatenation |
| Dict.RewriteUnmarked | src/dict.ts:27 | a reading with no tone-marked vowel is unchanged |
| Dict.RewriteClearsMarkers | src/dict.ts:27 | after the replacement no tone-marked vowel remains |
| Dict.GetTone | src/dict.ts:26-28 | the tones are the tone-stripped readings, without duplicates, and the first tone comes from the first reading |
| Dict.UnlistedTone | src/dict.ts:26-28 | a character with no reading and no tone mark has itself as its only tone |
| Dict.StripWord | src/dict.ts:43-45 | the result is no longer than the input, and it has no stripped punctuation, no whitespace and no letter that `IsUpper` covers |
| Dict.StripWordIdempotent | src/dict.ts:43-45 | stripping twice is the same as stripping once |
| Dict.Resolver.LooseTones | src/dict.ts:82 | a word's loose boundary tones are the tones of its first (or last) character: non-empty, no duplicates |
| Dict.Resolver.StrictTone | src/dict.ts:83-94 | the strict tone is unknown exactly when the boundary character has several tones and the word has no override; otherwise it is the override, or else the single tone; an override (`Override`) counts only when the word is listed with a non-empty tone |
| Dict.AddTone | src/dict.ts:73-75 | the tone's set gains the word and no other tone's set changes |
| Dict.AddToneWithWord | src/dict.ts:88 | adding a word under one more tone is adding it under the larger set of tones |
| Dict.AddTones | src/dict.ts:88 | `start.map(tone => addTone(...))` files the word under exactly the listed tones |
| Dict.ToneDictIndexes | src/dict.ts:138-142 | `getToneDict(reverse, strict)` lists, under each tone, exactly the vocabulary words registered with that tone on the matching side and mode |
| Dict.LooseCoverage | src/dict.ts:88 | every vocabulary word is listed under some start tone and under some end tone |
| Dict.SoundAdd | src/dict.ts:88 | filing a new word under tones it has keeps every listing correct |
| Dict.CompleteAdd | src/dict.ts:88 | filing a new word under all its tones keeps every word listed under each of its tones |
| Dict.IndexesAdd | src/dict.ts:88 | filing a new word under exactly its tones keeps the index exact |
| Dict.RegisterBoundary | src/dict.ts:82-95 | one side of `loadTone`: the strict index or the unknown list, then the loose index |
| Dict.RegisterKeepsExact | src/dict.ts:82-95 | registering a new word keeps both indexes of that side exact and the unknown list complete |
| Dict.LooseAdd | src/dict.ts:88 | the loose index stays exact after a word is filed under all its boundary tones |
| Dict.StrictAdd | src/dict.ts:83-87 | the strict index stays exact whether the word's strict tone is known or not, with a listed non-empty tone (`Override`) taking precedence |
| Dict.StrictSkip | src/dict.ts:83-85 | a word whose strict tone is unknown is left out of the strict index, which stays exact |
| Dict.StrictPut | src/dict.ts:86 | a word whose strict tone is known is filed under that tone, and the strict index stays exact |
| Dict.SoundPut | src/dict.ts:86 | filing under the strict tone lists no word wrongly |
| Dict.CompletePut | src/dict.ts:86 | filing under the strict tone misses no word |
| Dict.ListsAdd | src/dict.ts:83-85 | the unknown-tone list holds exactly the vocabulary words with an unknown strict tone, each with its candidate tones |
| Dict.ExactSameWords | src/dict.ts:79-81 | overwriting the data of a known word leaves the indexes exact |
| Dict.IndexesSameWords | src/dict.ts:79-81 | an index depends only on which words exist, not on their data |
| Dict.ListsSameWords | src/dict.ts:79-81 | the unknown-tone lists depend only on which words exist |
| Dict.PhoneticIndex.ValidSnapshot | src/dict.ts:37-41 | the loaded maps form a valid lexicon |
| Dict.PhoneticIndex.LoadTone | src/dict.ts:77-96 | a one-character word changes nothing; otherwise the word's data is (over)written, and a new word is registered on both sides, keeping every index exact |
| Text.Dedup | src/dict.ts:27 | `deduplicate`: same members, no duplicates, no longer |
| Text.Random.Pick | src/index.ts:480 | `Random.pick`: an index below the length, taken from the next draw |
| Text.Elements | src/index.ts:273 | `[...set]`: each element of the set exactly once |
| Chain.NextTones | src/index.ts:548-553 | loose mode gives all tones of the boundary character; strict mode gives one tone, the override or the first tone |
| Chain.GatherMember | src/index.ts:390-394 | a word is a candidate exactly when it is unused and listed under one of the tones |
| Chain.CollectWords | src/index.ts:388-394 | the `nextWords` loop collects exactly the gathered candidates |
| Chain.AddUnused | src/index.ts:391-393 | one tone's bucket adds its unused words |
| Chain.GatherSnoc | src/index.ts:390-394 | one more tone adds that tone's unused words |
| Chain.GatherIndexed | src/index.ts:390-394 | over an exact index, the candidates are the unused vocabulary words registered with one of the tones |
| Chain.CandidatesChain | src/index.ts:387-394 | a candidate after `prev` is an unused vocabulary word whose boundary tone matches: in strict mode, its strict tone equals the required one; in loose mode, the two words share a tone |
| Chain.StrictMatch | src/index.ts:549-551 | strict matching reduces to equal strict tones |
| Chain.LooseMatch | src/index.ts:552 | loose matching reduces to a shared tone |
| Chain.Decay | src/index.ts:397 | the arcade decay is half a second per turn, capped at 100 turns |
| Chain.Deadline | src/index.ts:395-403 | arcade turns end within two minutes, and never later than the old deadline plus a minute minus the decay; PK turns last 2 minutes; other turns last 30 |
| Chain.Threshold | src/index.ts:409 | the smallest integer at least `size·(0.8 − 0.006·min(100, index))`, clamped to `[1, size]` |
| Chain.OfCategory | src/index.ts:417 | the category filter keeps a subset |
| Chain.Polyphones | src/index.ts:441 | the polyphone filter keeps a subset |
| Chain.ChainingBack | src/index.ts:448 | the tone-overlap filter keeps a subset |
| Chain.Longer | src/index.ts:455 | the length filter keeps a subset |
| Chain.Shorter | src/index.ts:460 | the length filter keeps a subset |
| Chain.BestCategoryTightest | src/index.ts:414-423 | the chosen category qualifies, is one of the categories, and is no larger than any qualifying category |
| Chain.PickCategory | src/index.ts:414-423 | the category loop computes the tightest qualifying category |
| Chain.Shortest | src/index.ts:454 | `Math.min(...lengths)` is attained and is a lower bound |
| Chain.Longest | src/index.ts:459 | `Math.max(...lengths)` is attained and is an upper bound |
| Chain.ShortestIsMinLen | src/index.ts:454 | the minimum over the list is the minimum over the set |
| Chain.LongestIsMaxLen | src/index.ts:459 | the maximum over the list is the maximum over the set |
| Chain.LongerPastMax | src/index.ts:455 | no word is longer than the longest |
| Chain.ShorterBelowMin | src/index.ts:460 | no word is shorter than the shortest |
| Chain.LowerStopStep | src/index.ts:455 | while more than the threshold are longer, the loop goes on and stays below the maximum length |
| Chain.LowerStopHere | src/index.ts:455 | the loop stops where at most the threshold are longer |
| Chain.UpperStopStep | src/index.ts:460 | while more than the threshold are shorter, the loop goes on and stays above the minimum length |
| Chain.UpperStopHere | src/index.ts:460 | the loop stops where at most the threshold are shorter |
| Chain.LowerStopSpec | src/index.ts:455-457 | the "at least" loop stops at the first length from the start where at most the threshold words are longer |
| Chain.UpperStopSpec | src/index.ts:460-462 | the "at most" loop stops at the first length down from the start where at most the threshold words are shorter |
| Chain.LowerLoop | src/index.ts:455-457 | the loop's stopping length, and the last list that was still over the threshold |
| Chain.UpperLoop | src/index.ts:460-462 | the loop's stopping length, and the last list that was still over the threshold |
| Chain.AtLeastRule | src/index.ts:454-458 | the "at least n characters" loop computes `LowerRule`, whose rule LowerRuleInRange keeps over the threshold and inside the candidates |
| Chain.AtMostRule | src/index.ts:459-463 | the "at most n characters" loop computes `UpperRule`, whose rule UpperRuleInRange keeps over the threshold and inside the candidates |
| Chain.LowerRuleInRange | src/index.ts:454-458 | the length rule's list is over the threshold and a strict subset of the candidates |
| Chain.UpperRuleInRange | src/index.ts:459-463 | the length rule's list is over the threshold and a strict subset of the candidates |
| Chain.QualifyInRange | src/index.ts:434-451 | every rule offered by `Qualify`, the test `list.length > threshold && list.length < size`, is over the threshold and narrower than the candidates |
| Chain.ArcadeRulesInRange | src/index.ts:411-463 | every arcade rule leaves more words than the threshold and fewer than the candidates; each is a subset of the candidates or the strict-mode candidate set |
| Chain.SubsetSize | src/index.ts:434 | a subset is no larger, and a strict subset is smaller |
| Chain.OverlapRuleNeverQualifies | src/index.ts:447-451 | every candidate passes the tone-overlap filter, so that rule is never offered |
| Chain.ArcadeRulesAre | src/index.ts:411-463 | the rules list is category, strict, polyphone, overlap, then the two length rules, in order |
| Chain.ComputeRules | src/index.ts:411-463 | the rule-building code computes exactly the specified rules list |
| Engine.ChooseInRange | src/index.ts:466-472 | the pick leaves more words than the threshold; a random rule is drawn exactly when there are rules |
| Engine.RestrictNarrows | src/index.ts:404-473 | outside arcade nothing changes; in arcade the next words stay between the threshold and the candidates, and are the candidates, a subset of them, or the strict-mode set |
| Engine.GatherAdmissible | src/index.ts:390-394 | every loose or strict candidate is an unused vocabulary word that follows on the required tones |
| Engine.RestrictAdmissible | src/index.ts:404-473 | whatever restriction is drawn, every next word may follow |
| Engine.Narrow | src/index.ts:404-473 | the arcade narrowing computes the specified restriction and consumes a draw only when a rule is picked |
| Engine.DrawRule | src/index.ts:408-473 | rule building gives `ArcadeRules` and the pick is `Choose` of them, with the draws it consumes; ArcadeRulesInRange and ChooseInRange give their meaning |
| Engine.Check | src/index.ts:305-320 | the answer is refused when the player is out, just answered, reuses a word, gives an unknown word or breaks the chain, with the reasons in that order; otherwise it is accepted |
| Engine.IndexOf | src/index.ts:332 | the first position of a player, or the length |
| Engine.Counter | src/index.ts:329 | a player's counter, present exactly for the listed players |
| Engine.SetCounterKeys | src/index.ts:329-331 | setting a counter keeps the other entries and adds the key at the end when it is new, so `Ids` (`Object.keys(pkRounds)`) lists the players in the order they first answered, each once |
| Engine.FirstOver | src/index.ts:332-338 | the first counter that reaches the limit after incrementing, or none |
| Engine.BumpSparesSubmitter | src/index.ts:328-340 | the submitter is never evicted and ends with counter 0 or −1; at most one other player is evicted, and only one whose counter reached twice the player count |
| Engine.BumpNone | src/index.ts:332-339 | with no eviction `Incr` raises every counter by one and keeps the keys |
| Engine.BumpSome | src/index.ts:332-339 | an eviction removes only that player; only counters before it were incremented by `Incr` |
| Engine.BumpRounds | src/index.ts:328-340 | the counting loop computes the specified counters and eviction |
| Engine.Remaining | src/index.ts:354-361 | the players not out, in order |
| Engine.FirstNotIn | src/index.ts:361 | `ids.find(id => !outUsers.has(id))` |
| Engine.PkEndMeaning | src/index.ts:351-368 | corrected dead-end verdict: a draw when nobody is left, a winner exactly when one player is left, a restart when two or more are left |
| Engine.PkEndAsWrittenCrownsEarly | src/index.ts:354-364 | as written, with an evicted player still out, a winner is declared while two players remain |
| Engine.PkEndAsWrittenDrawsEarly | src/index.ts:354-357 | as written, a draw is declared while one player remains |
| Engine.PkEndAgrees | src/index.ts:354-364 | when every out player is still listed, the code as written and the corrected verdict agree |
| Engine.RemainingSize | src/index.ts:355 | with everyone out still listed, the remaining count is the listed count minus the out count |
| Engine.RemainingSkips | src/index.ts:361 | an out player who is no longer listed does not affect who remains |
| Engine.FirstNotInRemaining | src/index.ts:361 | the first player not out is the first remaining player |
| Engine.ArmKeepsValid | src/index.ts:519-533 | arming the timer does not disturb the game |
| Engine.StartsAfter | src/index.ts:476-482 | a word that could start from a later try could start from the original state |
| Engine.PreparedShape | src/index.ts:387-390 | `prepareNext` changes only the tones, next words, restriction and deadline, and sets the tones to the word's next tones |
| Engine.PreparedValid | src/index.ts:387-474 | after `prepareNext` on a vocabulary word, every next word may follow |
| Engine.PreparedAnswers | src/index.ts:404-405 | `prepareNext` reports a next word exactly when there is some unused candidate |
| Engine.PreparedNarrows | src/index.ts:395-473 | outside arcade the next words are the candidates; in arcade they stay between the threshold and the candidates; the deadline is that of `Deadline` |
| Engine.PrepareNext | src/index.ts:387-474 | `prepareNext` computes `Prepared`, which PreparedShape, PreparedValid, PreparedAnswers and PreparedNarrows characterise |
| Engine.RoundShape | src/index.ts:480-482 | one try of `createWord` touches only what `prepareNext` sets |
| Engine.RoundFinds | src/index.ts:480-482 | a try that succeeds found a word that can start a chain |
| Engine.TriesShape | src/index.ts:479-483 | the tries touch only what `prepareNext` sets |
| Engine.ChainOnlyTrans | src/index.ts:479-483 | changing only those fields twice changes only those fields |
| Engine.TriesFind | src/index.ts:479-483 | when the tries find a word, it can start a chain |
| Engine.CreatedShape | src/index.ts:476-493 | `createWord` resets the turn count; on success it adds the first word and clears `lastUser`, otherwise it leaves the words alone |
| Engine.CreatedStarts | src/index.ts:476-493 | a found first word is an unused vocabulary word other than "娘娘", and the game is under way with something to answer |
| Engine.CreateWord | src/index.ts:476-493 | the 19 tries compute `Created`, which CreatedShape and CreatedStarts characterise |
| Engine.TryWord | src/index.ts:480-482 | one try computes `Round`, which RoundShape and RoundFinds characterise |
| Engine.CountedValid | src/index.ts:328-340 | the PK counting keeps the game valid |
| Engine.CountedSpares | src/index.ts:328-340 | after counting, the submitter is the last user, still listed, with counter 0 or −1 |
| Engine.CountTurn | src/index.ts:328-340 | the PK counting computes `Counted`, which CountedValid and CountedSpares characterise |
| Engine.AcceptedPlays | src/index.ts:323-326 | acceptance (`Played`, then `prepareNext`) records the word, counts the turn and prepares the next tones; nothing else changes except PK bookkeeping |
| Engine.AcceptedValid | src/index.ts:324-326 | acceptance keeps the game valid |
| Engine.AcceptedAnswers | src/index.ts:326 | the chain can go on exactly when some unused candidate follows the word |
| Engine.AcceptedCounts | src/index.ts:324-340 | outside PK nobody is counted; in PK the submitter becomes last user and is never evicted |
| Engine.Accept | src/index.ts:322-340 | acceptance computes `Accepted`, which AcceptedPlays, AcceptedValid, AcceptedAnswers and AcceptedCounts characterise |
| Engine.Ended | src/index.ts:351-368 | a PK dead end always ends in a draw, a win, a restart or a broken game, decided by the corrected verdict `PkEnd` |
| Engine.EndPk | src/index.ts:351-368 | the PK dead-end branch, proved equal to `Ended`, with the corrected verdict `PkEnd` |
| Engine.EndedKeeps | src/index.ts:351-368 | the dead end puts the submitter out, keeps the counters and the played words; a restart resets the turn count and adds the new first word |
| Engine.EndedDecides | src/index.ts:353-368 | a draw exactly when nobody is left; a winner is a listed player, not out, not the submitter, and the only one left; a restart or a broken game exactly when two or more are left |
| Engine.EndedRestarts | src/index.ts:365-366 | the new first word can start a chain |
| Engine.Submit | src/index.ts:300-373 | the answer path, proved equal to `Submitted`, whose properties the lemmas below state; PK dead ends use the corrected verdict `PkEnd` |
| Engine.SubmitRefuses | src/index.ts:305-320 | a refusal happens exactly when a check fails, for that reason, and changes nothing; outside PK nobody is refused as out or as a repeat answerer |
| Engine.SubmitAdmits | src/index.ts:305-320 | an answer that gets past the checks is a next word, unused, admissible, and not from an out player or the last answerer |
| Engine.SubmitKeeps | src/index.ts:322-373 | an accepted answer is recorded and the game keeps its channel, players and mode |
| Engine.SubmittedSteps | src/index.ts:322-373 | after the checks pass: continue and arm the timer, end the game, or take the PK dead-end branch |
| Engine.SubmitContinues | src/index.ts:322-350 | the chain continues exactly when the answer passes and some word can follow it; the turn count, words and tones advance and the timer is armed at the new deadline |
| Engine.ContinuedArmed | src/index.ts:348-350 | a continued chain is the accepted state with the timer armed |
| Engine.SubmitContinuesValid | src/index.ts:341-350 | a continued chain is valid |
| Engine.SubmitCounts | src/index.ts:328-340 | in PK play a continuing submitter becomes last user with counter 0 or −1 |
| Engine.SubmitFinishes | src/index.ts:369-373 | outside PK the game ends exactly when no word can follow an accepted answer |
| Engine.SubmitEndsPk | src/index.ts:351-368 | PK endings happen only on a dead end, put the submitter out, and give a draw, a win or a restart according to who is left |
| Engine.EndedBranch | src/index.ts:351-368 | PK endings come from an accepted vocabulary word |
| Engine.SubmitRestarts | src/index.ts:364-367 | a PK restart resets the turn count, clears the last user and adds the new first word to the played words |
| Engine.SubmitRestartsValid | src/index.ts:364-367 | the restarted game is valid, with a fresh unused first word other than "娘娘" |
| Game.CheckedMeaning | src/index.ts:76-83 | no usage record means no limit; otherwise the record moves to today, the quota is reached exactly when today's count is at the limit, and the count goes up by one only below a non-zero limit |
| Game.DailyQuota | src/index.ts:76-83 | any number of calls on one day counts each passed call once and never lets the count exceed the limit |
| Game.User.GetUsage | src/index.ts:68-74 | the record is reset on a new day and the count returned is today's |
| Game.User.CheckUsage | src/index.ts:76-83 | the new record and the verdict are those of `Checked`, which CheckedMeaning and DailyQuota characterise |
| Game.UsageLimitAsWrittenMissesLastAnswer | src/index.ts:144-145 | as written, the player who has just answered gets the normal quota |
| Game.UsageLimitAgrees | src/index.ts:144-145 | the corrected quota agrees with the code except for a zero counter; no game means the normal quota; a PK player or an arcade game gets the larger quota |
| Game.TimeoutWinnerPlays | src/index.ts:523-533 | a timeout in PK with a last answerer and two or more players crowns the last answerer, who is listed, not out, and had an opponent |
| Game.OpenedShape | src/index.ts:218-245 | a started game is at turn 0 with only its first word played, in its channel, with PK bookkeeping empty |
| Game.OpenedLive | src/index.ts:218-245 | a started game is live, with a first word other than "娘娘" whose tones are required next |
| Game.VersusKeepsValid | src/index.ts:240-243 | switching a fresh game to PK keeps it valid |
| Game.SubmitStaysLive | src/index.ts:300-373 | an answer that does not end the game leaves it live |
| Game.AnswerKeepsLive | src/index.ts:300-373 | after an answer, every stored game is live, and a refused answer leaves the registry unchanged |
| Game.StoredLive | src/index.ts:348-373 | storing the outcome drops ended games and keeps the others live |
| Game.RefusedKeeps | src/index.ts:305-320 | a refused answer leaves the game unchanged |
| Game.SearchFinds | src/index.ts:183-211 | `-S`/`-E` lists exactly the vocabulary words registered with one of the given start tones and one of the given end tones |
| Game.Search | src/index.ts:183-211 | the lookup loops compute that list |
| Game.Registry.Start | src/index.ts:218-245 | the game `Opened` builds is stored exactly when a first word is found; otherwise the channel stays free |
| Game.Registry.Stop | src/index.ts:252-262 | only the initiator or a user with authority 2 or more stops the game, which is then removed |
| Game.Registry.Hint | src/index.ts:264-277 | `Hinted`: hints are refused in PK, then in arcade, with the usage kept; otherwise the hint quota is checked (`Checked`), and a hint is one of the next words, a vocabulary word, for which one draw is consumed; no other draw is |
| Game.Registry.SetWarning | src/index.ts:279-284 | only the warning flag changes |
| Game.Registry.Submit | src/index.ts:300-373 | the outcome of `Submitted`, with the game filed again, or removed when the outcome ends it |
| Game.Registry.Expire | src/index.ts:519-545 | the timer's verdict, and the game is removed |
| Game.Registry.Open | src/index.ts:218-245 | the reply is the first word of `Opened`, or a failed start; the game is stored exactly when it started; every stored game stays live |
| Game.Registry.Answer | src/index.ts:300-375 | the outcome of `Submitted`, with the game filed again or removed; every stored game stays live |
| Game.Registry.Handle | src/index.ts:141-376 | the quota is reached exactly when `Checked` says so, and then nothing else happens; with no game, a word, `--hint` or `--end` gets `NoGame`, otherwise the game of `Opened` starts; `--end` stops exactly for the initiator or authority 2 or more; `--hint` is refused in PK, then in arcade, then by the hint quota, else gives a next word; with no word `-w`/`-W` switches warnings and otherwise the status is shown; a word is judged by `Submitted` and the game filed by `Stored`; every stored game stays live; the usage is that of the quota check except after `--hint`, and draws are consumed only by a start, a hint or a judged word; a start takes its warning flag from `-w`/`-W` |
| Game.Registry.Play | src/index.ts:250-375 | `--end` stops exactly for the initiator or authority 2 or more, with no draw and the usage kept; anything else is `Asked`; every stored game stays live |
| Game.Registry.Ask | src/index.ts:264-375 | `Asked`: `--hint` is `Hinted`; otherwise the usage is kept, and the warning switch, the status or the judged word of `Submitted` filed by `Stored`; every stored game stays live |
| Game.Registry.Respond | src/index.ts:279-375 | without a word `-w`/`-W` switches only `showWarning` and otherwise nothing changes, with no draw; a word is judged by `Submitted` and filed by `Stored`; every stored game stays live |
| Game.WarningKeepsLive | src/index.ts:281-283 | toggling warnings keeps the game live |
| Activity.Updated | src/utils.ts:24-36 | a day already counted (`At`, `activity[d] \|\| 0`, non-zero) goes up by one with nothing else changed; a new day starts at 1; no day after the cut-off is dropped; on a new day only the days `Recent` keeps, those after the cut-off, remain |
| Activity.UpdateKeepsPositive | src/utils.ts:24-36 | counts stay at least 1 |
| Activity.RepeatedTally | src/utils.ts:26-28 | *n* updates on one day raise its count by exactly *n* and keep the other recent days |
| Activity.Wrap32 | src/utils.ts:42 | `ToInt32`: a signed 32-bit value congruent to the input |
| Activity.ShlExact | src/utils.ts:42 | a small count shifts without wrap-around |
| Activity.ShlTable | src/utils.ts:42-45 | the six shifts the score uses, on small counts |
| Activity.ClosedForm | src/utils.ts:39-45 | reading missing days as 0 (`At`), the total weighs the five previous days by 16…1; yesterday's sum weighs six days by 32…1; today's sum weighs today by 32 and the five previous days by 16…1 |
| Activity.ScoreBounded | src/utils.ts:39-46 | an exact score lies between 0 and the largest count of the window |
| Activity.SteadyScore | src/utils.ts:39-46 | seven days with the same count score exactly that count |
| Activity.ExactWhen | src/utils.ts:44-46 | the score is exact exactly when today, weighed by 32, outweighs the five previous days plus the sixth day back |
| Activity.Activity.Update | src/utils.ts:24-36 | the new record and count are those of `Updated`; counts of at least 1 stay so (`Valid`) |
| Activity.Activity.Prune | src/utils.ts:29-34 | the loop over the keys leaves exactly the days `Recent` keeps |
| Activity.Activity.Get | src/utils.ts:38-46 | the weighted sums of `get` are those of `Scored`, whose closed form `ClosedForm` gives |

## Left out

- **Values rather than updates in place.** A game (`State`) is a value. The engine's methods return the new game instead of mutating a shared record, so aliasing between `states[id]` and captured `state` references (for example inside a timer callback) is not modelled.
- **Timers.**
  - `setTimeout`/`clearTimeout` are reduced to an `alarm` field that holds the deadline of the last arming.
  - The timer firing is the event `Registry.Expire`, whose verdict comes from the game at that moment.
  - The messages sent are not modelled.
- **Output.** The text of every reply (`formatWord`, `formatNext`, the status view's player list) and `session.send` are left out. Replies are a `Reply` datatype.
- **Other command options.**
  - `--info`, `--check` and `--includes` are not modelled.
  - Neither are `-u`/`-U` session switching or the `solitaire/trial` and `solitaire/success` events.
- **Loading and libraries.**
  - Not modelled: YAML/JSON loading (`loadLibrary`, `loadCache`, `loadFile`), the spell-card and music extraction, and `getTone2`. src/database.ts is not part of this model.
  - `simplify` is treated as the identity.
  - `deduplicate` and `intersection` are modelled directly.
- **Floating point.**
  - The arcade threshold is computed in exact integers, so it may differ from the floating-point result at exact boundaries.
  - `Activity.get`'s interpolation branch depends on the clock and is left as the pair of weighted sums.
  - `value2 / 63` is a Dafny `real`.
- **JavaScript details.**
  - Characters are Unicode code points, not UTF-16 units.
  - Object key order is modelled as insertion order. JavaScript lists integer-like keys first.
  - `pkRounds` is a sequence of pairs in that order.
- **Removal of ended games.** A channel whose game ended (`states[id] = null`) is removed from the registry map, not kept as `null`.
- **A failed `createWord`.** `createWord` failing after 19 tries ends the game (`Broken`). The thrown error and its message are not modelled.
- Engine.EndPk: a PK restart whose `createWord` fails drops the game with no timer. In src/index.ts:365-366 `setTask` arms the PK timer before `createWord`, and the throw at src/index.ts:484-487 leaves that timer set. When it fires it sets `states[id] = null`, wiping any game started in the channel since, and crowns `state.lastUser`, the submitter just put out, since `lastUser` is reset only at src/index.ts:490. `Registry.Expire` requires the channel to hold a game, so this stale timer is not modelled.
- **Ordering of the `solitaire` command.** The usage quota check at the top runs before anything else. `Handle` uses the corrected quota, `UsageLimit`.
- Dict.PhoneticIndex.LoadTone: requires a non-empty word. In the source, an empty word fails at `getTone(word[0])`.
- Engine.Submitted: requires every vocabulary word to be non-empty (`Spelled`) and the word list to be drawable (`Drawable`). The source assumes these of its word files.
- Game.Registry.Hint: requires the game to be live, which gives a non-empty `nextWords`. `Random.pick` of an empty list is not modelled.
- Engine.BumpSparesSubmitter: states that the submitter's counter is 0 or −1. It stays −1 when the loop breaks on an earlier player.
- Engine.CreateWord: does not exclude the start word itself from the first candidates. `prepareNext` runs before the word is added to the played words, so a word can be its own first candidate. The model keeps this.
- Chain.OverlapRuleNeverQualifies: the tone-overlap rule looks at the candidates' matching side, so it never narrows anything. This is modelled as written.
- Activity.ClosedForm: assumes counts below 2^26. Above that, the 32-bit shift wraps, as `Shl32` models.
- Engine.Ended: uses the corrected PK verdict `PkEnd` (see "## Findings"), not `PkEndAsWritten`. So do `EndPk`, `Submitted`, `Submit`, `EndedDecides`, `SubmitEndsPk` and `Registry.Submit`, `Answer` and `Handle`. They differ from src/index.ts:355-363 once a player who is out has been evicted from `pkRounds`: with players b, c, d listed and a, b out, src/index.ts:360-363 crowns c, while the model restarts.
- Dict.StripWord: `toLowerCase` is modelled only on the letters `IsUpper` covers, each lowered by adding 32: ASCII, Latin-1, Greek, Cyrillic and full-width Latin capitals. Other capitals, such as U+0100 and U+0401, stay as they are; the final sigma is not produced; U+0130, which lowers to two code points, keeps one. The length bound holds for this restricted lowering only.

## Findings

| source | as written | input that shows it | evidently intended | confidence | as-written member | corrected member |
|---|---|---|---|---|---|---|
| src/index.ts:354-364 | on a PK dead end, the number of out players is compared with the number of keys of `pkRounds`; an evicted player stays in `outUsers` but is no longer a key | players a, b, c, d, with a out then evicted, and b out on the dead end: two players remain, but `outUsers.size === ids.length - 1` crowns c | compare the players still listed and not out: nobody left is a draw, one left wins, two or more restart | not executed | Engine.PkEndAsWrittenCrownsEarly | Engine.PkEndMeaning |
| src/index.ts:144-145 | the quota picks the PK limit with `pkRounds[userId] \|\| arcade`, and a player's counter is 0 right after they answer | a PK player whose counter is 0 | every player listed in `pkRounds` (or any arcade game) gets the larger quota | not executed | Game.UsageLimitAsWrittenMissesLastAnswer | Game.UsageLimitAgrees |
