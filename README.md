# Match chat pipeline

A Dafny model of the chat log post-processing in the match chat component of
opendota (`src/components/Match/Chat/Chat.jsx`). The component does four things:

- **Spam detection.** When it is constructed, it makes one forward pass over the match's raw chat events. Each pass step looks at an adjacent pair from the same player slot and may flag the later event as spam, in place. Two rules decide:
  - a repeat of the same key within 10 seconds;
  - for two text-chat lines, equal first two and last two UTF-16 code units. This rule also trims both keys in place first.
- **Toggles and filters.** The component keeps five show/hide toggles: radiant, dire, chat, chat wheel and spam. By default all are on except spam. Each toggle has a filter predicate over the raw events.
- **`filter(key)`.** It flips one toggle and copies the raw events. For every toggle that is off, it removes each event that toggle's filter matches, by identity. It then sorts the rest by time, putting clean events before spam events at equal time.
- **Target scope.** Each message shows a target scope: "all" for text chat and for the chat-wheel lines 75, 76, 108, 109 and 110, "allies" for every other chat-wheel line.

The Dafny files are:

- `wrappers.dfy` (`Wrappers`): `Option`.
- `events.dfy` (`Events`): the event datatype, JavaScript's `trim`, and `slice` on UTF-16 code units.
- `spam.dfy` (`SpamDetector`):
  - the in-place scan as a method on `array<Event>`;
  - the pure pass function `Detect` it is proved against;
  - lemmas that characterise `Detect` event by event.
- `target.dfy` (`TargetScope`): `Number(key)` on digit strings and the target scope.
- `filters.dfy` (`FilterSet`): toggles, filter predicates, matched lists, counts, and which events a view shows.
- `sorter.dfy` (`Sorter`): the comparator, display order, and the stable sort.
- `engine.dfy` (`Engine`): the class `ChatEngine`, holding the raw event array, the toggles and the current view. The view is a sequence of raw indices, because the component removes events by object identity. This file also has the `indexOf`/`splice` removal loops and a worked scenario.

Keys are modelled as Dafny strings, which are sequences of Unicode scalar values. A JavaScript string is a sequence of UTF-16 code units, and `slice` and `length` count code units. So `Events.Utf16` encodes a key into code units, and `slice(0, 2)` and `slice(-2)` are taken on those units: an emoji outside the Basic Multilingual Plane fills both units of `slice(0, 2)`. Two points make the other key operations agree with JavaScript on scalar values:
- `===` compares code units, and `Events.Utf16Injective` shows that equal code units mean equal keys.
- `trim` strips only white space, and every white-space character lies in the Basic Multilingual Plane and is not a surrogate. So trimming scalar values cuts the same characters as trimming code units.

The sort is stable: `Array.prototype.sort` is stable, section 22.1.3.27 of ECMAScript 2019. The list being sorted is a copy of the raw events with some removed, so it is in raw order. A stable sort by the comparator therefore equals a sort by the comparator with ties broken by raw index. `Precedes` states exactly that order.

## Model

| member | source | states |
|---|---|---|
| Events.TrimStart | src/components/Match/Chat/Chat.jsx:37-38 | the first half of `trim`: cuts leading ECMAScript white space (WhiteSpace and LineTerminator), as `Events.TrimStartShape` states |
| Events.TrimEnd | src/components/Match/Chat/Chat.jsx:37-38 | the second half of `trim`: cuts trailing ECMAScript white space, as `Events.TrimEndShape` states |
| Events.Trim | src/components/Match/Chat/Chat.jsx:37-38 | `String.prototype.trim`: both ends cut. What it returns is stated by `Events.TrimShape`, `Events.TrimIdempotent` and `Events.TrimOfTrimmed` |
| Events.TrimStartShape | src/components/Match/Chat/Chat.jsx:37-38 | cutting leading white space returns a suffix of the key, cuts only white space, and leaves no white space at the start |
| Events.TrimEndShape | src/components/Match/Chat/Chat.jsx:37-38 | cutting trailing white space returns a prefix of the key, cuts only white space, and leaves no white space at the end |
| Events.TrimShape | src/components/Match/Chat/Chat.jsx:37-38 | `trim` returns an infix of the key with only ECMAScript white space outside it, and neither end of the result is white space |
| Events.TrimIdempotent | src/components/Match/Chat/Chat.jsx:37-38 | trimming an already trimmed key changes nothing, so trimming the shared event of two consecutive pairs twice is harmless |
| Events.TrimOfTrimmed | src/components/Match/Chat/Chat.jsx:37-38 | a key that neither starts nor ends with white space is left as it is |
| Events.TrimAllWhiteSpace | src/components/Match/Chat/Chat.jsx:37-38 | a key made only of white space trims to the empty string |
| Events.TrimStartCutsPadding | src/components/Match/Chat/Chat.jsx:37-38 | leading white space before a word that starts with non-white space is exactly what is cut |
| Events.TrimEndCutsPadding | src/components/Match/Chat/Chat.jsx:37-38 | trailing white space after a word that ends with non-white space is exactly what is cut |
| Events.TrimCutsPadding | src/components/Match/Chat/Chat.jsx:37-38 | white space padding on both sides of such a word is removed and the word is returned |
| Events.CodeUnits | src/components/Match/Chat/Chat.jsx:40 | the UTF-16 code units of one character: the character itself below U+10000, otherwise a surrogate pair, as `Events.CodeUnitsRoundTrip` states |
| Events.CodeUnitsRoundTrip | src/components/Match/Chat/Chat.jsx:40 | a character below U+10000 is one code unit equal to it, and any other is a high surrogate then a low surrogate that decode back to it |
| Events.Utf16 | src/components/Match/Chat/Chat.jsx:40 | a key as JavaScript stores it: the code units of its characters, in order. Its properties are `Events.Utf16Concat`, `Events.Utf16OfBmp` and `Events.Utf16Injective` |
| Events.Utf16Injective | src/components/Match/Chat/Chat.jsx:30 | keys with the same code units are the same key, so `===` on code units is equality of the modelled keys |
| Events.Utf16OfBmp | src/components/Match/Chat/Chat.jsx:40 | a key whose characters lie in the Basic Multilingual Plane has one code unit per character, equal to that character |
| Events.Utf16Concat | src/components/Match/Chat/Chat.jsx:40 | the code units of a concatenation are the two keys' code units, concatenated |
| Events.RelativeIndex | src/components/Match/Chat/Chat.jsx:40 | a `slice` argument resolved against the length always gives a position between 0 and the length. What the position is, is stated by `Events.RelativeIndexMeaning` |
| Events.RelativeIndexMeaning | src/components/Match/Chat/Chat.jsx:40 | an index `k` between 0 and the length is position `k`, and `-k` for `0 < k <= length` is position `length - k`. Past the length, `k` clamps to the length and `-k` to 0 |
| Events.Slice | src/components/Match/Chat/Chat.jsx:40 | `slice(start, end)` on code units: the units from the resolved start up to the resolved end, and nothing when the start is not before the end. Its value on the two slices used is stated by `Events.EndsOfLongString` and `Events.EndsOfShortString` |
| Events.FirstTwo | src/components/Match/Chat/Chat.jsx:40 | `key.slice(0, 2)`, taken on the key's code units |
| Events.LastTwo | src/components/Match/Chat/Chat.jsx:40 | `key.slice(-2)`, taken on the key's code units; the end defaults to the length |
| Events.EndsOfLongString | src/components/Match/Chat/Chat.jsx:40 | on keys of two or more code units `slice(0, 2)` and `slice(-2)` are the first two and last two code units |
| Events.EndsOfShortString | src/components/Match/Chat/Chat.jsx:40 | on keys shorter than two code units both slices are all of the key's code units, so such keys compare whole |
| Events.EndsOfBmpString | src/components/Match/Chat/Chat.jsx:40 | when a key's first two and last two characters lie in the Basic Multilingual Plane, the two slices are exactly those characters |
| SpamDetector.SameEnds | src/components/Match/Chat/Chat.jsx:40 | the fuzzy test: equal `slice(0, 2)` and equal `slice(-2)` of the two keys, on code units |
| SpamDetector.PairStep | src/components/Match/Chat/Chat.jsx:29-42 | the loop body for a same-slot pair: the repeat test on the keys as they are, then for two chat lines the trim of both keys and the fuzzy test on the trimmed keys. Its effect is stated by `SpamDetector.StepCurr` and `SpamDetector.StepNext` |
| SpamDetector.Step | src/components/Match/Chat/Chat.jsx:25-44 | one iteration on the pair `(i, i + 1)`: nothing happens for different slots, otherwise `PairStep` replaces the pair. Its effect is stated by `SpamDetector.StepElsewhere`, `SpamDetector.StepCurr` and `SpamDetector.StepNext` |
| SpamDetector.ScanUpTo | src/components/Match/Chat/Chat.jsx:24-45 | the events after the first `n` iterations, each running on the output of the one before. Its value is stated event by event by `SpamDetector.ScanUpToAt` |
| SpamDetector.PairCount | src/components/Match/Chat/Chat.jsx:24 | the loop bound `i < length - 1`: one iteration per adjacent pair, none for an empty list |
| SpamDetector.Detect | src/components/Match/Chat/Chat.jsx:24-45 | the whole forward pass, one `Step` per adjacent pair. What it does to each event is stated by `SpamDetector.DetectKeepsIdentity`, `SpamDetector.DetectSpamExactly` and `SpamDetector.DetectKeyExactly` |
| SpamDetector.KeyWhenCompared | src/components/Match/Chat/Chat.jsx:30 | the key `curr` has when the pair is examined: already trimmed if the previous pair was a same-slot chat pair |
| SpamDetector.RepeatFires | src/components/Match/Chat/Chat.jsx:27-31 | the repeat rule for an event: its predecessor has the same slot, is less than 10 seconds earlier, and has the same key when compared |
| SpamDetector.FuzzyFires | src/components/Match/Chat/Chat.jsx:35-41 | the fuzzy rule for an event: it and its predecessor are same-slot chat lines whose trimmed keys have the same ends |
| SpamDetector.RuleFires | src/components/Match/Chat/Chat.jsx:27-41 | either rule fires for an event |
| SpamDetector.KeyTrimmed | src/components/Match/Chat/Chat.jsx:35-38 | an event is on either side of a same-slot chat pair, so its key is trimmed |
| SpamDetector.Scanned | src/components/Match/Chat/Chat.jsx:24-45 | the value of event `k` after the first `n` iterations, which `SpamDetector.ScanUpToAt` proves |
| SpamDetector.StepElsewhere | src/components/Match/Chat/Chat.jsx:25-44 | one iteration leaves every event outside its pair as it was |
| SpamDetector.StepCurr | src/components/Match/Chat/Chat.jsx:35-37 | one iteration changes only the key of `curr`, trimming it exactly for a same-slot chat pair |
| SpamDetector.StepNext | src/components/Match/Chat/Chat.jsx:27-41 | one iteration flags `next` exactly when the repeat test on the keys before trimming or the fuzzy test on the trimmed keys succeeds, and trims its key exactly for a same-slot chat pair |
| SpamDetector.ScanUpToAt | src/components/Match/Chat/Chat.jsx:24-45 | after the first `n` iterations each event equals `Scanned`: slot, time and kind unchanged, the flag set only by a rule that fired against an examined predecessor, the key trimmed exactly when it sits in an examined same-slot chat pair |
| SpamDetector.ScanElsewhere | src/components/Match/Chat/Chat.jsx:24-45 | iteration `i` keeps that description for every event outside the pair `(i, i + 1)` |
| SpamDetector.ScanCurr | src/components/Match/Chat/Chat.jsx:25-38 | iteration `i` keeps that description for `curr` |
| SpamDetector.ScanNext | src/components/Match/Chat/Chat.jsx:25-41 | iteration `i` keeps that description for `next` |
| SpamDetector.CurrStepAt | src/components/Match/Chat/Chat.jsx:35-38 | `curr` arrives with its key as the previous iteration left it; trimming it again in a chat pair gives the trim of its original key |
| SpamDetector.NextStepAt | src/components/Match/Chat/Chat.jsx:25-44 | the step at `i` runs on the earlier steps' output, where the predecessor's key may already be trimmed and the successor is untouched. It flags `i + 1` exactly when a rule fires on the original events, and trims its key exactly for a same-slot chat pair |
| SpamDetector.DetectKeepsIdentity | src/components/Match/Chat/Chat.jsx:24-45 | the pass never changes an event's slot, time or kind |
| SpamDetector.DetectSpamExactly | src/components/Match/Chat/Chat.jsx:27-41 | an event is flagged after the pass if and only if it was flagged before, or the repeat rule or the fuzzy rule fires for it and its predecessor |
| SpamDetector.DetectKeyExactly | src/components/Match/Chat/Chat.jsx:35-38 | after the pass an event's key is trimmed exactly when it is on either side of a same-slot chat-chat pair, and is unchanged otherwise |
| SpamDetector.FirstNeverFlagged | src/components/Match/Chat/Chat.jsx:24-31 | the first event is never flagged by the scan |
| SpamDetector.FlagNeedsSameSlotPredecessor | src/components/Match/Chat/Chat.jsx:27-41 | an event the scan flags has a predecessor from the same slot |
| SpamDetector.NeverClears | src/components/Match/Chat/Chat.jsx:31-41 | the scan never clears a spam flag |
| SpamDetector.RepeatIsFlagged | src/components/Match/Chat/Chat.jsx:29-31 | a same-slot repeat less than 10 seconds later is flagged. The earlier key is taken as it stands at the comparison, possibly already trimmed by the previous pair |
| SpamDetector.FuzzyIsFlagged | src/components/Match/Chat/Chat.jsx:35-41 | a same-slot chat line whose trimmed key has the same first two and last two code units as its predecessor's is flagged, whatever the time gap |
| SpamDetector.OtherKeysUnchanged | src/components/Match/Chat/Chat.jsx:35-38 | keys of events outside every same-slot chat-chat pair are untouched |
| SpamDetector.TrailingSpaceRepeatIsFlagged | src/components/Match/Chat/Chat.jsx:29-41 | `"gg"` then `"gg "` two seconds later: the repeat rule does not fire on the untrimmed keys, but the fuzzy rule flags the second |
| SpamDetector.TemplatedMessagesAreFlagged | src/components/Match/Chat/Chat.jsx:35-41 | `"hello there friend"` then `"hello random friend"` 49 seconds later: not a repeat, flagged by the fuzzy rule |
| SpamDetector.SurrogatePairFillsFirstTwo | src/components/Match/Chat/Chat.jsx:40 | `"😀a!!"` then `"😀b!!"`: their first two characters differ, but the emoji is both code units of `slice(0, 2)`, so the fuzzy rule flags the second |
| SpamDetector.SharedHighSurrogateMatches | src/components/Match/Chat/Chat.jsx:40 | `"a😀xx"` then `"a😁xx"`: different keys whose first two code units agree, because both emoji share their high surrogate, so the fuzzy rule flags the second |
| SpamDetector.OnlyNeighboursCompared | src/components/Match/Chat/Chat.jsx:24-27 | two equal lines separated by a voice line from the same slot are not compared, so neither is flagged |
| SpamDetector.RerunKeepsKeys | src/components/Match/Chat/Chat.jsx:35-38 | a second pass over the result changes no key |
| SpamDetector.RerunCanAddFlag | src/components/Match/Chat/Chat.jsx:29-38 | a second pass can flag an event the first did not: a voice line `w` then the chat line `" " + w`, followed by chat from the same slot |
| SpamDetector.ExaminePair | src/components/Match/Chat/Chat.jsx:25-44 | the loop body updates the array exactly as the step function says |
| SpamDetector.DetectSpam | src/components/Match/Chat/Chat.jsx:24-45 | the in-place loop leaves the array equal to `Detect` of its old contents |
| TargetScope.NumberOf | src/components/Match/Chat/Chat.jsx:151 | `Number(msg.key)` for keys of decimal digits between white space, and `NaN` otherwise. Its value on voice-line ids is stated by `TargetScope.NumberOfDecimal` |
| TargetScope.IsBroadcast | src/components/Match/Chat/Chat.jsx:151 | `chatwheelAll.includes(Number(msg.key))` with the list of line 15; `NaN` is never included |
| TargetScope.Target | src/components/Match/Chat/Chat.jsx:150-153 | the target label of a message: allies for a chat-wheel line that is not broadcast, all otherwise. Its cases are stated by `TargetScope.ChatWheelTarget`, `TargetScope.ChatTarget` and `TargetScope.NonNumericTarget` |
| TargetScope.DecimalString | src/components/Match/Chat/Chat.jsx:151 | the numeral of a voice-line id is a nonempty string of digits |
| TargetScope.DigitsValueOfDecimal | src/components/Match/Chat/Chat.jsx:151 | reading back the numeral of `n` gives `n` |
| TargetScope.NumberOfDecimal | src/components/Match/Chat/Chat.jsx:151 | `Number` of the numeral of `n` is `n` |
| TargetScope.ChatWheelTarget | src/components/Match/Chat/Chat.jsx:150-153 | a voice line with id `n` targets all if and only if `n` is in the broadcast list of line 15 (75, 76, 108, 109 or 110), and allies if and only if it is not |
| TargetScope.ChatTarget | src/components/Match/Chat/Chat.jsx:150-153 | text chat always targets all |
| TargetScope.NonNumericTarget | src/components/Match/Chat/Chat.jsx:150-153 | a voice line whose key is not a number (`NaN`) targets allies |
| TargetScope.TargetExamples | src/components/Match/Chat/Chat.jsx:150-153 | voice line `"76"` targets all, voice line `"12"` allies |
| FilterSet.Toggles.Get | src/components/Match/Chat/Chat.jsx:78 | `this.state[k]`: the toggle of one filter key |
| FilterSet.Toggles.Flip | src/components/Match/Chat/Chat.jsx:70-71 | flipping a key negates its toggle and leaves the other four as they were |
| FilterSet.Matches | src/components/Match/Chat/Chat.jsx:57-62 | the five filter predicates: radiant and dire on the slot's team, chat and chat wheel on the type, spam on the flag |
| FilterSet.Matched | src/components/Match/Chat/Chat.jsx:57-63 | a filter's result holds exactly the raw events its predicate matches, in raw order, each once |
| FilterSet.MatchSetGrows | src/components/Match/Chat/Chat.jsx:57-63 | one more raw event adds its index to a filter's matches exactly when the predicate holds for it |
| FilterSet.MatchCount | src/components/Match/Chat/Chat.jsx:198 | `this.filters[key]().length`, the count beside a toggle, which `FilterSet.CountIsMatchedEvents` proves is the number of matched raw events |
| FilterSet.CountIsMatchedEvents | src/components/Match/Chat/Chat.jsx:198 | the count beside a toggle is the number of raw events its predicate matches |
| FilterSet.TeamCountsAddUp | src/components/Match/Chat/Chat.jsx:58-59 | the radiant and dire counts add up to the number of events, since the dire predicate is the negation of the radiant one |
| FilterSet.KindCountsAddUp | src/components/Match/Chat/Chat.jsx:60-61 | the chat and chat-wheel counts add up to the number of events |
| FilterSet.Shown | src/components/Match/Chat/Chat.jsx:75-86 | an event survives `filter`'s removals exactly when no filter whose toggle is off matches it |
| FilterSet.AllOnShowsEverything | src/components/Match/Chat/Chat.jsx:75-86 | with every toggle on every raw event is shown |
| FilterSet.OffFilterHides | src/components/Match/Chat/Chat.jsx:77-84 | an event matched by a filter whose toggle is off is hidden, whatever the other toggles say |
| FilterSet.DefaultsHideOnlySpam | src/components/Match/Chat/Chat.jsx:47-63 | with the default toggles an event is shown if and only if it is not spam |
| FilterSet.FilterOrderHasEveryKey | src/components/Match/Chat/Chat.jsx:77 | the removal loop visits all five filters |
| Sorter.Compare | src/components/Match/Chat/Chat.jsx:89-98 | the comparator is negative exactly when the first event is earlier, or at the same time clean against spam. It is zero exactly for equal time and equal spam status, and positive in the remaining cases |
| Sorter.CompareSwapped | src/components/Match/Chat/Chat.jsx:89-98 | swapping the comparator's arguments flips the sign of its result |
| Sorter.Precedes | src/components/Match/Chat/Chat.jsx:89-98 | display order: the comparator, with ties broken by raw index, which is what a stable sort of a list in raw order gives |
| Sorter.InViewOrder | src/components/Match/Chat/Chat.jsx:89-98 | a list of raw events is sorted in display order |
| Sorter.PrecedesTransitive | src/components/Match/Chat/Chat.jsx:89-98 | display order is transitive |
| Sorter.PrecedesAsymmetric | src/components/Match/Chat/Chat.jsx:89-98 | display order is asymmetric and irreflexive |
| Sorter.ViewOrderMeaning | src/components/Match/Chat/Chat.jsx:88-98 | in a sorted view time never decreases, at equal time clean events come before spam, equal-ranked events keep raw order, and no event appears twice |
| Sorter.ViewOrderUnique | src/components/Match/Chat/Chat.jsx:89-98 | two sorted lists of the same events are equal: the view is determined by which events it shows |
| Sorter.InsertKeepsOrder | src/components/Match/Chat/Chat.jsx:89-98 | inserting an event after everything ranked no higher keeps display order |
| Sorter.InsertAdds | src/components/Match/Chat/Chat.jsx:89-98 | an insertion adds exactly the inserted event |
| Sorter.InsertionPoint | src/components/Match/Chat/Chat.jsx:89-98 | every element from the insertion point on is ranked strictly above the new event by the comparator, and the element just before it is not |
| Sorter.InsertInOrder | src/components/Match/Chat/Chat.jsx:89-98 | one insertion step adds exactly the new event and keeps display order |
| Sorter.SortView | src/components/Match/Chat/Chat.jsx:89-98 | the sort returns the same events, in display order |
| Engine.IndexOf | src/components/Match/Chat/Chat.jsx:80 | `indexOf` returns -1 exactly when the event is absent, and otherwise the first position holding it |
| Engine.SpliceRemovesOne | src/components/Match/Chat/Chat.jsx:81-83 | `splice(index, 1)` on a list without repeats removes that event and nothing else |
| Engine.RemoveEach | src/components/Match/Chat/Chat.jsx:79-84 | after the removals, the list holds exactly the events not matched by the filter, still in raw order |
| Engine.RemoveFiltered | src/components/Match/Chat/Chat.jsx:75-86 | the copy with the off filters' events removed holds exactly the shown events, in raw order |
| Engine.ChatEngine.constructor | src/components/Match/Chat/Chat.jsx:18-53 | the component keeps the caller's array, flags it in place to `Detect` of its old contents, and starts from the default toggles |
| Engine.ChatEngine.Filter | src/components/Match/Chat/Chat.jsx:69-99 | `filter(key)` negates exactly the given toggle, or none when called without a key. The view then holds exactly the shown events, each once, in display order |
| Engine.ChatEngine.CountFor | src/components/Match/Chat/Chat.jsx:198 | the count beside a toggle is the size of the set of raw events its filter matches, whatever the toggles |
| Engine.SpamToggleScenario | src/components/Match/Chat/Chat.jsx:24-99 | one spam and two clean events at the same time: the first view shows the clean two. After the spam toggle flips, it shows all three, clean before spam, even though the spam event comes earlier in raw order |

## Left out

- Rendering is left out: the JSX of `render`, `Messages` and `Filters`, hero images, player colours, profile links, localised strings, the `Toggle` widget and CSS classes. The `Number(msg.key) >= 86` choice between a volume button and an icon (line 133) is a rendering decision and is left out too.
- `audio` (lines 101-115) is left out: browser audio, timers and `setState`.
- React machinery is left out: `forceUpdate`, `bind`, the `playing` entry of the state and the props object. The lazy first `filter()` in `render` (lines 118-120) is modelled only as the first call of `Filter` in `Engine.SpamToggleScenario`.
- `isRadiant` is imported from a utility module that is not part of this model. It is a parameter (`int -> bool`) of the component, and `dire` is its negation.
- Event fields other than slot, time, type, key and spam (hero id, account id, name) are only displayed, so they are left out.
- TargetScope.NumberOf: `Number(key)` is modelled for keys that are decimal digits between white space, with blank keys giving 0; every other key is treated as `NaN`. Signs, decimals, exponents and hexadecimal keys are not modelled; chat-wheel keys are voice-line ids.
- Times are integers. `Number(a.time)` in the comparator is the identity on them, and `NaN` times are not modelled.
- Sorter.SortView: the native in-place `sort` is modelled as a stable insertion sort on a sequence of indices. The model proves the result that stability promises, not the engine's own algorithm or its in-place update.
- Filter keys are a five-valued datatype. The component does not validate the key at line 71: an unknown key only adds a state entry and hides nothing, so no error path exists to model.

Behaviours worth knowing, all proved about the code as written:

- A spam flag already present in the input data is kept. `Detect` starts from each event's own `spam` field, and `SpamDetector.NeverClears` shows the scan never clears one.
- Running the pass a second time over its own output is not a no-op. `SpamDetector.RerunCanAddFlag` shows why. A key that took part in a same-slot chat pair is trimmed by the later pair, after it was compared with its predecessor. A second pass then compares the trimmed key and can find a repeat. `SpamDetector.RerunKeepsKeys` shows that no key changes.
- The repeat rule compares the predecessor's key as the previous pair left it. That key may already be trimmed, while the later key is still untrimmed. `SpamDetector.KeyWhenCompared` captures this and `SpamDetector.RepeatIsFlagged` states the rule with it.
