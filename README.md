# mbtp-linker core, modelled in Dafny

This project models the logic at the heart of the homeschool dictionary and
link helper (`mbtp-linker`), and proves properties of that model:

- **The dictionary-response normaliser** of the `/api/define` route. It takes
  the untrusted JSON that the Merriam-Webster dictionary and thesaurus APIs
  return and turns it into the page's result. The pieces are:
  - the markup cleaner (`cleanMWText`);
  - the audio URL builder and the first-pronunciation picker;
  - the recursive example walk, which fills a capped set;
  - the etymology extractor;
  - the part-of-speech aggregator (`extractAllDefsByPOS`);
  - the synonym extractor and the suggestion slice.

  JSON is the `JsValue.Value` datatype. An object is its list of fields in
  insertion order, because `Object.values` order matters. A JavaScript `Set`
  is a sequence without duplicates, kept in insertion order
  (`OrderedSet`, with the mutable `OrderedSet.MutableSet` the walkers fill).
- **The study timer.** `formatTimer` is modelled as a clock string, with its
  round trip back to seconds. The timer-session store is a class whose list
  is canonicalised: today only, sorted by start, at most 50. The timer
  component's state machine is a class too (`StudyTimer.Timer`).
- **The saved links.** The saved-links store prepends and caps at 5, and
  removes by id. The previous-links list moves a link to the front.
- **The results view.** It covers the part-of-speech ordering and the
  synonym fallback.
- **Server logging.** This covers the `logEvent` switch, `pruneUndefinedDeep`
  and the event envelope with its defaults. The event collection is modelled
  as a map.

The cleaner's contracts view a string as its visible (non-whitespace)
characters together with its gaps. A gap is a flag, for each place before,
between or after the visible characters, saying whether whitespace stands
there. Each tidy pass is described exactly on that view
(`MarkupContent`). The cleaner is also proved idempotent
(`MarkupFixpoints`), and a worked definition is run through every pass
(`MarkupExample`).

Parameters stand in for the clock, the ISO conversions, "is today" in the
user's time zone, and new ids. The recursive walkers take the text cleaner
as a parameter `clean`. The entry points pass `MarkupCleaner.CleanMWText`,
so the walks are proved once for any cleaner. The cleaner's own properties
are then applied to each string the walk keeps.

## Model

| member | source | states |
|---|---|---|
| JsValue.Get | app/api/define/route.ts:121-126 | A property read gives `undefined` unless the value is an object holding that key, and then it gives that key's first value |
| JsValue.Values | app/api/define/route.ts:178-190 | `Object.values`, plus an array's elements: exactly the elements or the field values, in order, and nothing for any other value |
| Guards.StringsOfStringArray | app/api/define/route.ts:39-41 | On a string array, the guard's strings are exactly the array's elements, in order |
| MarkupCleaner.PipedTokenRule | app/api/define/route.ts:58-87 | A piped token `{tag\|a\|…}` becomes its first argument `a`, except that tag `bc` becomes `": "`; the rest of the text is processed on |
| MarkupCleaner.StyleTagRule | app/api/define/route.ts:90-92 | `{it}`, `{/it}`, `{sc}`, `{/sc}`, `{b}` and `{/b}` are removed and the following text is kept |
| MarkupCleaner.BareBoxColonRule | app/api/define/route.ts:93 | A bare `{bc}` becomes `": "` |
| MarkupCleaner.UnknownTokenRule | app/api/define/route.ts:95-96 | Any other `{…}` token with a non-empty body and no pipe is dropped |
| MarkupCleaner.BracePassesPlain | app/api/define/route.ts:56-96 | Text with no `{` passes through all the token passes unchanged |
| MarkupCleaner.PipedReplacement | app/api/define/route.ts:60-85 | The replacement of a piped token is `": "` for `bc`, and otherwise the prefix of the arguments up to the first `\|` |
| MarkupCleaner.CleanMWTextShape | app/api/define/route.ts:53-102 | The cleaned text has no `{…}` token left. Every whitespace is a single space. No space precedes `,.;:!?`, and there is no leading or trailing space |
| MarkupCleaner.TidyShape | app/api/define/route.ts:98-102 | The whitespace, punctuation and dash tidy plus the trim yields that shape from any brace-free text |
| MarkupContent.CollapseContent | app/api/define/route.ts:99 | Collapsing whitespace keeps the visible characters and every gap: each whitespace run stays a gap, and no gap is added |
| MarkupContent.SingleSpacedUnique | app/api/define/route.ts:99 | Two single-spaced strings with the same visible characters and the same gaps are equal |
| MarkupContent.CollapseCanonical | app/api/define/route.ts:99 | The collapsed text is the only single-spaced string with the input's visible characters and gaps |
| MarkupContent.PunctFixContent | app/api/define/route.ts:100 | The punctuation pass keeps the visible characters. It closes exactly the gaps before `,.;:!?` and keeps every other gap |
| MarkupContent.DashFixContent | app/api/define/route.ts:101 | The dash pass keeps every gap and every visible character. The only change allowed is an en dash becoming an em dash, and only where whitespace follows it and whitespace or the start precedes it |
| MarkupContent.TrimContent | app/api/define/route.ts:102 | `trim` keeps the visible characters and every inner gap, and closes the leading and trailing gaps |
| MarkupContent.TidyContent | app/api/define/route.ts:99-102 | The four tidy passes together: the visible text survives up to en-to-em dash changes. The gaps are the input's, minus those before punctuation and at the two ends |
| MarkupContent.CleanMWTextContent | app/api/define/route.ts:53-103 | Empty input gives `""`. Otherwise the result is the tidy of the brace passes' output, in the sense of `TidyContent` |
| MarkupContent.CleanPlainContent | app/api/define/route.ts:53-103 | On text without `{`, the cleaner keeps every visible character, up to en-to-em dash changes, and only adjusts the spacing |
| MarkupFixpoints.BracePassesFixes | app/api/define/route.ts:56-96 | Text without any `{…}` token passes all the brace passes unchanged |
| MarkupFixpoints.CollapseFixes | app/api/define/route.ts:99 | Single-spaced text is left alone by the whitespace collapse |
| MarkupFixpoints.PunctFixFixes | app/api/define/route.ts:100 | Text with single spaces and no space before punctuation is left alone by the punctuation pass |
| MarkupFixpoints.DashFixIdempotent | app/api/define/route.ts:101 | The dash pass applied twice does what it does once |
| MarkupFixpoints.TidyFixes | app/api/define/route.ts:99-102 | The tidy passes leave alone text of the cleaner's output shape that the dash pass does not change |
| MarkupFixpoints.CleanIdempotent | app/api/define/route.ts:53-103 | Cleaning cleaned text changes nothing |
| MarkupExample.CleanRun | app/api/define/route.ts:53-103 | On four plain words with the second in `{it}…{/it}` and a `{bc}` before the last, the result is the words with single spaces and a colon glued to the third word |
| MarkupExample.CleanExample | app/api/define/route.ts:53-103 | `"a {it}star{/it} is {bc}bright"` is cleaned to `"a star is: bright"` |
| Text.TrimSpec | app/api/define/route.ts:102 | `trim` removes exactly the leading and trailing whitespace |
| Text.TrimIdempotent | app/api/define/route.ts:102 | Trimming twice is trimming once |
| Pronunciation.AudioUrl | app/api/define/route.ts:106-115 | The URL is the fixed base, then the folder, `/`, the token and `.mp3` |
| Pronunciation.AudioFolderRules | app/api/define/route.ts:107-113 | The folder is `bix` for a `bix` prefix, then `gg` for a `gg` prefix, then `number` for a leading digit, and otherwise the first character. An empty token gives `undefined` |
| Pronunciation.FirstUsable | app/api/define/route.ts:124-132 | The index of the first element whose `mw` is a non-empty string or whose `sound.audio` is a string |
| Pronunciation.PickFirstSpec | app/api/define/route.ts:118-134 | A pronunciation is found iff some element qualifies. It is built from the first qualifying element |
| Pronunciation.PickedPronIsUsable | app/api/define/route.ts:127-131 | The returned pronunciation has a non-empty respelling or an audio URL on the fixed base |
| Pronunciation.FirstPronAsWritten | app/api/define/route.ts:118-134 | As written: no `prs` array gives none. A `null` element before any usable one throws. Otherwise the first usable element wins |
| Pronunciation.NullPrsThrows | app/api/define/route.ts:125 | An entry with `prs: [null]` reaches the throwing property read |
| Pronunciation.FirstPron | app/api/define/route.ts:118-134 | The corrected loop reads `mw` and `sound.audio` with optional chaining, so it never throws, and returns the first usable element's pronunciation or none |
| Examples.CollectDtExamples | app/api/define/route.ts:141-164 | The set grows by the cleaned `t` of every `vis`/`uns` item, in order, checking the limit after each add |
| Examples.CollectTexts | app/api/define/route.ts:147-160 | Adds the cleaned `t` strings one by one, and reports "full" exactly when an add left the set at or over the limit |
| Examples.WalkSseq | app/api/define/route.ts:167-196 | The set becomes the candidates of the node, in tree order, added up to the limit. A falsy node or a full set changes nothing |
| Examples.WalkChildren | app/api/define/route.ts:178-193 | Walking the children in order equals the capped walk of their concatenated candidates |
| Examples.ExtractExamplesFromEntry | app/api/define/route.ts:198-208 | Returns the specification `EntryExamples`: the capped, first-seen candidates of every `def[].sseq` |
| Examples.ExamplesBounded | app/api/define/route.ts:141-208 | The examples have no duplicates and at most `limit` of them. Each is a cleaned candidate. Below the limit, every cleaned candidate is present |
| Examples.ExamplesClean | app/api/define/route.ts:150 | Every example has the cleaner's output shape |
| Etymology.ExtractEtymologiesFromEntry | app/api/define/route.ts:215-264 | `et` text pairs, then `history.pt` text pairs or bare strings, cleaned. Empty results are skipped and each string is added once, stopping at the limit |
| Etymology.OfferEtParts | app/api/define/route.ts:220-235 | The `et` loop adds the offered strings up to the limit, and "full" means it returned early |
| Etymology.OfferRaws | app/api/define/route.ts:228-232 | One text part: its cleaned text is pushed when non-empty and new. "Full" means the push reached the limit |
| Etymology.OfferHistoryChunks | app/api/define/route.ts:240-261 | The `history.pt` loop adds the offered strings up to the limit |
| Etymology.Offered | app/api/define/route.ts:229 | Only non-empty cleaned strings are offered |
| Etymology.EtymologiesBounded | app/api/define/route.ts:215-264 | The etymologies are distinct, non-empty, cleaned source strings; there are at most `limit` (at least one is kept even for a limit below 1). Below the limit every non-empty cleaned string is present |
| Etymology.EtymologiesClean | app/api/define/route.ts:228-254 | Every etymology has the cleaner's output shape |
| Etymology.EtFirst | app/api/define/route.ts:231 | When `et` alone fills the list, `history` is never read |
| DefsByPos.ExtractAllDefsByPOS | app/api/define/route.ts:267-329 | The method's buckets equal the specification `AllDefsByPos` |
| DefsByPos.FillBucket | app/api/define/route.ts:299-317 | One entry's merge: new definitions appended once, the pronunciation kept if present, and examples (cap 6) and etymologies (cap 2) added below their caps |
| DefsByPos.AddMissing | app/api/define/route.ts:300-301 | `includes`-guarded push is first-seen deduplication |
| DefsByPos.AddBelowCap | app/api/define/route.ts:310-317 | Size-guarded set add is the capped insertion |
| DefsByPos.AbsorbEntry | app/api/define/route.ts:293-319 | A new part of speech is appended to the key order; an existing one keeps its place |
| DefsByPos.GroupOrder | app/api/define/route.ts:276-322 | Bucket order is the first-seen order of the accepted `fl` values, with one bucket per `fl` |
| DefsByPos.GroupDefinitions | app/api/define/route.ts:299-301 | A bucket's definitions are that `fl`'s short definitions, deduplicated in first-seen order |
| DefsByPos.GroupPronunciation | app/api/define/route.ts:303-307 | A bucket's pronunciation is the first one found among its entries and is never replaced |
| DefsByPos.GroupExamples | app/api/define/route.ts:309-312 | A bucket's examples are its entries' examples, first-seen, capped at 6 |
| DefsByPos.GroupEtymologies | app/api/define/route.ts:314-317 | A bucket's etymologies are its entries' etymologies, first-seen, capped at 2 |
| DefsByPos.Emit | app/api/define/route.ts:322-328 | One output item per key, in key order. Item `i` carries key `i` and that key's bucket (definitions, pronunciation, examples, etymologies) |
| DefsByPos.AllDefsByPosSpec | app/api/define/route.ts:267-329 | Not an array of objects gives `[]`. Otherwise there is exactly one item per accepted `fl`, in first-seen order, with deduplicated definitions, the first pronunciation, at most 6 distinct examples and at most 2 distinct etymologies |
| Synonyms.ExtractSynonymsByPOS | app/api/define/route.ts:332-385 | The nested loops equal the specification `AllSynonyms` |
| Synonyms.EntrySynonyms | app/api/define/route.ts:338-382 | One entry's loop body gives exactly that entry's group: its `fl` with its words deduplicated, or nothing |
| Synonyms.CollectPairs | app/api/define/route.ts:352-375 | Each sense pair adds its `syn_list` words; malformed pairs add nothing |
| Synonyms.CollectGroups | app/api/define/route.ts:368-373 | Every string `wd` of every group is added once, in order |
| Synonyms.EntryGroupSpec | app/api/define/route.ts:338-382 | An entry yields at most one item. It yields one exactly when it has a non-empty string `fl` and at least one word, and then it has that `fl` and exactly its words, without duplicates |
| Synonyms.AllSynonymsPerEntry | app/api/define/route.ts:338-384 | No more items than entries, and each item comes from a single entry: entries sharing an `fl` are not merged |
| Synonyms.AllOrNothing | app/api/define/route.ts:361-367 | One group that is not an array makes the whole `syn_list` contribute nothing |
| Synonyms.ExtractSuggestions | app/api/define/route.ts:388-390 | A string array gives its first `min(limit, length)` strings (an empty array counts); anything else gives `[]` |
| OrderedSet.AddEachBounds | app/api/define/route.ts:150-151 | Add-then-check-size keeps the set duplicate-free, only grows it, adds only offered items, and stays within the limit |
| OrderedSet.CappedBounds | app/api/define/route.ts:311 | Size-guarded adds never exceed the cap and keep the set duplicate-free |
| OrderedSet.DedupeIntoSpec | app/api/define/route.ts:301 | `includes`-guarded pushes hold exactly the old and new items, without duplicates |
| OrderedSet.MutableSet.Add | app/api/define/route.ts:150 | `Set.add` appends an item only if it is absent |
| FormatTimer.FormatTimerFields | utils/format-helpers.ts:2-9 | Hours are `secs div 3600`, minutes `(secs mod 3600) div 60` and seconds `secs mod 60`. Minutes and seconds are two digits below 60. It is `HH:MM:SS` with hours padded to at least two digits when there are hours, and `MM:SS` otherwise |
| FormatTimer.FormatTimerRoundTrip | utils/format-helpers.ts:1-10 | Reading the clock back gives `h*3600 + m*60 + s == secs` for every non-negative input |
| FormatTimer.PadStart2 | utils/format-helpers.ts:5-8 | `padStart(2, "0")` gives exactly two characters for a shorter string and leaves a longer one as long as it was |
| FormatTimer.FormatTimer | utils/format-helpers.ts:1-10 | The clock is five characters (`MM:SS`) exactly when there are no whole hours |
| TimerSessions.FilterToToday | store/timerSessions.tsx:65-68 | Exactly the sessions whose `endedAt` is today |
| TimerSessions.SortByStartedAtAsc | store/timerSessions.tsx:70-73 | The sort is a permutation |
| TimerSessions.SortSorted | store/timerSessions.tsx:70-73 | The sort is ascending by `startedAt` |
| TimerSessions.SortStable | store/timerSessions.tsx:70-73 | Sessions with the same `startedAt` keep their relative order |
| TimerSessions.CanonicalizeSpec | store/timerSessions.tsx:93-94 | The canonical list is today-only, sorted and at most 50 long, drawn from the today-sessions of the input |
| TimerSessions.CanonicalizeKeepsEarliest | store/timerSessions.tsx:93-94 | A today-session that was cut starts no earlier than every kept one: the 50 earliest are kept |
| TimerSessions.CanonicalizeIdempotent | store/timerSessions.tsx:93-94 | Canonicalising twice is canonicalising once |
| TimerSessions.ComputedDuration | store/timerSessions.tsx:137-140 | `max(0, round(ms / 1000))`: never negative, and within half a second of the elapsed time |
| TimerSessions.NewSessionSpec | store/timerSessions.tsx:141-147 | The new session has the given id, ISO instants and label. A given duration is used as is; otherwise the computed duration is used |
| TimerSessions.SessionStore.AddTimerSession | store/timerSessions.tsx:131-152 | An existing id leaves the list as it is. Otherwise the list is the canonical form of the new session prepended to the old list |
| TimerSessions.UpdateMatching | store/timerSessions.tsx:159 | The update is applied to every element, so the length is kept |
| TimerSessions.UpdateSpec | store/timerSessions.tsx:159 | Only the given fields of sessions with the id are overwritten, and every other session is unchanged |
| TimerSessions.SessionStore.UpdateSession | store/timerSessions.tsx:154-162 | The list becomes the canonical form of the updated list |
| TimerSessions.RemoveSpec | store/timerSessions.tsx:165 | The filter keeps exactly the sessions with another id |
| TimerSessions.SessionStore.RemoveSession | store/timerSessions.tsx:164-165 | The list becomes the canonical form of the filtered list, with no session of that id left |
| TimerSessions.SessionStore.ClearSessions | store/timerSessions.tsx:166 | The list becomes empty |
| TimerSessions.TotalOfToday | store/timerSessions.tsx:168-171 | With at most 50 sessions today, the total is the sum of today's durations in any order |
| SavedLinks.Prepended | store/settings.tsx:71 | The new link is first. After it come the old links in order, up to a length of 5 |
| SavedLinks.AddKeepsNewest | store/settings.tsx:71 | At most 5 links, position k holds old link k-1, and nothing is dropped below the cap |
| SavedLinks.SavedLinksStore.AddSavedLink | store/settings.tsx:60-74 | The stored list is the fresh link, with the given id, `href = url`, `label = suffix` and today's date, prepended and capped |
| SavedLinks.WithoutId | store/settings.tsx:77 | Removing never lengthens the list |
| SavedLinks.RemoveSpec | store/settings.tsx:76-79 | Exactly the links with another id remain, in their order; an absent id changes nothing |
| SavedLinks.SavedLinksStore.RemoveSavedLink | store/settings.tsx:76-79 | The stored list loses every link with the id |
| SavedLinks.SavedLinksStore.Mirror | store/settings.tsx:53-56 | The shown list is set to the stored list |
| PreviousLinks.BumpLinkAsWritten | components/previous-links/PreviousLinks.tsx:25-35 | As written: the link's date is overwritten in place, then the missing `updateAllLinks` throws and no list changes |
| PreviousLinks.BumpLink | components/previous-links/PreviousLinks.tsx:25-35 | The intended move-to-front: the shown array is untouched except the link's date, and the stored list becomes the bumped copy |
| PreviousLinks.BumpedOrder | components/previous-links/PreviousLinks.tsx:32-34 | Same length, the chosen link first, and all others in their relative order |
| PreviousLinks.BumpedPermutation | components/previous-links/PreviousLinks.tsx:32-34 | The bumped list is a permutation |
| PreviousLinks.BumpFirst | components/previous-links/PreviousLinks.tsx:32-34 | Bumping the first link changes nothing |
| ResultsView.IndexOf | components/dictionary/Results.tsx:26 | `indexOf`: -1 exactly for an absent value, otherwise the first position |
| ResultsView.SortedEntriesSpec | components/dictionary/Results.tsx:14-27 | The sorted entries are a permutation, and an entry with a smaller key comes first |
| ResultsView.SortStable | components/dictionary/Results.tsx:25-27 | Entries with equal keys keep their input order |
| ResultsView.UnknownFirst | components/dictionary/Results.tsx:25-27 | Every unknown part of speech sorts before every known one, contrary to the comment |
| ResultsView.DefaultValueSpec | components/dictionary/Results.tsx:35 | There is no open item only when there are no entries. Otherwise it is the `fl` of an entry with the smallest key |
| ResultsView.SynMap | components/dictionary/Results.tsx:6-8 | The map's keys are exactly the groups' `fl` values |
| ResultsView.SynMapLastWins | components/dictionary/Results.tsx:6-8 | For a shared `fl`, the last group wins |
| ResultsView.FallbackSpec | components/dictionary/Results.tsx:9-11 | The fallback is every synonym of every group, without duplicates |
| ResultsView.ShownSynonymsSpec | components/dictionary/Results.tsx:38-39 | A non-empty own list is shown; otherwise the fallback is shown |
| StudyTimer.RunSeconds | components/timer/Timer.tsx:41 | `floor((now - start) / 1000)`: the whole seconds of the run |
| StudyTimer.PauseTruncates | components/timer/Timer.tsx:66-79 | Splitting a run with a pause loses at most one second |
| StudyTimer.Timer.Tick | components/timer/Timer.tsx:38-45 | While running, the display becomes base plus the run's whole seconds; when stopped, nothing changes |
| StudyTimer.Timer.StartOrResume | components/timer/Timer.tsx:49-64 | Shown and running from `now`. The start instant is set only if it was unset, and the end instant is cleared |
| StudyTimer.Timer.Pause | components/timer/Timer.tsx:66-79 | No-op when stopped. Otherwise the run's whole seconds join the base, the run is cleared, the base is displayed and `now` becomes the end instant |
| StudyTimer.Timer.ResetTimer | components/timer/Timer.tsx:83-96 | Everything is zeroed, cleared and hidden except `saving` |
| StudyTimer.Timer.SetLabel | components/timer/Timer.tsx:233 | The label input's text is stored |
| StudyTimer.SaveTimes | components/timer/Timer.tsx:116-124 | Known instants are kept. A missing one is derived so that end minus start is the duration |
| StudyTimer.EditUpdates | components/timer/Timer.tsx:126-137 | Duration and end are updated iff time was added since loading, and the label iff its trim is non-empty. The start is never updated |
| StudyTimer.NewLabel | components/timer/Timer.tsx:151 | The trimmed label, or none when the trim is empty |
| StudyTimer.NothingToUpdate | components/timer/Timer.tsx:139-141 | No added time and a blank label send no update |
| StudyTimer.Timer.SaveTimer | components/timer/Timer.tsx:98-158 | No-op while saving. A running timer is paused first, and a base of zero or less stores nothing. An edit sends its updates only when there are any; otherwise a new session is added with the trimmed label. The timer is then reset |
| StudyTimer.Timer.ResumeFromSession | components/timer/Timer.tsx:160-175 | Loaded and stopped. The base, the baseline and the display equal the session's duration. The label, the editing id and both instants come from the session |
| LogEvent.LoggingSwitch | lib/logging/server-logging/logEvent.ts:22-29 | `LOG_EVENTS=1` enables logging, `0` disables it, and otherwise it is on only in production |
| LogEvent.PruneArray | lib/logging/server-logging/logEvent.ts:86 | Arrays are pruned element by element, with the same length, and `undefined` elements are kept |
| LogEvent.PruneObject | lib/logging/server-logging/logEvent.ts:87-92 | Plain objects keep exactly their defined keys, in order, with pruned values |
| LogEvent.Defined | lib/logging/server-logging/logEvent.ts:89-90 | Dropping undefined entries never lengthens the object |
| LogEvent.DefinedSpec | lib/logging/server-logging/logEvent.ts:89-90 | Exactly the entries whose value is not `undefined` are kept |
| LogEvent.PruneLeavesOthers | lib/logging/server-logging/logEvent.ts:94-95 | Non-plain objects and primitives are returned as they are |
| LogEvent.PruneRemovesAll | lib/logging/server-logging/logEvent.ts:85-96 | No plain object in the result holds an `undefined` value at any depth |
| LogEvent.PruneClean | lib/logging/server-logging/logEvent.ts:85-96 | A value without `undefined` in its objects is left unchanged |
| LogEvent.PruneIdempotent | lib/logging/server-logging/logEvent.ts:85-96 | Pruning twice is pruning once |
| LogEvent.PruneDefined | lib/logging/server-logging/logEvent.ts:85-96 | Pruning never turns a defined value into `undefined` |
| LogEvent.GetPruned | lib/logging/server-logging/logEvent.ts:89-90 | A defined key of a pruned object reads as its pruned value |
| LogEvent.DocumentField | lib/logging/server-logging/logEvent.ts:111-171 | Every defined envelope property reads from the stored document as its pruned value |
| LogEvent.DocumentLacks | lib/logging/server-logging/logEvent.ts:130-140 | Undefined envelope properties are absent from the stored document |
| LogEvent.EnvelopeFixed | lib/logging/server-logging/logEvent.ts:112-115 | The document carries the app id, the environment and the event name |
| LogEvent.EnvelopeDefaults | lib/logging/server-logging/logEvent.ts:115-126 | A missing or null field takes its default: category `event`, severity `info`, origin `server`, and null for userId, session, clientId and cache. Otherwise the given value is used |
| LogEvent.EnvelopeUserAgent | lib/logging/server-logging/logEvent.ts:128 | `ua` is null iff it is missing or empty; otherwise it is its first `min(length, 160)` characters |
| LogEvent.EnvelopeIds | lib/logging/server-logging/logEvent.ts:111-134 | `eventId` is present exactly when one is given. `ttlAt` is absent without an id or without `ttlDays` |
| LogEvent.EventCollection.LogEvent | lib/logging/server-logging/logEvent.ts:100-175 | Disabled logging changes nothing. With an event id, a document is created under that id only if it is absent, so an existing one is kept. Otherwise the document is added |

## Left out

- The `GET` handler of the define route: outbound fetches, environment keys
  and cache headers are network and configuration.
- Time-zone arithmetic (`ymd`, `resolveTZ`, `formatIsoToLocalTime`) is not
  modelled. "Is today" is a predicate parameter on a session's `endedAt`.
- The once-a-day purge with `localStorage` and focus listeners, and the
  `useLocalStorage` hooks, are browser I/O. The stores hold their list
  directly.
- `useInterval` scheduling, the rendering, `logUi` calls and
  `crypto.randomUUID`/`uuidv4` are not modelled. Ids are parameters.
- `Date` is not modelled. Instants are integer milliseconds, and the ISO
  conversion and parsing of instants are function parameters.
- `localeCompare` is not modelled. Session starts are ordered by the total
  order `StringOrder.LexLe`, which is proved reflexive, total, transitive
  and antisymmetric.
- The network side of logging is not modelled: the Firestore client,
  failures other than "already exists" (all swallowed), the client beacon
  and the opt-out routes. The server timestamp is an opaque value.
- Floating-point numbers are not modelled: JSON numbers are integers, which
  no normaliser rule depends on.
- The wake-lock and speech components, the form components and layout are
  presentation and browser APIs.
- Regular expressions are not modelled: the cleaner's passes are hand-written
  scanners, one per expression. `\s` is the JavaScript whitespace set, and
  the dashes are the en and em dash.
- The branch at `app/api/define/route.ts:183-185` cannot be reached, because
  an array payload already passes the object test at line 174. The model
  keeps only the reachable branch.
- StudyTimer.Timer.SaveTimer: React state updates are modelled as taking
  effect at once. The `saving` flag is therefore false again when the save
  returns.
- TimerSessions.TotalOfToday: states the total only when at most 50 sessions
  end today. Beyond that, the total is over the 50 earliest, as
  `CanonicalizeSpec` shows.
- TimerSessions.NewSessionSpec: pins the computed duration only for whole
  seconds. `ComputedDuration` states the rounding bounds in general.
- PreviousLinks.BumpLink: models the evident intent, storing the bumped
  list, because the context has no `updateAllLinks`
  (`PreviousLinks.BumpLinkAsWritten` models the code as written). The
  component renders nothing for an empty list (`PreviousLinks.Renders`).
- FormatTimer.FormatTimer: takes a non-negative number of whole seconds;
  negative and fractional inputs are not modelled.
- Etymology.EtymologiesBounded: for a limit below 1, one etymology can still
  be kept, because the size is checked after the first push, as the source
  does.
- DefsByPos.ExtractAllDefsByPOS: is built on the corrected picker
  `Pronunciation.FirstPron`, so it never throws. The source's aggregate calls
  `firstPron` (`app/api/define/route.ts:304-305`), which throws on a `null`
  element of `hwi.prs` before a usable one (first Findings row), and then the
  whole request fails. `AllDefsByPosSpec` likewise describes the intended
  result.
- JsValue.Get: reads the first field with the key, while `JSON.parse` keeps
  the last value of a repeated key. An object's fields also stay in document
  order, while JavaScript lists integer-like keys first, in ascending order.
  The model takes objects to have distinct, non-integer-like keys.
- Pronunciation.AudioFolder and LogEvent.UaField: strings are sequences of
  Unicode scalar values. JavaScript indexes and slices UTF-16 code units, so
  `token[0]` and `ua.slice(0, 160)` differ from the model on characters
  outside the Basic Multilingual Plane.
- MarkupContent.DashFixContent: states which dashes may become em dashes
  (an en dash with whitespace after it and whitespace or the start before
  it), not that every such dash does. `MarkupContent.TidyContent`,
  `MarkupContent.CleanMWTextContent` and `MarkupContent.CleanPlainContent`
  inherit this. The exact result of the dash pass on a given text is its
  definition `MarkupCleaner.DashFix`.

## Findings

| source | as written | input that shows it | evidently intended | confidence | as-written member | corrected member |
|---|---|---|---|---|---|---|
| app/api/define/route.ts:124-126 | `(p as …).mw` is read from every `prs` element, with no null check | an entry with `hwi.prs` equal to `[null]` throws a TypeError, which fails the whole define request | skip non-object elements and return the first usable pronunciation | high (not executed) | Pronunciation.FirstPronAsWritten, Pronunciation.NullPrsThrows | Pronunciation.FirstPron, Pronunciation.PickFirstSpec |
| components/previous-links/PreviousLinks.tsx:17-18, 35 | `updateAllLinks` is taken from the saved-links context, which provides no such function (store/settings.tsx:15-19) | clicking any previous link: the date is overwritten in place, then the call throws and the order never changes | store the bumped list | high (not executed) | PreviousLinks.BumpLinkAsWritten | PreviousLinks.BumpLink, PreviousLinks.BumpedOrder |
