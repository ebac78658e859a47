# Population flow counter: the counting engine in Dafny

This project models the core of a retail foot-traffic tally app. An operator taps a button for each
person who passes the shop, notices it, consults or buys. A tap can carry a demographic tag
(gender by age group). The model covers:

- the counting reducer: a pure transition `(state, event, now) → state`;
- the load-time migration of saved states;
- the statistics panel's projections;
- the keyboard shortcut decoder;
- the press-and-drag demographic picker;
- the CSV row of an audit entry.

Modules, one per concern:

| file | module | models |
|---|---|---|
| `wrappers.dfy` | `Wrappers` | `Option`, for JavaScript's `undefined`/`null` and missing fields |
| `domain.dfy` | `Domain` | the ordered `Stage` enum, `Tag`, and `PerStage<T>` (one value per stage) |
| `counter_data.dfy` | `CounterData` | counters, history entries, `State`, `initialState`, the invariants |
| `storage.dfy` | `Storage` | the parsed save payload, save, and the LOAD_FROM_STORAGE merge and migration |
| `counter_state.dfy` | `CounterState` | `counterReducer`: the eight actions as `Step` |
| `counter_runs.dfy` | `CounterRuns` | properties of single steps and of whole event sequences |
| `statistics.dfy` | `Statistics` | rates, total interactions, demographic tallies, duration formatting |
| `keyboard.dfy` | `Keyboard` | the key → (stage, tag) decision |
| `drag_button.dfy` | `DragButton` | the option table, labels, drag clamp and press/move/release machine |
| `csv_export.dfy` | `CsvExport` | the CSV row of one history entry |

The clock (`Date.now()`) is a parameter `now` everywhere. A timestamp is an `Option<int>`.
JavaScript's `t || now` treats both `null` and `0` as unset, and `Truthy` models exactly that.

Behaviour of the program worth knowing before reading the contracts:

- INCREMENT always cascades to every earlier stage (`counterState.tsx:110-135`).
- The history grows without bound (`counterState.tsx:152-155`).
- Saving is one `setItem` of the whole state (`counterState.tsx:288-290`).
- START_SESSION keeps an existing (truthy) start time (`counterState.tsx:84-89`).

The source builds the next state from shallow copies (`counterState.tsx` lines 118 and 159). Those
copies share the `total` object, so INCREMENT and DECREMENT also change the previous state's totals
in place. They can even change `initialState`'s totals, which RESET then reuses. The model uses value
semantics instead: each step builds a fresh state, and RESET yields true zeros. This is the behaviour
the comment at line 192 asks for.

## Model

| member | source | states |
|---|---|---|
| CounterState.CascadeOf | src/components/CounterApp/counterState.tsx:110-117 | The stages a tap at `s` counts are exactly the funnel prefix ending at `s`, in funnel order |
| CounterState.CascadeMembers | src/components/CounterApp/counterState.tsx:110-115 | A stage is counted by a tap at `s` iff it comes at or before `s`; no stage is listed twice |
| CounterState.BumpAll | src/components/CounterApp/counterState.tsx:127-137 | Walking a list of distinct stages adds exactly 1 to each listed stage's count and appends the tag to its log; unlisted stages keep count and log |
| CounterState.IncrementStep | src/components/CounterApp/counterState.tsx:109-156 | INCREMENT adds 1 to every stage at or before `s` and leaves later ones alone. It appends the resolved tag (given or current) to those logs only. It adds `Rank(s)+1` history entries and sets last activity to `now`. It sets the start time to `now` only if unset. Preferences are kept |
| CounterState.IncrementHistory | src/components/CounterApp/counterState.tsx:139-155 | INCREMENT keeps the old history as a prefix. It then appends one entry per cascaded stage in funnel order, each with `now`, the post-increment count, `increment` and the resolved tag |
| CounterState.DecrementStep | src/components/CounterApp/counterState.tsx:158-189 | DECREMENT touches only stage `s`. A positive count drops by 1, and the log drops its last tag if it has one. At 0 nothing changes. It appends one untagged entry with value `max(0, c-1)`. It updates last activity, not the start time |
| CounterState.ResetStep | src/components/CounterApp/counterState.tsx:191-202 | RESET zeroes every count and empties every log, the history and both session times. It keeps detailed mode, current demographic and default index |
| CounterState.Step | src/components/CounterApp/counterState.tsx:80-252 | The reducer: START_SESSION, INCREMENT and DECREMENT set last activity to `now`. START_SESSION and the three preference actions leave counters and history untouched. A load never yields default index 0, because of the `\|\| 1` fallback |
| Storage.Save | src/components/CounterApp/counterState.tsx:288-290 | A save writes every field of the state, with the counters in the current `{total, demographics}` shape |
| Storage.Migrate | src/components/CounterApp/counterState.tsx:208-237 | Missing counters become zero counts with empty logs. Current-shape counters are kept as they are. A legacy flat object becomes the same totals with every log empty |
| CounterRuns.IncrementKeepsFunnelOrdered | src/components/CounterApp/counterState.tsx:109-135 | An increment keeps counts non-increasing along the funnel |
| CounterRuns.IncrementsKeepFunnelOrdered | src/components/CounterApp/counterState.tsx:109-135 | Any run of increments from funnel-ordered counts stays funnel-ordered |
| CounterRuns.InitialIncrementsFunnelOrdered | src/components/CounterApp/counterState.tsx:52-66 | From the initial zero state, every sequence of taps gives counts non-increasing along the funnel |
| CounterRuns.StepKeepsLogsMatch | src/components/CounterApp/counterState.tsx:127-173 | Every action except a load keeps `|log[s]| == total[s]` for every stage |
| CounterRuns.StepKeepsLogsWithinCounts | src/components/CounterApp/counterState.tsx:162-173 | Every action except a load keeps `|log[s]| <= total[s]` for every stage. This is the weaker invariant that survives legacy migration |
| CounterRuns.StepKeepsNonNegative | src/components/CounterApp/counterState.tsx:160-163 | Every action except a load keeps every count non-negative, because a decrement at 0 is a no-op |
| CounterRuns.RunKeepsLogsMatch | src/components/CounterApp/counterState.tsx:80-202 | Any run without loads preserves log/count equality |
| CounterRuns.RunKeepsNonNegative | src/components/CounterApp/counterState.tsx:158-174 | Any run without loads keeps counts non-negative |
| CounterRuns.IncrementKeepsTagsOnIncrements | src/components/CounterApp/counterState.tsx:139-145 | An increment appends only tagged `increment` entries |
| CounterRuns.DecrementKeepsTagsOnIncrements | src/components/CounterApp/counterState.tsx:180-188 | A decrement appends only an untagged `decrement` entry |
| CounterRuns.StepKeepsTagsOnIncrements | src/components/CounterApp/counterState.tsx:139-188 | Every action except a load keeps this rule: an audit entry has a tag exactly when it is an increment |
| CounterRuns.RunKeepsTagsOnIncrements | src/components/CounterApp/counterState.tsx:139-188 | Any run without loads keeps that tag rule |
| CounterRuns.StepExtendsHistory | src/components/CounterApp/counterState.tsx:152-188 | Apart from reset and load, the history is append-only. It grows exactly on increment and decrement |
| CounterRuns.DecrementUndoesIncrement | src/components/CounterApp/counterState.tsx:158-173 | A decrement right after an increment at the same stage restores that stage's count and log |
| CounterRuns.DecrementBreaksFunnelOrder | src/components/CounterApp/counterState.tsx:158-189 | Decrements do not cascade. INCREMENT(Buying) then DECREMENT(PassingBy) from equal counts (e.g. the initial state) leaves passingBy < buying |
| CounterRuns.NoticingTapFromFresh | src/components/CounterApp/counterState.tsx:109-137 | From the initial state, a tap at Noticing with female/young adult gives totals (1,1,0,0) and that tag in the first two logs |
| CounterRuns.NoticingTapFromFreshHistory | src/components/CounterApp/counterState.tsx:139-156 | The same tap writes exactly two entries, both with value 1. It opens the session clock at `now` |
| CounterRuns.UntaggedTapUsesCurrent | src/components/CounterApp/counterState.tsx:121 | A tap without a tag records `currentDemographic` |
| CounterRuns.ToggleTwiceIsIdentity | src/components/CounterApp/counterState.tsx:91-95 | Toggling detailed mode twice gives back the same state |
| CounterRuns.StartSessionIdempotent | src/components/CounterApp/counterState.tsx:84-89 | START_SESSION keeps a truthy start time. A second START_SESSION keeps the first one's start and refreshes last activity |
| CounterRuns.StartSessionKeepsTheRest | src/components/CounterApp/counterState.tsx:84-89 | START_SESSION changes only the two session times. A falsy start time becomes `now`, and last activity becomes `now`. Counters, history and the three preferences are kept |
| CounterRuns.ResetIdempotent | src/components/CounterApp/counterState.tsx:191-202 | Reset twice equals reset once, and resetting the initial state changes nothing |
| CounterRuns.LoadIgnoresCurrentState | src/components/CounterApp/counterState.tsx:204-249 | LOAD_FROM_STORAGE's result depends only on the payload |
| CounterRuns.LoadLegacySave | src/components/CounterApp/counterState.tsx:208-220 | Loading a legacy flat save gives its totals with all logs empty, and logs within counts |
| CounterRuns.ReloadRoundTrip | src/components/CounterApp/counterState.tsx:247 | Feeding a saved state back through LOAD_FROM_STORAGE gives it back iff its default index is not 0. A saved 0 comes back as 1 |
| CounterRuns.PreferenceActionsReplaceOneField | src/components/CounterApp/counterState.tsx:91-107 | TOGGLE_DETAILED_MODE, SET_CURRENT_DEMOGRAPHIC and SET_DEFAULT_DEMOGRAPHIC_INDEX each replace only their own field. The default index is stored without a range check |
| Storage.MigrateLegacy | src/components/CounterApp/counterState.tsx:209-220 | A legacy counters object becomes the same totals with empty logs. Logs then match counts iff every legacy count is 0 |
| Storage.LoadAsWritten | src/components/CounterApp/counterState.tsx:239-249 | The load as written never yields default index 0; a stored 0 becomes 1. In every other field it equals the corrected load, so counters, times, preferences and history follow the same fallbacks |
| Storage.LoadAsWrittenLosesIndexZero | src/components/CounterApp/counterState.tsx:247 | Counterexample: the saved state with default index 0 does not survive save-then-load |
| Storage.LoadAsWrittenRoundTrip | src/components/CounterApp/counterState.tsx:247 | The as-written load round-trips a saved state iff its default index is not 0 |
| Storage.Load | src/components/CounterApp/counterState.tsx:204-249 | The corrected load keeps the migrated counters and both session times as stored. Each other field is the stored value if present, else its initial value: `false`, female/young adult, `[]`, and 1 for the default index. A stored index 0 stays 0 |
| Storage.LoadSaveRoundTrip | src/components/CounterApp/counterState.tsx:288-290 | With the corrected index fallback, loading what was saved gives back the same state |
| Storage.LoadEmptyIsInitial | src/components/CounterApp/counterState.tsx:221-248 | A payload with every field missing loads as `initialState`: zero counters, `false`, female/young adult, index 1, empty history |
| Storage.LoadsAgreeExceptIndexZero | src/components/CounterApp/counterState.tsx:247 | The corrected and as-written loads differ exactly on payloads storing default index 0 |
| Statistics.SafeCounters | src/components/CounterApp/CounterStatistics.tsx:14-19 | A missing `counters.total` reads as all-zero counts |
| Statistics.Rate | src/components/CounterApp/CounterStatistics.tsx:21-24 | The rate is 0 for a zero denominator, whatever the numerator. Otherwise `rate * den == 100 * num` |
| Statistics.Rates | src/components/CounterApp/CounterStatistics.tsx:42-67 | The four displayed rates are noticing/passingBy, consulting/noticing, buying/consulting and buying/passingBy, in that order |
| Statistics.RateBounded | src/components/CounterApp/counterState.tsx:316-319 | A rate with `0 <= num <= den` lies in [0, 100] |
| Statistics.RatesArePercentages | src/components/CounterApp/CounterStatistics.tsx:42-67 | The four displayed rates pair noticing/passingBy, consulting/noticing, buying/consulting and buying/passingBy. Each divides by a strictly earlier stage, so on funnel-ordered counts each lies in [0, 100]. With no passer-by all four are 0 |
| Statistics.TotalInteractions | src/components/CounterApp/CounterStatistics.tsx:69 | Total interactions is the sum of the four stage counts |
| Statistics.CountGender | src/components/CounterApp/CounterStatistics.tsx:76-79 | A gender tally never exceeds the log length. GenderSplit and CountsAfterAppend give its meaning |
| Statistics.CountAge | src/components/CounterApp/CounterStatistics.tsx:81-85 | An age tally never exceeds the log length. AgeSplit and CountsAfterAppend give its meaning |
| Statistics.InteractionsAfterIncrement | src/components/CounterApp/CounterStatistics.tsx:69 | A tap at `s` raises total interactions by `Rank(s)+1` |
| Statistics.InteractionsAfterDecrement | src/components/CounterApp/CounterStatistics.tsx:69 | A decrement lowers total interactions by 1, or by 0 at a zero count |
| Statistics.GenderSplit | src/components/CounterApp/CounterStatistics.tsx:76-79 | Male plus female tallies equal the log length |
| Statistics.AgeSplit | src/components/CounterApp/CounterStatistics.tsx:81-85 | The three age tallies add up to the log length |
| Statistics.StatsOf | src/components/CounterApp/CounterStatistics.tsx:72-88 | Stats are absent iff the log is empty. Otherwise each of `male`, `female`, `young`, `youngAdult` and `mature` counts the log's tags of that gender or age group. `total` is the log length, and both splits add up to it |
| Statistics.CountsAfterAppend | src/components/CounterApp/CounterStatistics.tsx:76-85 | Appending a tag raises exactly its own gender and age tallies by 1 |
| Statistics.TapRaisesTallies | src/components/CounterApp/CounterStatistics.tsx:72-88 | After a tap at `s`, every cascaded stage's tallies grow by 1 in the recorded tag's gender and age |
| Statistics.HasDemographicData | src/components/CounterApp/CounterStatistics.tsx:90-91 | The demographic panel is shown iff the passingBy log is non-empty. Under log/count equality, iff passingBy > 0 |
| Statistics.FormatDurationMeaning | src/components/CounterApp/CounterStatistics.tsx:26-38 | For d ≥ 0 the output shape depends on d: hours+minutes when d ≥ 1 h, minutes+seconds when 1 min ≤ d < 1 h, seconds otherwise. Minutes and seconds are below 60, and d lies in the interval the shown parts name |
| Statistics.FormatNegativeDuration | src/components/CounterApp/CounterStatistics.tsx:26-38 | A negative duration shows seconds only, in [-60, 0], under JavaScript's truncating `%` |
| Statistics.SessionDuration | src/components/CounterApp/CounterStatistics.tsx:40 | The duration is 0 without a (truthy) start time, else `now - start` |
| Statistics.SessionDisplay | src/components/CounterApp/CounterStatistics.tsx:113 | A duration is shown iff the start time is truthy, and then it is `FormatDuration(now - start)`. Otherwise the "not started" text is shown |
| Statistics.SessionDisplayAfterStart | src/components/CounterApp/CounterStatistics.tsx:40 | Starting a session that had no (truthy) start time at a non-zero time `t` makes the tile show `FormatDuration(now - t)` |
| Statistics.FormatDuration | src/components/CounterApp/CounterStatistics.tsx:26-38 | For every duration: hours and minutes iff d ≥ 1 h, minutes and seconds iff 1 min ≤ d < 1 h, seconds only iff d < 1 min (negative durations included) |
| Keyboard.Decode | src/components/CounterApp/KeyboardShortcuts.tsx:16-70 | An input/textarea target gives nothing. The keys of column i (digits 1, 2, 3, 4; letters q, w, e, r; letters Q, W, E, R) give stage `Funnel[i]` with age group young adult. The digit gives female and a letter gives male. Every other key gives nothing |
| Keyboard.ColumnsAgree | src/components/CounterApp/KeyboardShortcuts.tsx:27-65 | Digit and letter of a column pick the same stage and differ only in gender. Upper- and lower-case letters decode alike |
| Keyboard.EveryStageHasShortcuts | src/components/CounterApp/KeyboardShortcuts.tsx:23-65 | Each stage has a female/young adult digit key and a male/young adult letter key |
| DragButton.IndexOf | src/components/CounterApp/DraggableCounterButton.tsx:40-47 | Every tag has a table position below 6 holding that tag |
| DragButton.OptionTable | src/components/CounterApp/DraggableCounterButton.tsx:40-47 | The table has 6 entries: 0-2 female, 3-5 male, each in age order. Index 1 is female/young adult. Every tag appears exactly once |
| DragButton.OptionAt | src/components/CounterApp/DraggableCounterButton.tsx:127 | Indexing the table gives a tag iff the index is in [0, 6), else `undefined` |
| DragButton.DefaultOption | src/components/CounterApp/DraggableCounterButton.tsx:57-59 | `getDefaultOption(i)` is `table[i]` for 0 ≤ i ≤ 5 and female/young adult otherwise |
| DragButton.OptionText | src/components/CounterApp/DraggableCounterButton.tsx:49-54 | Male → '男', else '女'; young → '少', young adult → '青', else '老' |
| DragButton.OptionTextsDistinct | src/components/CounterApp/DraggableCounterButton.tsx:49-54 | The six options have pairwise distinct texts, and the text determines the tag |
| DragButton.Clamp | src/components/CounterApp/DraggableCounterButton.tsx:119 | The clamp always lands in [0, 5] and is the identity there |
| DragButton.DragSelection | src/components/CounterApp/DraggableCounterButton.tsx:108-120 | A move selects only inside the overlay. A positive width gives an index in [0, 5]; a zero width gives `NaN` |
| DragButton.DragSelectionSection | src/components/CounterApp/DraggableCounterButton.tsx:113-119 | Inside the overlay the index is the sixth of the width the pointer is in. At `x == width` the raw index 6 is clamped to 5 |
| DragButton.Start | src/components/CounterApp/DraggableCounterButton.tsx:76-98 | A start within 100 ms of the last accepted one is ignored, and so is a mouse start after a touch. An accepted start opens the picker preselecting the default index |
| DragButton.Move | src/components/CounterApp/DraggableCounterButton.tsx:100-122 | A move changes only the selection, and only while pressed with the picker open. A position inside the overlay selects `DragSelection` of that position; outside the overlay the selection is kept |
| DragButton.End | src/components/CounterApp/DraggableCounterButton.tsx:124-139 | A release fires iff pressed with the picker open. It uses the selected index, or else the default index, with no fallback. `NaN` or out of range gives no tag. The picker then closes |
| DragButton.TouchTimeout | src/components/CounterApp/DraggableCounterButton.tsx:134-137 | The delayed callback clears only touch detection |
| DragButton.Close | src/components/CounterApp/DraggableCounterButton.tsx:145-152 | Closing the picker clears press and selection, so a following release fires nothing. Touch detection and the last start time are kept |
| DragButton.StartDebounce | src/components/CounterApp/DraggableCounterButton.tsx:79-82 | Within 100 ms of an accepted start, every further start is dropped |
| DragButton.TouchLocksOutMouse | src/components/CounterApp/DraggableCounterButton.tsx:84-89 | After a touch start, mouse starts are dropped until the touch timer clears detection |
| DragButton.TapWithoutDrag | src/components/CounterApp/DraggableCounterButton.tsx:124-127 | A press and release without moving tags with `table[default]`. An out-of-range default passes no tag, and the reducer then records `currentDemographic` |
| DragButton.DragAlwaysPicksTableOption | src/components/CounterApp/DraggableCounterButton.tsx:113-127 | Press, one drag inside a non-empty overlay, then release always tags with a table option |
| CsvExport.RowOf | src/components/CounterApp/counterState.tsx:397-411 | A row keeps timestamp and value. Its gender and age cells read "未记录" iff the entry has no tag |
| CsvExport.Rows | src/components/CounterApp/counterState.tsx:397 | One row per history entry, in history order |
| CsvExport.RowRoundTrip | src/components/CounterApp/counterState.tsx:400-410 | Stage, action and tag can be read back from a row's cells. The stage comes back from both the key cell and the label cell |
| CsvExport.UnrecordedExactlyOnDecrements | src/components/CounterApp/counterState.tsx:406-407 | Take any history built from the initial state without loads. In its export, a row's gender reads "未记录" iff the row is a decrement |

## Findings

| source | as written | input that shows it | evidently intended | confidence | as-written member | corrected member |
|---|---|---|---|---|---|---|
| src/components/CounterApp/counterState.tsx:247 | `defaultDemographicIndex: loadedData.defaultDemographicIndex \|\| 1` treats the valid index 0 as missing | A state whose default index is 0 (female, young), which the default-option picker can set; after save and reload it reads 1 | fall back to 1 only when the field is absent (`?? 1`), so any saved index survives a reload | high; not executed | Storage.LoadAsWritten (with Storage.LoadAsWrittenLosesIndexZero) | Storage.Load (with Storage.LoadSaveRoundTrip) |

The reducer's LOAD_FROM_STORAGE (`CounterState.Step`) models the code as written, through
`Storage.LoadAsWritten`. `CounterRuns.ReloadRoundTrip` shows the loss at the reducer level.
`Storage.LoadsAgreeExceptIndexZero` proves the two loads agree on every other payload.

## Left out

- React context, provider, hooks and the `useEffect` load/save wiring (`counterState.tsx:256-314`), and `localStorage`, `JSON.parse` and `JSON.stringify`. A load is modelled over an already-parsed `Payload`. Its counters are either the legacy flat object or the current `{total, demographics}` object. A current-shape object missing `total` or `demographics` is not modelled.
- The JSON export (`exportData`, `counterState.tsx:321-383`). It is not modelled. It differs from the statistics panel: it builds tallies for every stage, with zeros for an empty log rather than `null`. Its `total` is the stage count, not the log length. Its rates are unrounded numbers from its own `calculateRate` (`counterState.tsx:316-319`), not one-decimal text. Its file download, its `toLocaleString` dates and its minute/second text are left out.
- The CSV header row, the date column, cell quoting, comma/newline joining, the BOM prefix and the download (`counterState.tsx:386-395, 399, 413-425`): text and I/O only.
- CounterState.ResetStep: uses value semantics, as do IncrementStep and DecrementStep. The source's shallow copies share the `total` object (`counterState.tsx:118, 128, 159, 163, 193-194`). On a first visit with no save there is no load, so INCREMENT changes `initialState.counters.total` in place. A later RESET then shows non-zero totals with empty logs. The model does not reproduce this; its RESET always yields zero totals.
- Statistics.Rate: models the exact rational rate. The `toFixed(1)` text and floating-point rounding are left out; only the zero-denominator value and the stage pairing are exact.
- Statistics.FormatDurationMeaning: the result is the parts of the text (a `Duration` datatype), not the Chinese-unit string itself.
- DragButton.DragSelection: uses exact real division. Floating-point rounding near section borders is not modelled.
- DOM geometry and lookup, global listeners, `preventDefault`, the 500 ms `setTimeout` scheduling (only its effect, `TouchTimeout`), and user-agent mobile detection (`DraggableCounterButton.tsx:37, 103-112, 166-201`; `KeyboardShortcuts.tsx:13, 72-77`).
- `handleSelectionUpdate` (`DraggableCounterButton.tsx:141-143`): the modal's click-to-select, a plain field set with no logic to prove.
- The preferences modal, which reads fields the context never provides, and the rendering-only components (controls, selection modal, selectors, page layout) and build configuration. The default-option selector's table duplicates the one modelled in `DragButton`.
- The reducer's `default:` branch (`counterState.tsx:251-252`): unreachable, because `Event` has exactly the eight actions.
- CounterRuns.StartSessionIdempotent: requires the first session start time to be non-zero. In JavaScript a start time of 0 is falsy and would be overwritten by the next START_SESSION.
