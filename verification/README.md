# AI-participation scoring engine and session recorder — a Dafny model

This project models the scoring core of an academic-integrity dashboard. It does two things.

- **The scoring engine.** This is the `stats` computation of `components/DashboardStats.tsx`. It turns a chat transcript and a timestamped activity log into three percentages:
  - `self`: independent work;
  - `assist`: light AI assistance;
  - `collab`: AI collaboration.

  It also reports an AI-participation ratio, a log time in minutes, a tag set and whether the report is locked. A submission freezes the audit horizon at the submit time.
- **The event recorder.** These are the handlers of `App.tsx`. They append to the session log and the transcript:
  - activity;
  - tab switch;
  - chat turn, including the intent classifier;
  - upload success.

Modules, leaf first:

| file | module | models |
|---|---|---|
| wrappers.dfy | `Wrappers` | `Option`, used for optional fields |
| types.dfy | `Types` | `ChatMessage`, `LearningSession` and the event record of `types.ts` |
| sorting.dfy | `Sorting` | the ascending sort of event times |
| text_search.dfy | `TextSearch` | `String.prototype.includes` |
| scoring.dfy | `Scoring` | the scoring pipeline: horizon, filters, intervals, windows, sums, percentages, result |
| scoring_properties.dfy | `ScoringProperties` | properties relating several calls of the engine |
| recorder.dfy | `Recorder` | the app state, the four handlers, the state invariant |
| audit.dfy | `Audit` | how uploads and later handler calls affect a report |

Modelling choices:
- **Time.** Timestamps are milliseconds, modelled as unbounded `int`. `Date.now()` becomes a parameter.
  - Some handlers read the clock twice: the session initialisation (`App.tsx:20-23`) and `handleUploadSuccess` (`App.tsx:74-75`). These take two independent parameters, so the SUBMIT event may carry a later time than `submitTime`.
- **Arithmetic.** The engine's floating-point arithmetic is done on `real`. `Math.round` is `Floor(x + 1/2)`.
- **`seededRandom`.** It becomes the parameter `hash` of type `UnitHash`: any function from a timestamp into [0, 1). Every general property holds for every such function. The concrete examples `ScoringProperties.ThreeEventIntervals`, `ScoringProperties.NegativeTally` and `ScoringProperties.NegativeCollabSession` fix a hash that is 0 at the times they use.
- **Strings.** They are sequences of UTF-16 code units (`CodeUnit`), as JavaScript strings are. So `length` and `includes` match the source exactly, including for characters outside the Basic Multilingual Plane.
- **Sorting.** Only `time` is read from an event after the sort. So the model sorts the filtered event times, which yields the same sequence of times the loop reads.
- **Quirks kept as written:**
  - a `submitTime` of 0 counts as unlocked (`!!` and `||`);
  - the degenerate branch depends on the filtered transcript, not on the intervals, and reports a log time of 0;
  - the ratio clamp to [2, 98] applies whenever a turn is on record;
  - `collab` is computed by subtraction and can be -1 (`ScoringProperties.NegativeCollabSession` exhibits a model session, with hash 0 and exact reals, where it is);
  - a second upload overwrites `submitTime`.

Consequences of the code that are easy to overlook:
- **The ratio.** It is clamped to at least 2 as soon as one chat turn lies at or before the horizon, even when no interval exists and the influenced share is 0 (`ScoringProperties.NoReplyRatio`, `ScoringProperties.NoEffortBranch`).
- **The log time.** The minimum of 1 minute applies only in the branch with turns on record. The branch with no turn at or before the horizon reports 0 (`Scoring.Score`).
- **The submit time.** The upload handler sets it unconditionally, so a second upload moves an already frozen horizon (`Audit.SecondUploadMovesHorizon`).
- **Percentages.** Only their sum is exact. `self` and `assist` are each rounded, and `collab` takes the remainder, so `collab` is within one point of its exact share and can be -1 (`Scoring.SharesNearExact`).

## Model

| member | source | states |
|---|---|---|
| Scoring.Round | components/DashboardStats.tsx:88-89 | `Math.round` gives the integer within half a unit of its argument, with a half rounded upwards |
| Scoring.Horizon | components/DashboardStats.tsx:24-25 | the audit end is the submit time when that is present and non-zero; with no submit time, or a submit time of 0, it is the current time |
| Scoring.MessagesUpTo | components/DashboardStats.tsx:29 | a chat turn is kept exactly when it is in the history and its time is at or before the horizon |
| Scoring.EventsUpTo | components/DashboardStats.tsx:43-44 | an event is kept exactly when it is in the session and its time is at or before the horizon |
| Scoring.EventsUpToCount | components/DashboardStats.tsx:43-44 | the filter keeps every copy of an event at or before the horizon and no copy of a later one |
| Scoring.SortedTimesUpTo | components/DashboardStats.tsx:43-45 | the times paired up are ascending, are a permutation of the surviving events' times, and none lies after the horizon |
| Sorting.Sort | components/DashboardStats.tsx:45 | the sort yields an ascending permutation of its input |
| Sorting.SortedUnique | components/DashboardStats.tsx:45 | two ascending sequences with the same elements are equal, so the sorted times do not depend on how ties or the input order fall |
| Scoring.PairInterval | components/DashboardStats.tsx:51-57 | for an ordered pair, the midpoint lies between the two times and the weight is at least 40 times the gap in minutes; for a positive gap the weight is positive and strictly below 70 times the gap |
| Scoring.PairIntervalSeed | components/DashboardStats.tsx:51-53 | the multiplier is drawn from the later event's time: two hashes that agree there give the same interval |
| Scoring.Intervals | components/DashboardStats.tsx:47 | the loop over adjacent pairs emits fewer intervals than there are times |
| Scoring.IntervalsInOrder | components/DashboardStats.tsx:47-59 | the k-th emitted interval is the interval of the k-th short-gap pair, in ascending pair order; each pair closer than 15 minutes emits exactly one interval and no other pair emits one |
| Scoring.IntervalsSpec | components/DashboardStats.tsx:47-59 | every emitted interval belongs to an adjacent pair closer than 15 minutes, and every such pair emits its interval |
| Scoring.IdleIntervals | components/DashboardStats.tsx:50 | when every adjacent pair is 15 minutes or more apart, no interval is emitted |
| Scoring.SortedIntervalsNonNegative | components/DashboardStats.tsx:45-56 | after the sort every interval weight is non-negative |
| ScoringProperties.InfluenceSpec | components/DashboardStats.tsx:69 | a midpoint is AI-influenced iff some model reply at time t has t <= mid <= t + 600000, both bounds inclusive |
| Scoring.WindowsShape | components/DashboardStats.tsx:37-39 | there are at most as many windows as turns; each window lasts exactly 600000 ms and starts at the time of a model reply |
| ScoringProperties.TurnWindows | components/DashboardStats.tsx:37-39 | a user turn opens no window; a model reply at t opens exactly the window [t, t + 600000] |
| Scoring.AddIntervalFields | components/DashboardStats.tsx:68-80 | the step of the loop written out field by field (an unfolding aid; `Scoring.AccumulateWeights` is the loop's partner): it adds the weight to the total; to the AI sum iff the midpoint is influenced; then to the under-threshold sum iff the weight is below 50, otherwise to the collaborative sum |
| Scoring.AccumulateWeights | components/DashboardStats.tsx:62-80 | the four running sums equal the weights of all intervals, of the influenced ones, of the influenced ones below 50 and of the influenced ones at or above 50, each summed independently |
| Scoring.Accumulate | components/DashboardStats.tsx:62-80 | the under-threshold and collaborative sums add up exactly to the AI sum; with non-negative weights, both are non-negative and the AI sum is at most the total |
| Scoring.AccumulateNoInfluence | components/DashboardStats.tsx:68-80 | with no influenced interval the AI sum is zero |
| Scoring.AccumulateAllInfluenced | components/DashboardStats.tsx:68-80 | with every interval influenced the AI sum equals the total |
| Scoring.AccumulateBelowTheta | components/DashboardStats.tsx:74-78 | when every weight is below 50 the collaborative sum is zero |
| Scoring.AccumulateAtLeastTheta | components/DashboardStats.tsx:74-78 | when every weight is at least 50 the under-threshold sum is zero |
| Scoring.Tally | components/DashboardStats.tsx:42-80 | the sums over the intervals of sorted times form a consistent partition of the influenced weight |
| Scoring.TallyWeights | components/DashboardStats.tsx:42-80 | the four sums of a report are the part weights of the intervals of the sorted surviving times against the windows of the surviving replies |
| Scoring.PartWeightSplit | components/DashboardStats.tsx:86 | the total weight is the influenced weight plus the weight of intervals in no window; with non-negative weights both parts are non-negative, so the clamp `Math.max(0, …)` never applies and the self sum is exactly the unaided weight |
| Scoring.Denominator | components/DashboardStats.tsx:82 | the denominator is never zero; it equals the total whenever the total is non-zero, and is 1 when the total is 0 |
| Scoring.SharesOf | components/DashboardStats.tsx:90 | the three shares always add up to 100, because collab takes the remainder |
| Scoring.SharesBounds | components/DashboardStats.tsx:86-90 | with consistent sums, self and assist lie in [0, 100] and collab in [-1, 100] |
| Scoring.SharesNearExact | components/DashboardStats.tsx:86-90 | for a positive total, self and assist are each within half a point of their exact shares and collab within one point of the exact collaborative share |
| Scoring.SharesWithoutWeight | components/DashboardStats.tsx:82-90 | with zero total weight the shares are self 0, assist 0, collab 100 |
| Scoring.Ratio | components/DashboardStats.tsx:83-93 | the ratio is the influenced share in percent rounded to the nearest whole: 2 below 1.5, 98 from 98.5 on, within half a point otherwise; 2 when there is no weight |
| Scoring.LogMinutes | components/DashboardStats.tsx:97 | the log time is at least 1 minute: below half a minute of elapsed time, negative included, it is 1, and from there on it is the elapsed minutes rounded to the nearest whole |
| Scoring.Finish | components/DashboardStats.tsx:82-99 | in the non-empty branch the shares are those of the sums and add up to 100, the ratio is that of the sums and lies in [2, 98], the log time is passed through, and the collaboration tags are chosen iff collab > 35 |
| Scoring.Score | components/DashboardStats.tsx:22-101 | the shares always sum to 100 and the lock flag means a non-zero submit time; with no turn at or before the horizon the result is ratio 0, self 100, log time 0 and the self-study tag, whatever the events; otherwise the bounds and the tag rule hold |
| ScoringProperties.ScoreShares | components/DashboardStats.tsx:82-90 | with a turn on record and positive weight, self is within half a point of the unaided share of the weight, assist within half a point of the light influenced share and collab within one point of the heavy influenced share; with a turn on record and zero weight (intervals of zero length included) the shares are 0, 0 and 100 |
| ScoringProperties.ScoreRatio | components/DashboardStats.tsx:83-93 | with a turn on record, the ratio is 2 when there is no weight, and otherwise the influenced share of the weight in percent, rounded and clamped to [2, 98] |
| ScoringProperties.HorizonOnly | components/DashboardStats.tsx:24-44 | dropping turns and events after the horizon beforehand does not change the result |
| ScoringProperties.LockStability | components/DashboardStats.tsx:24-44 | once locked, appending turns and events stamped after the submit time leaves every field unchanged, and so does a change of the clock |
| ScoringProperties.EventOrderIrrelevant | components/DashboardStats.tsx:43-45 | any permutation of the session's events yields the same result |
| ScoringProperties.NoReplyRatio | components/DashboardStats.tsx:93 | with turns on record but no model reply at or before the horizon, the ratio is 2 (the clamp lifts it from 0) and assist is 0 |
| ScoringProperties.NoEffortBranch | components/DashboardStats.tsx:82-93 | with turns on record and no short pair, self and assist are 0, collab is 100 and the ratio is 2 |
| ScoringProperties.CollaborativeInterval | components/DashboardStats.tsx:35-98 | a model reply at 0 and a single ten-minute pair give collab 100, self 0, assist 0, ratio 98 and the collaboration tags, for every hash |
| ScoringProperties.RoundingLeavesMinusOne | components/DashboardStats.tsx:86-98 | a report over weights 1.01 of 2.0, all influenced and below the threshold, has exact shares of 49.5 and 50.5; these round to 50 and 51 and leave collab at -1 |
| ScoringProperties.NegativeCollabSession | components/DashboardStats.tsx:47-90 | a model session (events at 0, 1485 and 3000 ms, a reply at 2000 ms, hash 0, exact reals) scores collab -1 |
| TextSearch.Includes | App.tsx:55 | a match needs a keyword no longer than the text, and the empty keyword always matches |
| TextSearch.IncludesSpec | App.tsx:55 | the scan finds the keyword iff it occurs at some position of the text |
| Recorder.Init | App.tsx:20-23 | a new session holds exactly one OPEN_APP event, an empty transcript and no submit time |
| Recorder.InitValid | App.tsx:20-23 | the opening state satisfies the recorder invariant |
| Recorder.HandleActivity | App.tsx:27-32 | an ACTIVITY event at now is appended iff now is strictly more than 10000 ms after the last event; otherwise the state is unchanged; the transcript, the start and submit times and the UI fields are kept |
| Recorder.HandleSidebarClick | App.tsx:42-49 | a tab switch selects the item and appends one SWITCH_TAB event recording the target id; the transcript, the start and submit times and the upload fields are kept |
| Recorder.ClassifyIntent | App.tsx:53-55 | the intent is GENERATION iff the text is longer than 300; METHOD iff it is not and contains one of the two keywords; CONCEPT otherwise |
| Recorder.HandleMessageUpdate | App.tsx:51-71 | a chat turn appends exactly one message and one event; they share time and intent; the event is AI_ASK for a user turn and AI_REPLY for a model turn, and records the text length; the start and submit times and the UI fields are kept |
| Recorder.HandleUploadSuccess | App.tsx:73-78 | an upload sets the submit time unconditionally and appends one SUBMIT event at the second clock read |
| Recorder.StepValid | App.tsx:27-75 | every handler keeps the invariant and appends at most one event; the old log and transcript are prefixes of the new ones and the start time is kept. The invariant: a single leading OPEN_APP event, and chat events matching the transcript one for one |
| Recorder.RunValid | App.tsx:20-75 | every state reached from opening the app satisfies the invariant; each earlier event log and transcript is a prefix of the later one, and the start time never changes |
| Audit.UploadLocks | App.tsx:73-75 | an upload at a non-zero time locks the report at that time; an upload at time 0 leaves it unlocked |
| Audit.SubmitEventCounted | App.tsx:74-75 | the SUBMIT event is inside the horizon iff the second clock read is not later than the first |
| Audit.LateActionKeepsScore | App.tsx:27-70 | once locked, an activity, tab switch or chat turn after the submit time leaves the report unchanged |
| Audit.SecondUploadMovesHorizon | App.tsx:73-78 | a second upload moves the horizon to its own time instead of being refused |

## Left out

- `seededRandom` internals: `Math.sin` on IEEE doubles is floating point. The model keeps only its range [0, 1) as the subset type `UnitHash`.
- Floating-point rounding: every sum, quotient and product is exact on `real`.
- `Date.now()` and the locale time string stored in each message's `timestamp` field are clock and display values. The clock is a parameter and the display string is not modelled.
- Rendering: all JSX, the tag label strings, the "chars" figure, the colour and label choice for `ratio > 60`, and the report hash. These are presentation only.
- React plumbing: `useMemo`, `useRef`, `useState`, `useEffect` and DOM listener registration. Handlers are pure transitions; the two state updates of a chat turn happen together.
- The chat transport and markdown rendering (`components/AIAssistant.tsx`, `services/geminiService.ts`). These are network I/O.
- The timer-driven upload simulation (`components/AssignmentUpload.tsx`). It only calls the upload handler.
- The static views (`components/LearningTimeline.tsx`, `components/Sidebar.tsx`, `components/Header.tsx`, `constants.tsx`).
- Recorder.HandleActivity: it requires a non-empty event log. On an empty log the source would read `time` of `undefined` and throw. `Recorder.RunValid` shows that every reachable state has a non-empty log.
- Scoring.IntervalsSpec: states membership in both directions only; order and multiplicity are stated by `Scoring.IntervalsInOrder`.
