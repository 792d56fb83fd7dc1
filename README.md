# Stridely plan generator and progress tracking, modelled in Dafny

Stridely turns a life goal and a weekly time commitment into a week-by-week
roadmap. A language model writes the roadmap, and the app tracks progress
against it. This project models the deterministic logic around that loop:

- **Extracting JSON from a completion.** The three edge functions
  (`generate-detailed-transformation-plan`, `generate-or-fetch-roadmap`,
  `generate-roadmap`) find the JSON in a model completion. They use a
  ```` ```json ```` fence, a first-`{`-to-last-`}` slice, or a greedy brace
  regex. They then trim the candidate, strip backticks and delete control
  characters before calling `JSON.parse`.
- **The roadmap cache.** A stored plan for the same (user, goal, time
  commitment) is served as it is. Otherwise a roadmap is generated, checked
  for `weeks`, and stored under the same key.
- **The two lazy per-week caches.** `fetchWeek` in the transformation plan
  cards keeps one map from week number to week. `fetchWeekData` in
  `useWeeklyData` checks its memo map first, then the stored plan's
  `weeklyDetails`, then generation, and merges a generated week back into
  the stored plan.
- **Reading resource strings.** `extractLink` in the weekly roadmap card
  takes the first URL and strips a trailing separator from the title. The
  plan cards split the string on the en dash instead.
- **Progress tracking.** This covers:
  - checkbox arrays updated by index;
  - detecting that a week is complete, and marking it once in the progress
    history;
  - streaks;
  - the dashboard figures: completed weeks, total weeks, the rounded
    completion rate and the streak over rows sorted by week;
  - the day detail view's goals and habits;
  - the plan sidebar's clamped navigation;
  - the progress tracker's timeline and daily check-in.

The modelling conventions are:

- `JSON.parse` is a parameter `parse: string -> Option<Json>`. Being a
  function value, it is deterministic. `Json` carries JavaScript
  truthiness, and property access on objects.
- Every backend or model call is a parameter that says how the call went:
  - `Reply`, `Completion` and `TableCall` for the backend and model calls;
  - `WeekReply` for the week generator: a non-2xx response with its
    `error`, a 2xx response with its `weekData`, or a rejection with its
    message.
- Components and hooks whose state changes are classes with `modifies`
  clauses. Each handler or effect runs to completion, one at a time.
- Pure string and sequence code is made of functions and lemmas.
- The regular expressions are modelled by what they match, and the lemmas
  prove that no other match exists:
  - the leftmost match, greedy or lazy as written;
  - `/```json\s*([\s\S]*?)```/`;
  - `/\{[\s\S]*\}/` and `/\{[\s\S]+\}/`;
  - `/https?:\/\/[^\s]+/`;
  - `/\s*[-–—:]\s*$/`.
- JavaScript arrays of booleans are sequences of `Box`:
  - `Hole` is a position never written, left by an assignment past the end;
  - `Undef` is an element that exists but holds `undefined`, which is what
    the spread copy `[...prev]` makes of a hole;
  - `Val(b)` is a boolean.

Some behaviour of the code is easy to expect otherwise; the model follows the
code:

- The roadmap cache key is (user, goal, time commitment). It has no week
  count.
- A cache hit needs only a truthy `weeks`, not a given number of weeks.
- Generated weeks are not checked against the requested week number or
  shape.
- "Next" in the plan cards has no upper bound.
- A rejected backend `fetch` in the roadmap handler is a 500, not a miss.
- Week completion looks at habits and the milestone, not at tasks.
- Streaks count from the start of the history, or from the latest week on
  the dashboard. They do not count backward from the current week.

## Model

| member | source | states |
|---|---|---|
| JsonValue.Member | supabase/functions/generate-or-fetch-roadmap/index.ts:25 | a property exists exactly for an object that has the key, and is that field |
| JsonValue.OptMember | src/hooks/useWeeklyData.tsx:49 | `o?.[key]` is a value exactly when `o` is present, is an object and holds the key, and then it is that field |
| JsonValue.Spread | src/hooks/useWeeklyData.tsx:96-101 | an object spreads its own fields; `null` and `undefined` spread to nothing |
| Text.IndexOf | supabase/functions/generate-detailed-transformation-plan/index.ts:79 | -1 exactly when the character is absent, otherwise its first position |
| Text.LastIndexOf | supabase/functions/generate-detailed-transformation-plan/index.ts:80 | -1 exactly when the character is absent, otherwise its last position |
| Text.FindFrom | supabase/functions/generate-detailed-transformation-plan/index.ts:75 | the first occurrence of a pattern at or after a position, or none at all |
| Text.FindFromFirst | supabase/functions/generate-detailed-transformation-plan/index.ts:75 | an occurrence with none before it is the one found |
| Text.TrimStart | supabase/functions/generate-detailed-transformation-plan/index.ts:85 | drops exactly the leading white space |
| Text.TrimEnd | supabase/functions/generate-detailed-transformation-plan/index.ts:85 | drops exactly the trailing white space |
| Text.Trim | supabase/functions/generate-detailed-transformation-plan/index.ts:85 | the result has no outer white space and is the middle of the input between white-space runs |
| Text.TrimKeepsTrimmed | supabase/functions/generate-detailed-transformation-plan/index.ts:85 | a string without outer white space is unchanged by `trim` |
| Text.TrimEndSpaces | supabase/functions/generate-detailed-transformation-plan/index.ts:85 | trailing white space after a non-space end is exactly what `trimEnd` removes |
| Text.TrimStartSpaces | supabase/functions/generate-detailed-transformation-plan/index.ts:85 | leading white space before a non-space start is exactly what `trimStart` removes |
| Text.TrimPadded | supabase/functions/generate-detailed-transformation-plan/index.ts:85 | `trim` recovers a trimmed string from any white-space padding |
| Text.TrimIdempotent | supabase/functions/generate-detailed-transformation-plan/index.ts:85 | trimming twice is trimming once |
| Text.NatToString | src/components/DayDetailView.tsx:62 | `index.toString()` is a non-empty run of decimal digits, with no leading zero, whose decimal value is the index |
| Text.IntToString | src/hooks/useWeeklyData.tsx:100 | the property key of a week number starts with '-' exactly for negative numbers |
| Text.NatToStringInjective | src/components/DayDetailView.tsx:62 | different positions get different ids |
| Text.IntToStringInjective | src/hooks/useWeeklyData.tsx:98-100 | different week numbers are different property keys |
| Braces.BraceSlice | supabase/functions/generate-detailed-transformation-plan/index.ts:79-83 | exists exactly when the first '{' precedes the last '}', and is that slice, starting with '{' and ending with '}' |
| Braces.GreedyBraceMatch | supabase/functions/generate-roadmap/index.ts:80 | the match of `/\{[\s\S]*\}/` or `/\{[\s\S]+\}/`, and no match at all when it returns none |
| Braces.StarMatchIsSlice | supabase/functions/generate-roadmap/index.ts:80-82 | `/\{[\s\S]*\}/` matches exactly when the brace slice exists and selects the same text |
| Braces.PlusMatchIsSlice | supabase/functions/generate-or-fetch-roadmap/index.ts:137-139 | whenever `/\{[\s\S]+\}/` matches, it selects the brace slice |
| WeekExtraction.SpaceRunEnd | supabase/functions/generate-detailed-transformation-plan/index.ts:75 | the greedy `\s*` takes the whole white-space run |
| WeekExtraction.MatchFence | supabase/functions/generate-detailed-transformation-plan/index.ts:75 | the fence match opens at the first "```json" and closes at the first "```" after the white space; when it returns none, nothing matches |
| WeekExtraction.Candidate | supabase/functions/generate-detailed-transformation-plan/index.ts:75-84 | the non-empty fenced body; else the whole content when a fence matched; else the brace slice; else the whole content |
| WeekExtraction.LeadingTicks | supabase/functions/generate-detailed-transformation-plan/index.ts:85 | the longest run of at most three leading backticks |
| WeekExtraction.TrailingTicks | supabase/functions/generate-detailed-transformation-plan/index.ts:85 | the longest run of at most three trailing backticks |
| WeekExtraction.StripOpeningTicks | supabase/functions/generate-detailed-transformation-plan/index.ts:85 | removes one leading run of 1-3 backticks and a "json" only after such a run; otherwise the text is unchanged |
| WeekExtraction.StripClosingTicks | supabase/functions/generate-detailed-transformation-plan/index.ts:85 | removes only backticks from the end, at most three, and all of them when fewer than three |
| WeekExtraction.RemoveControls | supabase/functions/generate-detailed-transformation-plan/index.ts:86 | no character in U+0000-U+0008, U+000B, U+000C or U+000E-U+001F remains |
| WeekExtraction.RemoveControlsKeepsOthers | supabase/functions/generate-detailed-transformation-plan/index.ts:86 | every other character, TAB, LF and CR included, keeps its number of occurrences |
| WeekExtraction.RemoveControlsAppend | supabase/functions/generate-detailed-transformation-plan/index.ts:86 | the filter works piecewise, so kept characters keep their order |
| WeekExtraction.RemoveControlsKeepsClean | supabase/functions/generate-detailed-transformation-plan/index.ts:86 | a string without those characters is unchanged |
| WeekExtraction.RemoveControlsIdempotent | supabase/functions/generate-detailed-transformation-plan/index.ts:86 | the filter is idempotent |
| WeekExtraction.Clean | supabase/functions/generate-detailed-transformation-plan/index.ts:85-86 | the text handed to `JSON.parse` holds none of the deleted control characters |
| WeekExtraction.ParseInput | supabase/functions/generate-detailed-transformation-plan/index.ts:73-86 | the text handed to JSON.parse holds none of the deleted control characters, and a missing completion gives the empty text |
| WeekExtraction.RespondWeek | supabase/functions/generate-detailed-transformation-plan/index.ts:87-98 | a parse failure is a 500 with the error message and no week; a success returns the parsed value unchanged, with no check of week number or shape |
| WeekExtraction.FenceFindsBody | supabase/functions/generate-detailed-transformation-plan/index.ts:75-76 | a fenced body without a fence of its own is exactly what the fence pattern captures |
| WeekExtraction.FencedBodyRecovered | supabase/functions/generate-detailed-transformation-plan/index.ts:73-87 | a clean body in a ```json fence reaches `JSON.parse` exactly as written, whatever prose surrounds it |
| RoadmapGeneration.RoadmapParseInput | supabase/functions/generate-roadmap/index.ts:80-85 | the brace slice when it exists, starting with '{' and ending with '}'; the whole text otherwise |
| RoadmapGeneration.RespondRoadmap | supabase/functions/generate-roadmap/index.ts:75-95 | a missing completion or a parse failure is a 500 "Failed to parse roadmap JSON"; a success returns the parse unchanged |
| RoadmapGeneration.ObjectInProseIsParsed | supabase/functions/generate-roadmap/index.ts:80-82 | an object surrounded by brace-free prose is parsed on its own |
| RoadmapCache.FirstParseInput | supabase/functions/generate-or-fetch-roadmap/index.ts:120-130 | the brace slice when the first '{' precedes the last '}', else the trimmed text |
| RoadmapCache.ExtractRoadmap | supabase/functions/generate-or-fetch-roadmap/index.ts:120-144 | a successful first parse is the roadmap; a missing completion counts as "" |
| RoadmapCache.Accepted | supabase/functions/generate-or-fetch-roadmap/index.ts:146 | a roadmap is kept exactly when it is an object with a truthy `weeks` |
| RoadmapCache.RetryNeverRescues | supabase/functions/generate-or-fetch-roadmap/index.ts:132-144 | when the first parse fails, the regex retry fails too and the roadmap stays null |
| RoadmapCache.Lookup | supabase/functions/generate-or-fetch-roadmap/index.ts:23-26 | a hit exactly when the response is ok, a row exists for the key and its plan has truthy `weeks`; the plan is returned as stored |
| RoadmapCache.Store | supabase/functions/generate-or-fetch-roadmap/index.ts:32-38 | the row for the key becomes the plan with `current_week_index` 1; every other row is unchanged |
| RoadmapCache.StoredPlanIsHit | supabase/functions/generate-or-fetch-roadmap/index.ts:14-38 | an accepted plan that was stored is found by the next lookup with the same triple |
| RoadmapCache.RoadmapService.constructor | supabase/functions/generate-or-fetch-roadmap/index.ts:5-7 | the backend settings and the stored rows the handler starts from |
| RoadmapCache.RoadmapService.CacheEnabled | supabase/functions/generate-or-fetch-roadmap/index.ts:62 | the cache is read and written only with a user, a goal, a time commitment and both backend settings non-empty |
| RoadmapCache.RoadmapService.Handle | supabase/functions/generate-or-fetch-roadmap/index.ts:57-167 | the store is read only with all five values set; a hit is served without generating or storing; a result without truthy `weeks` is a 500 and never stored; an accepted one is stored under the same condition and served; a rejected fetch is a 500 with its message |
| RoadmapCache.RepeatedRequest | supabase/functions/generate-or-fetch-roadmap/index.ts:60-158 | a second identical request after a stored generation is served the same roadmap without calling the model |
| Checkboxes.Unchecked | src/components/WeeklyRoadmapCard.tsx:24 | `Array(n).fill(false)`: n boxes, none shown checked |
| Checkboxes.Holes | src/components/ThisWeekProgress.tsx:140-142 | an assignment past the end leaves holes |
| Checkboxes.Assign | src/components/WeeklyRoadmapCard.tsx:78-82 | box i holds the value; every other old position is copied, a hole becoming `undefined`; past the end the array grows with holes; only box i changes how it shows |
| Checkboxes.AssignInsideKeepsNoHoles | src/components/WeeklyRoadmapCard.tsx:78-82 | an assignment inside the array keeps its length and leaves no hole, even where the old array had one |
| Checkboxes.AssignSameValue | src/components/WeeklyRoadmapCard.tsx:78-82 | in an array without holes, assigning the value a box holds changes nothing |
| Checkboxes.Flip | src/components/TransformationPlanCards.tsx:215-219 | `arr[i] = !arr[i]` flips how box i shows and no other box |
| Checkboxes.FlipTwice | src/components/TransformationPlanCards.tsx:215-219 | toggling twice restores how every box shows, and restores the array itself when it has no holes and box i holds a boolean |
| WeeklyRoadmapCard.HabitChecklist.constructor | src/components/WeeklyRoadmapCard.tsx:22-37 | a stored array of the right length is kept; otherwise all false, one box per habit |
| WeeklyRoadmapCard.HabitChecklist.SyncLength | src/components/WeeklyRoadmapCard.tsx:32-37 | a length mismatch resets to all false of the habit count; otherwise nothing changes |
| WeeklyRoadmapCard.HabitChecklist.Check | src/components/WeeklyRoadmapCard.tsx:76-82 | only box i changes, to the checkbox value |
| ResourceLinks.SchemesExclusive | src/components/WeeklyRoadmapCard.tsx:41 | "http://" and "https://" never start at the same position |
| ResourceLinks.WordEnd | src/components/WeeklyRoadmapCard.tsx:41 | `[^\s]+` extends to the next white space or the end |
| ResourceLinks.UrlMatchesAt | src/components/WeeklyRoadmapCard.tsx:41 | the URL pattern matches at a position exactly when a scheme and a non-space character start there, and never past the word |
| ResourceLinks.UrlFrom | src/components/WeeklyRoadmapCard.tsx:41-42 | the leftmost match, as long as possible; when it returns none, there is no match at all |
| ResourceLinks.UrlFromFirst | src/components/WeeklyRoadmapCard.tsx:41-42 | a match with no match before it is where the search stops |
| ResourceLinks.DropTrailingSeparator | src/components/WeeklyRoadmapCard.tsx:45 | the text is unchanged exactly when no separator tail matches; otherwise the leftmost matching tail is cut off |
| ResourceLinks.ExtractLink | src/components/WeeklyRoadmapCard.tsx:40-50 | no URL exactly when no match exists, and then the title is the text; otherwise the URL is the leftmost, longest match, and the title is the rest of the text with the separator tail dropped, trimmed |
| ResourceLinks.UrlOfResource | src/components/WeeklyRoadmapCard.tsx:41-46 | in "title – url" with no ':' in the title, the match is the whole URL |
| ResourceLinks.TitleOfResource | src/components/WeeklyRoadmapCard.tsx:45 | removing the URL, the separator and the white space gives the title back |
| ResourceLinks.StripSchemeOf | src/components/WeeklyRoadmapCard.tsx:120 | the display drops exactly the scheme |
| ResourceLinks.StripScheme | src/components/WeeklyRoadmapCard.tsx:120 | the text after a leading "https://" or "http://", and the URL unchanged without either |
| ResourceLinks.LinkText | src/components/WeeklyRoadmapCard.tsx:119-120 | without a URL the title; with one, "title – " when the title is non-empty, then the URL without its scheme |
| ResourceLinks.LinkRoundTrip | src/components/WeeklyRoadmapCard.tsx:40-120 | a resource written as "title – url" reads back as that title and URL, and shows as "title – host/path", or just the host when the title is empty |
| ResourceLinks.Split | src/components/TransformationPlanCards.tsx:174 | at least one piece, none holding the separator, exactly one piece when the separator is absent |
| ResourceLinks.JoinSplit | src/components/TransformationPlanCards.tsx:174 | joining the pieces with the separator gives the string back |
| ResourceLinks.SplitJoin | src/components/TransformationPlanCards.tsx:174 | splitting undoes joining pieces free of the separator |
| ResourceLinks.ResourceView | src/components/TransformationPlanCards.tsx:173-182 | plain text, unchanged, exactly when there is no en dash; otherwise a link whose caption is the trimmed text before the first en dash and whose href is the trimmed text between the first and the second en dash (or the end) |
| ResourceLinks.SplitFirstTwo | src/components/TransformationPlanCards.tsx:174 | with an en dash present, `split` yields at least two pieces: the text before the first en dash, then the text up to the next one or the end |
| ResourceLinks.ResourceViewOfPair | src/components/TransformationPlanCards.tsx:174-179 | "caption – href" is a link labelled caption to href |
| ResourceLinks.ResourceViewIgnoresExtra | src/components/TransformationPlanCards.tsx:174-179 | "caption – href –" followed by anything is still a link labelled caption to href: pieces after the second en dash are ignored |
| ResourceLinks.CardsAgree | src/components/TransformationPlanCards.tsx:173-182 | both cards read a prompt-style resource as the same title and URL |
| ThisWeekProgress.EveryChecked | src/components/ThisWeekProgress.tsx:81 | `every(Boolean)` passes exactly when every box shows checked or is a hole |
| ThisWeekProgress.AllCompleteAsWritten | src/components/ThisWeekProgress.tsx:79-82 | the test as written passes exactly when the length matches, the milestone is checked and every habit box shows checked or is a hole |
| ThisWeekProgress.WeekComplete | src/components/ThisWeekProgress.tsx:79-82 | a week is complete exactly when the length matches, the milestone is checked and every box holds true |
| ThisWeekProgress.CompleteAgreesWithoutHoles | src/components/ThisWeekProgress.tsx:79-82 | without holes, the completion test as written is exactly "length matches, every habit checked, milestone checked" |
| ThisWeekProgress.HoleCompletesWeek | src/components/ThisWeekProgress.tsx:79-82 | a length-matching array with a hole passes the test as written while a habit is unchecked |
| ThisWeekProgress.NextChangeCopiesHole | src/components/ThisWeekProgress.tsx:79-82 | the next box change copies the hole as `undefined`, and the test as written fails again |
| ThisWeekProgress.AssignInsideAgrees | src/components/ThisWeekProgress.tsx:79-82 | after any change inside the array, the test as written is exactly week completion |
| ThisWeekProgress.CompleteWeekHasNoHoles | src/components/ThisWeekProgress.tsx:79-82 | under the corrected test, a complete week has every box true and no hole |
| ThisWeekProgress.MarkWeek | src/components/ThisWeekProgress.tsx:84-86 | the history keeps its length; the current index becomes true and the other entries are kept |
| ThisWeekProgress.MarkWeekIdempotent | src/components/ThisWeekProgress.tsx:83-86 | marking a week twice is marking it once |
| ThisWeekProgress.LeadingTrue | src/components/ThisWeekProgress.tsx:113-118 | 0 <= streak <= length, the entries before it are true and the entry at it is false |
| ThisWeekProgress.MarkNeverShortensStreak | src/components/ThisWeekProgress.tsx:84-86 | marking a week never shortens the streak |
| ThisWeekProgress.MarkStreakEndLengthens | src/components/ThisWeekProgress.tsx:113-118 | marking the week that ends the streak lengthens it |
| ThisWeekProgress.Streak | src/components/ThisWeekProgress.tsx:113-118 | the loop counts the leading true entries |
| ThisWeekProgress.WeekProgress.constructor | src/components/ThisWeekProgress.tsx:37-58 | mounting loads the stored boxes or all false of the habit count, and the stored milestone or false; without a week both are empty and false; a complete, unrecorded week is then marked and the callback called once, otherwise the history is the parent's and nothing was called |
| ThisWeekProgress.WeekProgress.Load | src/components/ThisWeekProgress.tsx:42-58 | the new week and index; the stored boxes or all false, and the stored milestone or false; with no week, empty and false; then a complete week not recorded at the new index is marked and the callback called once, otherwise history and callback count are unchanged |
| ThisWeekProgress.WeekProgress.AutoComplete | src/components/ThisWeekProgress.tsx:77-91 | a complete week not yet recorded is marked and the callback called once; otherwise nothing changes |
| ThisWeekProgress.WeekProgress.SetHabit | src/components/ThisWeekProgress.tsx:138-143 | only habit idx changes, to the value; week and index unchanged; if the new boxes complete a week not yet recorded, the week is marked and the callback called once, otherwise history and callback count are unchanged |
| ThisWeekProgress.WeekProgress.SetMilestone | src/components/ThisWeekProgress.tsx:161 | the milestone takes the value; week, index and boxes unchanged; only a changed value that completes a week not yet recorded marks it and calls the callback once, otherwise history and callback count are unchanged |
| ThisWeekProgress.WeekProgress.CheckOff | src/components/ThisWeekProgress.tsx:174-181 | enabled only for a complete week; marks the current index true and calls the callback; week, index, boxes and milestone unchanged |
| ThisWeekProgress.WeekProgress.ShownStreak | src/components/ThisWeekProgress.tsx:113-118 | the streak shown is the count of leading completed weeks |
| ProgressData.CountCompleted | src/hooks/useProgressData.tsx:55 | completed weeks are at most the row count, and equal to it exactly when every row is completed |
| ProgressData.CountCompletedAppend | src/hooks/useProgressData.tsx:55 | the count adds up over concatenation |
| ProgressData.CountCompletedPermutation | src/hooks/useProgressData.tsx:55-62 | the count does not depend on the order of the rows |
| ProgressData.SumWeeks | src/hooks/useProgressData.tsx:58 | the total of weeks is non-negative when every plan's weeks are |
| ProgressData.SumWeeksAppend | src/hooks/useProgressData.tsx:58 | the sum adds up over concatenation |
| ProgressData.Rate | src/hooks/useProgressData.tsx:59 | 0 without weeks; otherwise the whole percentage nearest to 100·completed/total, halves rounded up, and between 0 and 100 when completed <= total |
| ProgressData.RoundedQuotient | src/hooks/useProgressData.tsx:59 | the integer quotient used is that rounded percentage |
| ProgressData.SortByWeekDescending | src/hooks/useProgressData.tsx:62 | the rows end up sorted by week, latest first, and are a permutation of the rows fetched |
| ProgressData.SinkInto | src/hooks/useProgressData.tsx:62 | one insertion step extends the sorted prefix by one and permutes the rows |
| ProgressData.Swap | src/hooks/useProgressData.tsx:62 | exchanges two rows and nothing else |
| ProgressData.LeadingCompleted | src/hooks/useProgressData.tsx:63-70 | the streak rows are completed and the row after them is not |
| ProgressData.StreakAtMostCompleted | src/hooks/useProgressData.tsx:55-70 | the streak over the sorted rows never exceeds the completed weeks |
| ProgressData.CurrentStreak | src/hooks/useProgressData.tsx:63-70 | the loop counts the leading completed rows |
| ProgressData.ProgressHook.constructor | src/hooks/useProgressData.tsx:16-24 | all figures start at 0 and loading is on |
| ProgressData.ProgressHook.FetchProgressData | src/hooks/useProgressData.tsx:27-105 | nothing happens without a user; otherwise plans, completed weeks, rate and streak over the rows sorted latest first, with null results as no rows, the streak at most the completed weeks, and loading off |
| DayDetailView.TaskOr | src/components/DayDetailView.tsx:35-44 | a missing or empty task falls back to the fixed text |
| DayDetailView.InitialGoals | src/components/DayDetailView.tsx:31-59 | the given goals when there are any, else three open defaults with ids "1", "2", "3" and the fallback descriptions; never empty |
| DayDetailView.InitialHabits | src/components/DayDetailView.tsx:61-65 | one open habit per habit of the day, with its position as id |
| DayDetailView.InitialHabitIds | src/components/DayDetailView.tsx:61-65 | the initial habit ids are their positions and are distinct |
| DayDetailView.Toggled | src/components/DayDetailView.tsx:67-77 | goals or habits with that id flip; every other field and item is unchanged, and the length is kept |
| DayDetailView.ToggledTwice | src/components/DayDetailView.tsx:67-77 | toggling an id twice restores the items |
| DayDetailView.HabitToggleFlipsOne | src/components/DayDetailView.tsx:61-77 | with position ids, toggling habit k flips exactly habit k |
| DayDetailView.CompletedCount | src/components/DayDetailView.tsx:98-99 | at most the number of goals or habits, and equal exactly when all are completed |
| DayDetailView.DayComplete | src/components/DayDetailView.tsx:98-100 | completed == total exactly when every goal and every habit is completed |
| DayDetailView.DayDetail.constructor | src/components/DayDetailView.tsx:30-65 | the initial goals and habits; the progress denominator is positive |
| DayDetailView.DayDetail.ToggleGoal | src/components/DayDetailView.tsx:67-71 | the goals become the toggled goals; habits are unchanged |
| DayDetailView.DayDetail.ToggleHabit | src/components/DayDetailView.tsx:73-77 | the habits become the toggled habits; goals are unchanged |
| PlanSidebar.CurrentWeek | src/components/PlanSidebar.tsx:31-35 | `weeks[currentWeekIndex]` when there are weeks and the index is inside them, else nothing |
| PlanSidebar.TotalWeeks | src/components/PlanSidebar.tsx:37 | `weeks.length`, or 0 without weeks |
| PlanSidebar.ShowCheckIn | src/components/PlanSidebar.tsx:43 | the check-in shows exactly when asked for and the current week exists and is truthy |
| PlanSidebar.Prev | src/components/PlanSidebar.tsx:58 | max(0, i-1) |
| PlanSidebar.Next | src/components/PlanSidebar.tsx:71-73 | min(len-1, i+1) |
| PlanSidebar.EnabledButtonsMoveByOne | src/components/PlanSidebar.tsx:57-73 | an enabled Prev moves one week back and an enabled Next one week forward |
| PlanSidebar.ShowNavigation | src/components/PlanSidebar.tsx:51 | the buttons show exactly when there are weeks and at least two of them |
| PlanSidebar.PrevDisabled | src/components/PlanSidebar.tsx:57 | Prev is disabled exactly where pressing it would leave the index unchanged |
| PlanSidebar.NextDisabled | src/components/PlanSidebar.tsx:66-69 | Next is disabled without weeks, and otherwise exactly where pressing it would not move forward |
| PlanSidebar.NavigationHasEnabledButton | src/components/PlanSidebar.tsx:51-69 | on a week, shown buttons always have one enabled; with a single week both would be disabled |
| PlanSidebar.NavigateStaysInRange | src/components/PlanSidebar.tsx:57-73 | from an index in [0, len-1], any run of Prev/Next presses stays in [0, len-1] |
| DetailedProgressTracker.TimelineWeeks | src/components/dashboard/DetailedProgressTracker.tsx:52 | the weeks are exactly 1..n in order |
| DetailedProgressTracker.Visible | src/components/dashboard/DetailedProgressTracker.tsx:58 | exactly the first 8 weeks when there are more than 8, all of them otherwise |
| DetailedProgressTracker.MoreWeeks | src/components/dashboard/DetailedProgressTracker.tsx:79-82 | "... and n-8 more" appears exactly when n > 8, and counts the unlisted weeks |
| DetailedProgressTracker.RowStatus | src/components/dashboard/DetailedProgressTracker.tsx:61-67 | current exactly for week index+1, past exactly below it, upcoming exactly above it |
| DetailedProgressTracker.DotStatus | src/components/dashboard/DetailedProgressTracker.tsx:69-72 | green exactly for weeks up to the index, blue exactly for week index+1, grey above it |
| DetailedProgressTracker.DotAgreesWithRow | src/components/dashboard/DetailedProgressTracker.tsx:61-72 | the dot and the row, tested in different orders, always agree |
| DetailedProgressTracker.CurrentMarkerAtMostOnce | src/components/dashboard/DetailedProgressTracker.tsx:74-76 | the "← Current" marker appears on at most one listed week |
| DetailedProgressTracker.CurrentMarkerPosition | src/components/dashboard/DetailedProgressTracker.tsx:58-76 | the marker, when listed, is at position `current_week_index` |
| DetailedProgressTracker.CurrentWeek | src/components/dashboard/DetailedProgressTracker.tsx:22 | `plan.weeks[current_week_index]`, or nothing outside the weeks |
| DetailedProgressTracker.CheckInDay | src/components/dashboard/DetailedProgressTracker.tsx:103-104 | today's day when present and truthy, else the first day, else nothing |
| DetailedProgressTracker.CheckInDayExists | src/components/dashboard/DetailedProgressTracker.tsx:103-104 | a week with days always yields one of its days |
| DetailedProgressTracker.DailyCheckIn.constructor | src/components/dashboard/DetailedProgressTracker.tsx:90-91 | both box lists start empty, so every box reads unchecked |
| DetailedProgressTracker.DailyCheckIn.SetHabit | src/components/dashboard/DetailedProgressTracker.tsx:116-122 | copy and set only that habit index; tasks unchanged |
| DetailedProgressTracker.DailyCheckIn.SetTask | src/components/dashboard/DetailedProgressTracker.tsx:139-145 | copy and set only that task index; habits unchanged |
| DetailedProgressTracker.LastChangeWins | src/components/dashboard/DetailedProgressTracker.tsx:116-122 | after any run of changes, each box shows its last assigned value, or its initial state if never changed |
| WeekFetch.Outcome | src/components/TransformationPlanCards.tsx:75-86 | loaded exactly for a 2xx reply with truthy `weekData`; otherwise the thrown message, "Failed to generate week.", "No week data found." or "Unable to load content for this week.", never empty |
| TransformationPlanCards.BaseWeeks | src/components/TransformationPlanCards.tsx:61 | the plan's `totalWeeks`, or 12 only when it is absent |
| TransformationPlanCards.RequestFor | src/components/TransformationPlanCards.tsx:61-72 | the request carries the plan's goal and commitment, the week number and the base weeks |
| TransformationPlanCards.Ready | src/components/TransformationPlanCards.tsx:48 | weeks are fetched only for a plan with a non-empty goal and time commitment |
| TransformationPlanCards.NextTotalWeeks | src/components/TransformationPlanCards.tsx:82-84 | an unknown total is taken from a week with truthy `week` and `totalWeeks`; a known one is kept |
| TransformationPlanCards.TotalWeeksSetOnce | src/components/TransformationPlanCards.tsx:82-84 | once set, the total survives any further loaded weeks |
| TransformationPlanCards.TotalAfter | src/components/TransformationPlanCards.tsx:82-84 | the total shown is truthy whenever it is known |
| TransformationPlanCards.PlanCards.constructor | src/components/TransformationPlanCards.tsx:39-43 | no weeks, week 1, unknown total, no error, not loading |
| TransformationPlanCards.PlanCards.FetchWeek | src/components/TransformationPlanCards.tsx:55-90 | no request for a loaded week; success adds exactly that week; failure keeps the weeks and sets the message; loading is off |
| TransformationPlanCards.PlanCards.PlanChanged | src/components/TransformationPlanCards.tsx:46-53 | clears the error and requests week 1 exactly when the plan is ready and nothing is loaded; a loaded week 1 becomes the only week and sets the total, a failure sets the message |
| TransformationPlanCards.PlanCards.Prev | src/components/TransformationPlanCards.tsx:93-95 | back one week only above week 1; weeks unchanged |
| TransformationPlanCards.PlanCards.Next | src/components/TransformationPlanCards.tsx:96-99 | forward one week with no upper bound, requesting it exactly when absent; on success exactly that week is added and the total updated, on failure only the message is set, with no request nothing else changes |
| TransformationPlanCards.PlanCards.IndexChanged | src/components/TransformationPlanCards.tsx:102-107 | requests the shown week exactly when it is not loaded; on success exactly that week is added and the total updated, on failure only the message is set, with no request nothing changes |
| TransformationPlanCards.PlanCards.CurrentWeek | src/components/TransformationPlanCards.tsx:109 | the shown week exists exactly when it is loaded, and is the loaded week |
| TransformationPlanCards.ForwardAndBack | src/components/TransformationPlanCards.tsx:93-107 | after a successful Next, going back and forward again requests nothing |
| TransformationPlanCards.DayCard.constructor | src/components/TransformationPlanCards.tsx:197 | the habit boxes start all false |
| TransformationPlanCards.DayCard.Toggle | src/components/TransformationPlanCards.tsx:215-219 | a click flips box i |
| WeeklyData.StoredWeek | src/hooks/useWeeklyData.tsx:49-50 | the stored week exists exactly when the plan is an object whose `weeklyDetails` is an object holding the week number's decimal key, and is that field |
| WeeklyData.MergeWeek | src/hooks/useWeeklyData.tsx:96-102 | the merged plan is an object |
| WeeklyData.MergedWeekIsStored | src/hooks/useWeeklyData.tsx:96-102 | the merged week is read back for its week number |
| WeeklyData.MergeKeepsOtherWeeks | src/hooks/useWeeklyData.tsx:96-102 | every other stored week is unchanged |
| WeeklyData.MergeKeepsOtherFields | src/hooks/useWeeklyData.tsx:96-102 | every other plan field is unchanged, and the plan keeps its shape |
| WeeklyData.WeeklyDataHook.constructor | src/hooks/useWeeklyData.tsx:24-28 | the memo starts empty, with no error and not loading |
| WeeklyData.WeeklyDataHook.Linked | src/hooks/useWeeklyData.tsx:41 | the stored plan is read and written only with both a user id and a plan id |
| WeeklyData.WeeklyDataHook.StoredHit | src/hooks/useWeeklyData.tsx:41-57 | a stored week is used exactly when there are a user and a plan id, the lookup has no error and the stored week is truthy, and then it is that week |
| WeeklyData.WeeklyDataHook.StoredAfter | src/hooks/useWeeklyData.tsx:87-112 | the stored plan changes only by merging the generated week, and only when linked, read and written successfully; a linked, successful store into a non-null plan always merges; a null plan is left as it is, since reading its `weeklyDetails` throws; errors are swallowed |
| WeeklyData.WeeklyDataHook.FetchWeekData | src/hooks/useWeeklyData.tsx:30-122 | a memo hit changes nothing; a stored hit memoises that week without generating; success stores and memoises exactly that key; failure returns null, sets the error and keeps memo and store; loading is off |
| WeeklyData.LaterSessionFindsWeek | src/hooks/useWeeklyData.tsx:41-115 | a week generated and stored in one session is found by a later session without generating |

## Left out

- I/O is left out: HTTP to the language model and to the backend, CORS preflight, response headers and prompt text. Each call is a parameter saying how it went.
- `req.json()` failing on a malformed body is left out.
- localStorage reads and writes are left out. Stored values enter as parameters of the constructors and `Load`. Writing an array to storage turns a hole into `null`, which reads back as an element like `Undef`; the model does not follow that round trip. The storage keys, with their "stridely" prefix, are not modelled.
- Concurrency, await interleavings and duplicate in-flight `fetchWeek` calls (`handleNext` plus the index effect) are left out. So are stale closures, cancellation and timers (`setTimeout` resetting `justCompleted`). Each handler is modelled as running to completion.
- `Math.random` series and mock dashboard data are left out.
- Character positions: a Dafny `char` is one Unicode scalar value, while JavaScript's `indexOf`, `lastIndexOf`, `substring`, `split` and regular expressions count UTF-16 code units. Every delimiter modelled (braces, backticks, the en dash, white space, the URL schemes) lies in the Basic Multilingual Plane, so the substrings selected agree. Numeric positions differ after a character outside it, such as an emoji; no position is returned to the caller.
- The daily-progress and check-in upserts are left out. Their conflict handling belongs to the backend.
- RoadmapCache.Store: one row per key is the intent written beside the request, not something the code enforces. The request sets no conflict column. A repeated store into the map overwrites the row, so duplicate rows are not modelled.
- ProgressData.Rate: it is exact round-half-up of 100·completed/total. JavaScript computes in floating point, so for 23 of 40 weeks it shows 57 where exact rounding gives 58. Floating-point error is not modelled.
- DayDetailView.DayComplete: "Day Complete" compares a floating-point percentage with 100. It is modelled as the integer test completed == total. The shown percentage itself is not modelled.
- JsonValue.Spread: spreading a string or an array copies its indices. The model treats every non-object as spreading to nothing.
- JsonValue.Member: property access on a string or an array (an index, `length`) is modelled as `undefined`. Every access modelled here is on an object.
- WeeklyData.MergeWeek inherits the Spread simplification when a stored plan or its `weeklyDetails` is a string or an array.
- Non-string completions are left out. `text.match` throws on them, and `?? ""` keeps them. Completions are `Option<string>`.
- A missing and an empty string are not distinguished (both are ""). The code tests them the same way (`||`, truthiness), except that `??` in `BaseWeeks` is modelled separately.
- `roadmap.weeks` and `plan.weeks` that are not arrays are left out. They are modelled as `Option<seq<Json>>`.
- Sort stability is left out. The comparator `b.week - a.week` is modelled as sorting by week, latest first. SortByWeekDescending promises sorted and a permutation, not which of two equal-week rows comes first. The streak over equal weeks can depend on an order the model leaves open.
- The plan selector and the empty-plans card of the detailed progress tracker are left out. They are rendering choices over a list index.
- The three-item `slice` of the check-in lists is left out. Only the boxes are modelled.
- `Number(e.target.value)` is left out.
- Non-integer `number_of_weeks` is left out. Week counts are integers.
- Rendering and styling are left out.

## Findings

| source | as written | input that shows it | evidently intended | confidence | as-written member | corrected member |
|---|---|---|---|---|---|---|
| src/components/ThisWeekProgress.tsx:79-82 | `checkedHabits.every(Boolean)` skips array holes, and a habit set past the end of a shorter stored array leaves holes, so a week can count as complete while a habit is unchecked | a stored array `[true]` for a week that now has three habits, habit 2 checked, milestone checked: the array is `[true, <hole>, true]`, its length matches, `every` passes, and the week is auto-marked complete with habit 1 unchecked; the window closes at the next box change, when the spread copy turns the hole into `undefined` | a week is complete when every habit shows checked and the milestone is checked | not executed | ThisWeekProgress.HoleCompletesWeek | ThisWeekProgress.CompleteWeekHasNoHoles |

The progress component in the model (`WeekProgress.AutoComplete`, `WeekProgress.CheckOff`) uses the corrected predicate `WeekComplete`. `CompleteAgreesWithoutHoles` shows that it agrees with the test as written whenever the array has no holes. `AssignInsideAgrees` shows that this holds after any change inside the array. `NextChangeCopiesHole` shows the hole lasting only until the next change.
