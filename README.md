# Supplier-opportunity platform: rate limiting and recommendation logic

This project models, in Dafny, three pieces of decision logic of the
manufacturer/supplier opportunity platform:

- **The dual-window rate limiter** that guards every call to the
  generative-AI backend. One class holds a per-minute tracker (3 requests
  per 60 000 ms) and a per-hour tracker (10 requests per 3 600 000 ms).
  Each tracker is a count and a reset time. A check first rolls over any
  window whose reset time is strictly in the past. It then tests the
  minute window and then the hour window. It increments both counts only
  when both windows have capacity. A denial carries a message with the
  wait rounded up to whole seconds or whole minutes, plus the blocking
  window's reset time. The class appears three times in the repository
  (`src/lib/rateLimiter.ts` and the `gemini-trends` and `keyai-chat` edge
  functions). The three copies have the same limits, the same state and the
  same `checkLimit`, so they are modelled once as `RateLimit.RateLimiter`.
  Only `src/lib/rateLimiter.ts` also has `getRemainingRequests`
  (lines 67-82). The edge copies end after `checkLimit` (line 70 of
  `gemini-trends`, line 71 of `keyai-chat`) and never offer that query. The
  two edge functions' admission gates are modelled in `EdgeGuards`.
- **The recommendation generator's pure functions**:
  - the geographic, overlap, category, capacity and interest matchers;
  - the explanation sentence;
  - the capability-gap analysis;
  - the selection rule: keep the fits of at least 40 whose insert
    succeeded, sort them best first and return at most twenty.
- **The event logger's outcome mapping** from a user action to a
  recommendation outcome.

Files:

- `text.dfy`: the string facilities the code gets from its runtime.
  These are lower-casing, `includes`, decimal rendering of numbers and
  `join`.
- `rate_limiter.dfy`: the limiter's specification functions (`Decide`,
  `Next`, `ClearExpired`, `RemainingOf`), their properties, and the
  `RateLimiter` class. The class's methods are proved against those
  functions.
- `edge_guards.dfy`: the two edge functions' admission gates.
- `recommendations.dfy`: matchers, explanation, gap analysis and
  selection.
- `log_event.dfy`: the event-to-outcome mapping.

The clock (`Date.now()`) is a parameter `now` in milliseconds.

## Model

| member | source | states |
|---|---|---|
| RateLimit.RateLimiter.constructor | src/lib/rateLimiter.ts:12-19 | A new limiter starts with both trackers at count 0 and reset time 0, within its limits. |
| RateLimit.RateLimiter.CheckLimit | src/lib/rateLimiter.ts:21-65 | Decision and new state are exactly `Decide`/`Next` of the old state. A call is admitted iff both rolled-over windows have capacity. A denial leaves only the rollover behind. The counts stay within their limits. |
| RateLimit.RateLimiter.GetRemainingRequests | src/lib/rateLimiter.ts:67-82 | It zeroes expired counts and leaves their reset times alone. It returns `max(0, limit - count)` per window, which lies in [0, limit]. Both values are positive iff a check at the same instant would be admitted. |
| RateLimit.CeilDiv | src/lib/rateLimiter.ts:42 | `Math.ceil(a / b)` is the least q with `a <= q * b`. |
| RateLimit.ToResult | src/lib/rateLimiter.ts:43-64 | `allowed` iff admitted. An admission carries no error and no reset time. A minute denial carries the minute message with its wait in seconds, an hour denial the hour message with its wait in minutes, and both the blocking reset time. |
| RateLimit.MinuteMessageNamesWait | src/lib/rateLimiter.ts:45 | The minute message names the limit "3 requests per minute" and the wait "<n> seconds". |
| RateLimit.HourMessageNamesWait | src/lib/rateLimiter.ts:55 | The hour message names the limit "10 requests per hour" and the wait "<n> minutes". |
| RateLimit.WaitMessageScenario | supabase/functions/gemini-trends/index.ts:45-51 | Minute limit used up with the window ending 45 000 ms from now: the result is a minute denial with wait 45 and that reset time, and the message contains "45 seconds". |
| RateLimit.CheckPreservesBounds | src/lib/rateLimiter.ts:40-63 | A check never pushes a count past its limit. |
| RateLimit.LazyRollover | src/lib/rateLimiter.ts:24-38 | A window rolls over only when `now` is strictly past its reset time, and then restarts at `now + window` with count 0 or 1. Otherwise it keeps its reset time and grows by at most one. |
| RateLimit.AdmissionIff | supabase/functions/keyai-chat/index.ts:46-69 | Admitted iff both rolled-over counts are below their limits. Admission adds exactly one to each count and moves no reset time. |
| RateLimit.DenialKeepsCounters | supabase/functions/gemini-trends/index.ts:44-62 | A denied check changes nothing but the rollover. With no window expired it changes nothing at all. |
| RateLimit.DenialIsStable | supabase/functions/keyai-chat/index.ts:46-63 | A denied check repeated at the same instant gives the same denial and leaves the same state. |
| RateLimit.MinuteTakesPrecedence | src/lib/rateLimiter.ts:40-48 | With both windows exhausted, the minute denial is reported with the minute tracker's reset time. |
| RateLimit.WaitBounds | src/lib/rateLimiter.ts:42-56 | A denial echoes the blocking tracker's rolled-over reset time, and its wait is never negative. On a clock that does not run backwards, the wait is at most 60 seconds or 60 minutes. |
| RateLimit.CheckOpensWindows | supabase/functions/gemini-trends/index.ts:28-42 | A check opens windows that end at most one window length after `now`. This is the monotone-clock hypothesis `WaitBounds` needs. |
| RateLimit.FirstCallAdmitted | supabase/functions/keyai-chat/index.ts:23-43 | A fresh limiter admits its first call and restarts both windows at that time. |
| RateLimit.RemainingBounds | src/lib/rateLimiter.ts:67-82 | Remaining capacity lies in [0, limit]. An expired window reads as full. No reset time is touched. |
| RateLimit.RemainingPredictsAdmission | src/lib/rateLimiter.ts:71-81 | Both remaining capacities are positive iff `checkLimit` at the same instant admits. |
| RateLimit.ClearExpiredIsInvisible | src/lib/rateLimiter.ts:70-76 | Querying the remaining capacity does not change what a later check at the same instant decides or leaves behind. |
| RateLimit.RunPreservesBounds | supabase/functions/gemini-trends/index.ts:64-66 | After any sequence of checks, both counts stay within their limits. |
| RateLimit.MinuteWindowCapsAdmissions | src/lib/rateLimiter.ts:41-62 | Checks within one minute window are admitted at most `3 - count` times. The admissions equal the growth of the count. |
| RateLimit.HourWindowCapsAdmissions | src/lib/rateLimiter.ts:51-62 | Checks within one hour window are admitted at most `10 - count` times. |
| RateLimit.RolloverScenario | src/lib/rateLimiter.ts:13-16 | Three calls are admitted. A fourth in the same minute is denied with wait 57 s and reset 61000, and changes nothing. A call after the window ended is admitted with the minute count back at 1. The remaining capacity after two calls is (1, 8). |
| EdgeGuards.GeminiTrendsGate | supabase/functions/gemini-trends/index.ts:88-104 | A missing API key costs no quota and ends in the demonstration data. Otherwise the limiter advances by one check, the request proceeds iff admitted, and a denial is a 429 with the limiter's message and an empty opportunity list. |
| EdgeGuards.KeyaiChatGate | supabase/functions/keyai-chat/index.ts:91-107 | An unreadable body costs no quota and is a 500 with its error. Otherwise the limiter advances by one check, the request proceeds iff admitted, and a denial is a 429 with the limiter's message. |
| LogEvent.OutcomeFromEvent | supabase/functions/log-event/index.ts:70-81 | "accepted" iff the event is save, contact or view_suppliers. "rejected" iff it is reject. "pending" for every other name. |
| Text.Lower | supabase/functions/generate-recommendations/index.ts:211-212 | Lower-casing keeps the length and maps each character by `LowerChar`. |
| Text.Includes | supabase/functions/generate-recommendations/index.ts:223-224 | `hay.includes(needle)` is true iff `needle` occurs at some index of `hay`. |
| Text.MutuallyIncludedReflexive | supabase/functions/generate-recommendations/index.ts:294-295 | Every string matches itself. |
| Text.NatString | src/lib/rateLimiter.ts:45 | Interpolating a number gives a non-empty string of decimal digits without a leading zero. |
| Text.ParseNatString | supabase/functions/gemini-trends/index.ts:49 | Reading the interpolated digits back gives the number, so the message carries exactly the computed wait. |
| Text.Join | supabase/functions/generate-recommendations/index.ts:282 | `join` lays out the elements in order with the separator between neighbours and nothing else: element i sits at `Offset(i)`, the separator right after it, and the length is that of the last element's end. The empty list joins to "". |
| Text.JoinedByUnique | supabase/functions/generate-recommendations/index.ts:282 | Two strings with that layout for the same list and separator are equal, so the layout defines `join` completely. |
| Recommendations.Filter | supabase/functions/generate-recommendations/index.ts:209-214 | `filter` keeps exactly the elements passing the test, in their original order, as a subsequence. Each passing element occurs as often as in the input, and each failing one not at all. |
| Recommendations.AnyMatch | supabase/functions/generate-recommendations/index.ts:210-213 | `some` is true iff some item and the target contain one another, ignoring case. |
| Recommendations.FilterNonEmpty | supabase/functions/generate-recommendations/index.ts:222-227 | A filter result is non-empty iff some element passes. |
| Recommendations.GeographicMatch | supabase/functions/generate-recommendations/index.ts:197-204 | The result is 20, 50, 70 or 100. It is 20 when a side is missing. It is 100 iff the cities agree, at least 70 iff the city or state agrees, and at least 50 iff any level agrees. |
| Recommendations.MissingCitiesMatch | supabase/functions/generate-recommendations/index.ts:200 | Two locations that both lack a city score 100. |
| Recommendations.MatchedItems | supabase/functions/generate-recommendations/index.ts:209-214 | An item is matched iff the user lists it and some trend item matches it. A matched item occurs as often as the user lists it, so the count is no larger than the user's list. |
| Recommendations.OverlapScore | supabase/functions/generate-recommendations/index.ts:206-217 | The score is 0 when either list is empty. Otherwise it is matched / max(lengths) × 100, within [0, 100]. |
| Recommendations.Percentage | supabase/functions/generate-recommendations/index.ts:216 | `(k / m) * 100` for k ≤ m lies in [0, 100] and satisfies p·m = 100·k. |
| Recommendations.CategoryMatch | supabase/functions/generate-recommendations/index.ts:219-228 | 0 with no products. Otherwise 80 iff some product and the category contain one another, and 20 if not. |
| Recommendations.CapacityMatch | supabase/functions/generate-recommendations/index.ts:230-239 | 50 when the capacity is empty or the market size is 0. Otherwise 90 iff it mentions "large", 70 iff "medium" but not "large", and 40 iff only "small". |
| Recommendations.InterestMatch | supabase/functions/generate-recommendations/index.ts:241-250 | 100 iff some interest and the category contain one another, and 0 otherwise. |
| Recommendations.Reasons | supabase/functions/generate-recommendations/index.ts:253-276 | Each sentence is in the list iff its rule fires: geography ≥ 70, process overlap ≥ 50, category ≥ 50, demand ≥ 80, supplier density ≤ 20. The list is a subsequence of the five sentences in rule order, so it has at most five. It is empty iff no rule fires. |
| Recommendations.RuleSentences | supabase/functions/generate-recommendations/index.ts:253-276 | For any five distinct sentences, pushing each one when its flag holds gives a subsequence of the five, in order, that contains a sentence iff its flag holds. |
| Recommendations.JoinIncludesEach | supabase/functions/generate-recommendations/index.ts:282 | Every joined sentence occurs in the joined text. |
| Recommendations.Paragraph | supabase/functions/generate-recommendations/index.ts:282 | The text is the sentences laid out with ". " between neighbours (`JoinedBy`), then a closing '.'. It opens with the first sentence and contains every sentence. |
| Recommendations.Explanation | supabase/functions/generate-recommendations/index.ts:278-282 | With no reasons, the text is the fallback sentence and '.'. Otherwise it is the first min(3, n) reasons laid out with ". " between them, then '.', so a fourth or fifth reason never shows. It contains each shown reason and opens with the first. |
| Recommendations.GenerateReasoning | supabase/functions/generate-recommendations/index.ts:252-283 | The explanation ends in '.', and is the fallback sentence when no rule fires. |
| Recommendations.ReasoningOpening | supabase/functions/generate-recommendations/index.ts:255-258 | When the geographic rule fires, the explanation opens with the geographic sentence. |
| Recommendations.Gaps | supabase/functions/generate-recommendations/index.ts:292-297 | The gaps are the required items no capability matches, in their original order. Each unmatched item occurs as often as it is required, and each matched one not at all. |
| Recommendations.AnalyzeSetupRequirements | supabase/functions/generate-recommendations/index.ts:285-304 | Echoes the required setup and reports the gaps against processes and certifications. The investment is "Low to Medium" iff there are no gaps. The timeline is "6-12 months" iff there are more than two. |
| Recommendations.GapIff | supabase/functions/generate-recommendations/index.ts:292-296 | A required item is a gap iff no process or certification matches it. |
| Recommendations.AnyMatchAppend | supabase/functions/generate-recommendations/index.ts:286-289 | A capability matches in the merged list iff it matches in one of the two lists. |
| Recommendations.MoreCapabilitiesFewerGaps | supabase/functions/generate-recommendations/index.ts:286-297 | Adding capabilities never adds a gap: the new gaps are a subsequence of the old ones. |
| Recommendations.Collected | supabase/functions/generate-recommendations/index.ts:97-142 | Every candidate with fit ≥ 40 and a successful insert is collected. Everything collected comes from such a candidate, so a failed insert or a weaker fit is never collected. The collection is a subsequence of the candidates' recommendations, so it keeps trend order. |
| Recommendations.CollectedSnoc | supabase/functions/generate-recommendations/index.ts:97-141 | One more trend at the end adds its recommendation to the collection iff it is kept. |
| Recommendations.CollectRecommendations | supabase/functions/generate-recommendations/index.ts:95-142 | The loop collects exactly `Collected`, and all of it is a good fit. |
| Recommendations.InsertDescending | supabase/functions/generate-recommendations/index.ts:145 | One insertion step extends the best-first prefix by one element. The prefix is a permutation of the old prefix, and nothing after it moves. |
| Recommendations.SortByFitDescending | supabase/functions/generate-recommendations/index.ts:145 | The sort leaves the array ordered by fit score, best first, as a permutation of its contents. |
| Recommendations.SortedPrefixIsBest | supabase/functions/generate-recommendations/index.ts:145-150 | The first n of a best-first list are drawn from it, and nothing left out scores higher. |
| Recommendations.GoodFitsPermuted | supabase/functions/generate-recommendations/index.ts:102 | Reordering and truncating good fits keeps only good fits. |
| Recommendations.SelectTop | supabase/functions/generate-recommendations/index.ts:95-150 | Returns min(20, collected) recommendations, all fits ≥ 40, best first. None of the collected recommendations left out scores higher than one returned. |

## Left out

- Network, database and AI backend I/O are not modelled. This covers the HTTP handling, CORS, the database reads, the inserts and the backend calls. An insert's success is an input flag (`Candidate.saved`), and the generated `rec_id` is not modelled.
- The clock (`Date.now()`) is not modelled: it is the parameter `now`.
- Concurrency is not modelled. Each check runs to completion, as on a single-threaded event loop.
- Module singletons are not modelled: each edge function's limiter is the `RateLimiter` object passed to its gate.
- `calculateFitScore` is left out because it is a floating-point weighted sum with `Math.round`. Fit scores are inputs to the selection, and `GenerateReasoning` ignores its fit-score argument, as the code does.
- Recommendations.OverlapScore: computed as an exact rational, not an IEEE double.
- Recommendations.CapacityMatch: only the `!capacity` case is modelled (as the empty string), and only the `!marketSize` case as 0. `NaN` and `null` market sizes are not modelled.
- Text.Lower: models `toLowerCase` on ASCII letters only. Other Unicode case mappings are not modelled.
- Text.NatString: models number interpolation for integers only. The limiter's waits are always integers, and `demand_score` is modelled as an integer.
- Recommendations.SortByFitDescending: does not state that the sort is stable. `Array.prototype.sort` is stable, but the selection's properties do not depend on the order of equal scores.
- Recommendations.SelectTop: returns only the trend id and fit score of each recommendation. The other fields copied into the response are not modelled.
- RateLimit.WaitBounds: bounds the wait from above only on a clock that does not run backwards (`OpenedBy`). If the clock jumps back, the wait can exceed 60.
- Limits are fixed, not configurable. They are the code's constants (3, 10, 60 000 ms, 3 600 000 ms), and no constructor in the code takes them as parameters.
- EdgeGuards.GeminiTrendsGate: the demonstration payload that the catch-all returns is not modelled.
- EdgeGuards.KeyaiChatGate: the body parser is not modelled. Its failure is the input `parseError`.
- The rest of the repository is not part of this model. This covers the React components, the chat message formatting, the supplier extraction, the class-name helper, the shared type declarations and the prompt construction.
