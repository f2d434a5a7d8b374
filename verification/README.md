# CineTaste: a verified model

A Dafny model of the parts of CineTaste that carry real invariants: how ratings become a taste profile, how a profile
becomes a ranked slate, how slates are cached while writers run, how sessions rotate, how history is paged, how the
in-process store evicts and counts, and how the catalog is ingested over an unreliable connection. Python and TypeScript
loops are Dafny methods over the same state; each is proved against a specification, and the promises of the code are
proved about the specification.

`dafny verify dfyconfig.toml` checks everything. One file is one component:

| file | what it models |
|---|---|
| `Common.dfy` | options, distinct lists, sums over index sets and sequences, stable argsort |
| `Vectors.dfy`, `VectorLaws.dfy` | dense vectors over exact reals, dot product inequalities, cosine, blending |
| `Mmr.dfy`, `MmrOptimality.dfy`, `MmrPreference.dfy` | greedy diversification with a per-genre cap, its optimality, and what its trade-off prefers |
| `Interleave.dfy`, `SlateFill.dfy`, `Slate.dfy`, `ExplorationLaws.dfy`, `RankTitles.dfy`, `RankingMeaning.dfy` | the ranking pipeline, and its stages read off the score order |
| `Ndcg.dfy`, `NdcgLaws.dfy`, `Evaluation.dfy` | the ranking metric, what it rewards, and the offline evaluation that relies on distinct slates |
| `TasteSignals.dfy`, `SignalLaws.dfy`, `SignalMeaning.dfy`, `TitleStatus.dfy`, `UndoSignal.dfy`, `UndoLog.dfy` | the event log and its three views, and what undo restores of each |
| `FeatureNorms.dfy`, `FamilyTargets.dfy`, `Profile.dfy`, `EvidenceLaws.dfy` | family normalisation, profile building, and what one signal changes |
| `SlateCache.dfy`, `SlateProvenance.dfy`, `FreshSlates.dfy` | requests, writers and background work interleaved over the version-keyed cache, and what each hit and each fresh answer serves |
| `TokenFamilies.dfy`, `TokenExpiry.dfy`, `SessionLimits.dfy`, `AuthSession.dfy` | refresh-token families as a machine, when its tokens expire, where its promises end, and the service that refines it |
| `LruOrder.dfy`, `StoreSpec.dfy`, `StoreRuns.dfy`, `CacheStore.dfy`, `RateLimit.dfy` | the bounded store and the rate limiter |
| `Base64Url.dfy`, `Base64Known.dfy`, `HistoryCursor.dfy`, `HistoryPages.dfy`, `HistoryWalk.dfy` | the signed cursor, keyset pagination, and walks by cursor text |
| `ConnectionLost.dfy`, `CatalogIngest.dfy`, `IngestStops.dfy`, `RefLookups.dfy` | the exception walk, the batch loop, where it stops, and the shared rows |

## Assumptions

- Numbers are exact reals; `sqrt`, the decay power and the discount are parameters known only by the facts a proof needs.
  The explicit four-decimal rounding is modelled, ties to even.
- One clock reading per operation. Randomly generated identifiers are fresh counters, keyed digests and text formats are
  functions of which only injectivity or round trip is assumed.
- Writers to one user's profile are serialised transactions; requests interleave with them step by step.
- The catalog of titles is fixed while slates are served. Database queries that order and limit rows are parameters
  required to return what SQL promises.

## Where the promises do not hold as written

- `docs/SECURITY.md:38`, `docs/DEPLOY.md:99` and `docs/SOFT_LAUNCH_CHECKLIST.md:45` say that reusing a revoked refresh
  token revokes the whole family. The service method does so in its session and then raises, and the request scope rolls
  back on every exception, so the committed store is unchanged (`TokenFamilies.ReuseInSessionAndCommitted`). A login, a
  refresh and the old token again leave the successor alive (`SessionLimits.ReuseLeavesFamilyAlive`); as a corollary the
  family is dead afterwards exactly when it was dead already (`SessionLimits.ReuseCommitsDeathIff`).
- A password reset ends every family for good except where a token was rotated within the grace window
  (`TokenFamilies.ResetKillsFamilies`); `SessionLimits.ResetUndoneWithinGrace` is a run that revives one.
- The docstring of `invalidate_user` calls a stale slate unreachable. It is, except for a request that had read the
  profile before the change (`SlateCache.StaleEntriesUnreachable`). That request can be served a slate that is not the
  current one (`SlateProvenance.OvertakenServed`), and `SlateProvenance.HitCurrentByExclusionsIff` says exactly when a hit
  is current.
- Undo promises the state before. The status it restores agrees only while the like and dislike shortcuts are not mixed
  with ratings (`TitleStatus.UndoRestoresIff`, `TitleStatus.UndoCanFlipState`, `TitleStatus.RatingIsEffectiveIff`).
- Undo changes what the profile learns from, on ordinary histories too. Rating 4, watchlist, "not interested", undo
  replaces the rating by the watchlist entry (`UndoSignal.UndoLosesRating`); the kind of the effective event survives
  exactly under the condition of `UndoSignal.UndoRestoresKindIff`. Where the kind survives, its clock starts anew: with
  the default half-life a mis-tap and its undo bring an old rating back to full weight (`UndoLog.AgedRatingRefreshed`,
  `UndoLog.UndoRefreshes`). Kind and weight survive together exactly under `UndoLog.UndoRestoresLearningIff`, the time
  of a signal never (`UndoLog.UndoRestoresSignalIff`).
- The ingest report undercounts creations after a commit that was applied but not acknowledged
  (`CatalogIngest.ReportIsGrowthIff`, `CatalogIngest.LostCreation`).
- A signed cursor with a non-ASCII character raises an exception other than the cursor error
  (`HistoryCursor.UncaughtIff`, `HistoryCursor.AccentedCursorUncaught`).
- NDCG is a proportion only if no relevant id is repeated among the first k, which ranking provides
  (`Ndcg.RepeatsExceedOne`, `Evaluation.Recommend`); the exact condition over all discounts is prefix dominance
  (`Ndcg.NdcgBoundedIff`).

## Model

| member | source | states |
|---|---|---|
| `Mmr.MmrOrder` | backend/app/recommendation/pipeline.py:231-270 | The loop with its running similarity array and counters produces a greedy run of the quadratic definition: each pick is the first best open candidate, and it stops short only when none is open. |
| `Mmr.RaiseSimilarity` | backend/app/recommendation/pipeline.py:264-264 | One array update per pick keeps the running maximum of every candidate. |
| `MmrOptimality.MaxSimMeaning` | backend/app/recommendation/pipeline.py:250-264 | The penalty is max(0, greatest similarity to any pick): a bound on every similarity that is 0 or attained. |
| `MmrOptimality.RunDistinct` | backend/app/recommendation/pipeline.py:231-270 | No candidate is picked twice. |
| `MmrOptimality.RunRespectsCaps` | backend/app/recommendation/pipeline.py:231-270 | No group exceeds its cap. |
| `MmrOptimality.RunUnique` | backend/app/recommendation/pipeline.py:231-270 | The quadratic definition has exactly one run, so the incremental loop computes it and nothing else. |
| `MmrOptimality.RunMaximal` | backend/app/recommendation/pipeline.py:231-270 | A run that stops early is as large as any cap-respecting set. |
| `MmrOptimality.Exchange` | backend/app/recommendation/pipeline.py:231-270 | With lambda 1 any cap-respecting set can absorb the first t picks without losing relevance. |
| `MmrOptimality.LambdaOneOptimal` | backend/app/recommendation/pipeline.py:231-270 | With lambda 1 the picks have maximum total relevance among all cap-respecting sets of their size. |
| `MmrPreference.FirstPickMostRelevant` | backend/app/recommendation/pipeline.py:253-264 | The first pick has the greatest relevance of the open candidates, the earliest of equals. |
| `MmrPreference.PickIsPreferred` | backend/app/recommendation/pipeline.py:253-264 | For a later pick and any open candidate with penalties m and m', lambda * (relevance gained) >= (1 - lambda) * (m - m'); on a tie the earlier one is taken. A penalty is non-negative, bounds every dot product with an earlier pick, and is 0 or attained. |
| `MmrPreference.DuplicateIsPassedOver` | backend/app/recommendation/pipeline.py:253-264 | With lambda below 1, of two open candidates of equal relevance the one with the larger penalty is never picked next. |
| `MmrPreference.DuplicateComesLast` | backend/app/recommendation/pipeline.py:253-264 | Relevance 1.0, 0.9, 0.8, the second repeating the first, lambda 0.8: the picks are the first and the third. |
| `Interleave.InterleaveLists` | backend/app/recommendation/pipeline.py:288-296 | Repeated clamped insertion puts every item of both lists at its computed place, as a permutation of both. |
| `Interleave.SpreadKeepsOrder` | backend/app/recommendation/pipeline.py:288-296 | Both inputs keep their order and no extra item takes position 0 of a non-empty main list. |
| `Interleave.SpreadEvenly` | backend/app/recommendation/pipeline.py:288-296 | With more main than extra items, consecutive extras are exactly one step apart. |
| `Interleave.SpreadUnique` | backend/app/recommendation/pipeline.py:288-296 | The places determine the whole merged list. |
| `RankingMeaning.StepMeaning` | backend/app/recommendation/pipeline.py:288-296 | With more main than extra items, step * (extra + 1) <= main < (step + 1) * (extra + 1). |
| `SlateFill.FillSize` | backend/app/recommendation/pipeline.py:433-449 | Raising the cap step by step terminates with the slate full or the pool used up, and keeps every earlier pick. |
| `SlateFill.FillFair` | backend/app/recommendation/pipeline.py:433-449 | From a level start the fill ends fair: every genre with unused candidates has at least c - 1 titles when some genre above the base has c. |
| `SlateFill.FairIsMinMax` | backend/app/recommendation/pipeline.py:433-435 | A fair choice is min-max optimal: an equally large choice of distinct titles has a genre with at least as many. |
| `SlateFill.ExploreCapped` | backend/app/recommendation/pipeline.py:408-431 | Exploration never lifts a genre above the cap. |
| `SlateFill.ExploreMaximal` | backend/app/recommendation/pipeline.py:408-431 | What a pass with slots left over skipped was barred by the cap or by a genre already shown. |
| `Slate.GenreCapFor` | backend/app/recommendation/pipeline.py:75-88 | The default cap is two fifths of the slate to the nearest integer, and at least 3. |
| `Slate.CoreFacts` | backend/app/recommendation/pipeline.py:391-404 | The core keeps the cap, is not empty and opens with the best-scored candidate. |
| `Slate.ExplorationFacts` | backend/app/recommendation/pipeline.py:408-431 | Exploration stays within its slots, the window, the rating floor and the cap, and repeats no core title. |
| `Slate.SlateComplete` | backend/app/recommendation/pipeline.py:323-451 | Exactly min(slate size, pool size) distinct pool titles, opening with the highest score. |
| `Slate.SlateFair` | backend/app/recommendation/pipeline.py:433-449 | Over the whole slate no genre lags by more than one behind a genre that went over the cap. |
| `Slate.SlateMinMax` | backend/app/recommendation/pipeline.py:433-449 | If some genre ends with c titles, more than the cap, every equally large set of pool titles has a genre with at least c. |
| `Slate.CapHoldsWhenPossible` | backend/app/recommendation/pipeline.py:433-449 | The cap holds in every genre if and only if some equally large set of pool titles respects it. |
| `ExplorationLaws.ExplorationShowsNewGenres` | backend/app/recommendation/pipeline.py:416-431 | Exploration opens with titles of pairwise different genres the core lacks; every later one is of a genre the core shows. |
| `ExplorationLaws.ExplorationMaximal` | backend/app/recommendation/pipeline.py:408-431 | A slot stays empty only if every eligible title is at its genre cap or repeats a new genre. |
| `ExplorationLaws.RankingUnique` | backend/app/recommendation/pipeline.py:383-451 | The stages determine every pick and every place, so the slate is a function of scores, vectors, genres and settings. |
| `RankingMeaning.CoreFillsItsShare` | backend/app/recommendation/pipeline.py:389-403 | The core and the places set aside for exploration fit the slate; where the core stops short, every candidate of the first max(4 * slate size, 40) is taken or in a genre at its cap. |
| `RankingMeaning.CorePreference` | backend/app/recommendation/pipeline.py:392-403 | The trade-off between score and similarity, stated on the scores and unit rows of the pool: a later core pick is preferred to every candidate of the head that is still open. |
| `RankingMeaning.ExplorationMeaning` | backend/app/recommendation/pipeline.py:389-431 | Exploration shows titles rated 6.8 or better from places slate size to 5 * slate size of the score order, none of the core, at most as many as set aside. |
| `RankingMeaning.ExplorationInOrder` | backend/app/recommendation/pipeline.py:409-431 | Of two such titles of one genre the better placed one is explored first. |
| `RankingMeaning.SweepFirst` | backend/app/recommendation/pipeline.py:440-448 | A backfill round that takes a candidate holds every better placed one, unless the genre of that one is at the cap. |
| `RankingMeaning.BackfillInOrder` | backend/app/recommendation/pipeline.py:436-449 | Within one genre the backfill takes the better placed candidate first, whatever caps it goes through. |
| `RankTitles.PoolMeaning` | backend/app/recommendation/pipeline.py:331-339 | The pool holds distinct, embedded, non-excluded titles and misses no usable id. |
| `RankingMeaning.PoolInOrder` | backend/app/recommendation/pipeline.py:330-338 | The pool lists the first usable title of every id and nothing else, in the order of the input. |
| `RankingMeaning.ScoredMeaning` | backend/app/recommendation/pipeline.py:341-387 | Every pool title enters with its own genre, rating, score and unit row. |
| `RankingMeaning.ScoredOrder` | backend/app/recommendation/pipeline.py:383-383 | The score order descends, and keeps the order of the pool among equal scores. |
| `RankTitles.BuildPool` | backend/app/recommendation/pipeline.py:331-339 | The filtering loop computes the pool. |
| `RankTitles.ExplorePass` | backend/app/recommendation/pipeline.py:420-431 | One pass with its early exit and running counters computes the specified picks. |
| `RankTitles.RunExploration` | backend/app/recommendation/pipeline.py:406-431 | Both passes together compute the exploration stage. |
| `RankTitles.SweepOnce` | backend/app/recommendation/pipeline.py:438-447 | One backfill round with its early exit computes one sweep under the cap. |
| `RankTitles.Backfill` | backend/app/recommendation/pipeline.py:436-449 | The cap-raising loop terminates and computes the fill. |
| `RankTitles.RankPool` | backend/app/recommendation/pipeline.py:383-451 | Core, exploration, backfill and interleave run in sequence satisfy the definition of a ranking. |
| `RankTitles.Rank` | backend/app/recommendation/pipeline.py:299-485 | Distinct non-excluded titles, exactly as many as asked for or available, ordered as a ranking of the pool; nothing for a non-positive size or an empty pool. |
| `Ndcg.PrefixDominance` | backend/app/recommendation/metrics.py:50-72 | Summation by parts: dominating every prefix sum of gains dominates every discounted sum, for any positive non-increasing discount. |
| `Ndcg.TopSum` | backend/app/recommendation/metrics.py:50-72 | No set of p entries gains more than the p largest. |
| `Ndcg.NdcgBounded` | backend/app/recommendation/metrics.py:50-72 | For non-negative gains the metric lies in [0, 1] as soon as no relevant id is repeated among the first k recommendations. |
| `Ndcg.NdcgBoundedIff` | backend/app/recommendation/metrics.py:50-72 | The metric stays within 1 under every discount if and only if the ideal order dominates the recommendations in every prefix sum of gains up to k. |
| `Ndcg.IdealOrderReachesOne` | backend/app/recommendation/metrics.py:50-72 | The gain-sorted order scores exactly 1 whenever the ideal gain is positive. |
| `Ndcg.RepeatsExceedOne` | backend/app/recommendation/metrics.py:50-72 | A repeated relevant id scores above 1 under every discount. |
| `NdcgLaws.SingleRelevantScores` | backend/app/recommendation/metrics.py:57-72 | One relevant id of any positive gain, met first and only at place p < k, scores d(p) / d(0). |
| `NdcgLaws.SingleAbsentScoresZero` | backend/app/recommendation/metrics.py:57-72 | A single relevant id that is not among the first k scores 0. |
| `NdcgLaws.ExchangeRaises` | backend/app/recommendation/metrics.py:57-72 | Exchanging two of the first k so that the larger gain comes first never lowers the metric, and raises it if and only if the discount tells the two places apart. |
| `NdcgLaws.BetterEntryRaises` | backend/app/recommendation/metrics.py:57-72 | Replacing one of the first k by an id of larger gain raises the metric. |
| `NdcgLaws.MoreGainScoresHigher` | backend/app/recommendation/metrics.py:57-72 | Under one relevance the metric orders slates exactly as their discounted gain does. |
| `NdcgLaws.TailIgnored` | backend/app/recommendation/metrics.py:57-72 | What is recommended beyond the first k does not count. |
| `NdcgLaws.GainsMeaning` | backend/app/recommendation/metrics.py:59-64 | Members of a set weigh 1, a mapping is used as it is, and an unknown id gains nothing. |
| `Evaluation.Recommend` | backend/app/recommendation/evaluation.py:106-131 | Recommendations are distinct catalog titles, none of them from the training events. |
| `Evaluation.RecommendsUnique` | backend/app/recommendation/evaluation.py:106-131 | There is exactly one recommendation for a user, so the held-out score is well defined. |
| `Evaluation.EvaluateNdcg` | backend/app/recommendation/evaluation.py:173-218 | The sum of the scores of the recommended slates over users with held-out positives, divided by their number: a proportion, and absent exactly when there is no such user. |
| `Evaluation.SlatesUnique` | backend/app/recommendation/evaluation.py:173-218 | The slates behind that mean are determined, so the mean is. |
| `Evaluation.NothingSeenRecommended` | backend/app/recommendation/evaluation.py:103-131 | The title of no training event is among the recommendations, and each of them is an embedded title of the catalog. |
| `Evaluation.UnseenLeftOut` | backend/app/recommendation/evaluation.py:106-131 | An embedded title without a training event is left out only when the slate is full. |
| `Evaluation.RelevanceMeaning` | backend/app/recommendation/evaluation.py:188-190 | A positive is judged by its grade when grades are known and as one hit otherwise; anything else gains nothing. |
| `Evaluation.JudgedMeaning` | backend/app/recommendation/evaluation.py:186-188 | Every user with held-out positives is judged as often as listed, and nobody else. |
| `TasteSignals.LastClearTimestamps` | backend/app/domain/taste_signals.py:439-449 | The loop finds the latest clear of every title. |
| `TasteSignals.EffectiveTitleSignals` | backend/app/domain/taste_signals.py:488-543 | The loop over the sorted log yields per title the last event of the highest tier strictly after the last clear. |
| `SignalLaws.FoldUnique` | backend/app/domain/taste_signals.py:488-543 | The declarative meaning admits one result. |
| `SignalLaws.OrderIndependent` | backend/app/domain/taste_signals.py:488-543 | With distinct timestamps the result does not depend on the order the events arrive in. |
| `SignalLaws.AppendLater` | backend/app/domain/taste_signals.py:488-543 | A strictly later event changes only its own title: it replaces, keeps or removes that signal. |
| `SignalLaws.DecayShrinks` | backend/app/domain/taste_signals.py:481-485 | Decay keeps the sign of a weight and never increases its magnitude. |
| `SignalMeaning.PolicyOrder` | backend/app/domain/taste_signals.py:111-330 | The order of all taste weights, from rating 4 at 1.55 down to watched and disliked, with zero between views and skips. |
| `SignalMeaning.PolicyAgrees` | backend/app/domain/taste_signals.py:111-372 | A kind moves the taste exactly when its weight is not zero; liked states come with weights of at least 1, disliked ones of at most -0.85; each state has exactly its kinds, and tier, hiding and rating go with how the event was given. |
| `SignalMeaning.SignalStands` | backend/app/domain/taste_signals.py:488-543 | A title has a signal exactly when one of its events carries taste and was not cleared since; it is the signal of one of highest tier, of those the newest, of equally new ones the last in the log. |
| `SignalMeaning.FoldWeight` | backend/app/domain/taste_signals.py:481-543 | Read at a time, a signal weighs its raw weight times the factor of its age in half-lives; one dated ahead of the clock counts as new. |
| `SignalMeaning.HalfLifeHalves` | backend/app/domain/taste_signals.py:481-543 | One half-life later the same log gives the same signals at exactly half their weight. |
| `TitleStatus.TasteService.RecordInteraction` | backend/app/application/taste_service.py:124-172 | One event is appended, one state row updated and, unless told not to, the signals rebuilt from the whole log; an unsupported kind changes nothing. |
| `TitleStatus.RecordKeepsRows` | backend/app/application/taste_service.py:124-172 | After every recorded event each state row equals the fold of its title history. |
| `TitleStatus.RunKeepsRows` | backend/app/application/taste_service.py:124-172 | After every run of requests from an empty log, refused ones included, each state row equals the fold of its title history. |
| `TitleStatus.LogEffective` | backend/app/domain/taste_signals.py:488-543 | On a log with policy weights and increasing times the fold of the log equals the per-title history fold. |
| `TitleStatus.FeedExcludedIsPolicy` | backend/app/domain/taste_signals.py:342-346 | The states hidden from the feed are exactly those of policies marked as excluding. |
| `TitleStatus.ExcludedRowsHaveSignals` | backend/app/application/taste_service.py:124-172 | A title hidden from the feed always carries an effective signal. |
| `TitleStatus.RunExcludedHaveSignals` | backend/app/application/taste_service.py:124-172 | The same after every run with policy weights and increasing times, from an empty log. |
| `TitleStatus.RatingIsEffectiveIff` | backend/app/application/recommendation_service.py:468-499 | A reported rating is the effective event if and only if it is the last event that set a state. |
| `TitleStatus.PlainRatingIsEffective` | backend/app/application/recommendation_service.py:468-499 | Without the like, dislike and watched shortcuts every reported rating is the effective event. |
| `TitleStatus.UndoRestoresIff` | frontend/src/pages/TitleDetailPage.tsx:291-308 | Clear plus the recreated event restores the earlier status if and only if its rating, when present, is of its state. |
| `TitleStatus.PlainUndoRestores` | frontend/src/pages/TitleDetailPage.tsx:113-125 | Without shortcuts undo restores every status, whatever happened in between. |
| `TitleStatus.UndoCanFlipState` | frontend/src/pages/TitleDetailPage.tsx:113-125 | Rating 1 followed by the like shortcut is reported as a liked title rated 1, and undo turns it into a dislike. |
| `UndoSignal.UndoRestoresKindIff` | frontend/src/pages/TitleDetailPage.tsx:291-308 | Undo restores the kind of the effective event if and only if the last state-setting event is an opinion that undo sends back as itself (no watched_* shortcut, and for like and dislike no rating since the last clear), or an intent that follows no opinion since the last clear, or nothing since then carries taste. |
| `UndoSignal.PlainUndoRestoresKindIff` | frontend/src/pages/TitleDetailPage.tsx:291-308 | Without shortcuts undo keeps that kind if and only if the last event is a clear or at least as strong as everything since the last clear. |
| `UndoSignal.UndoLosesRating` | frontend/src/pages/TitleDetailPage.tsx:113-125 | Rating 4, then watchlist, then "not interested" and undo: a rating stands for the title before, the watchlist entry after. |
| `UndoLog.UndoneLearning` | frontend/src/pages/TitleDetailPage.tsx:291-308 | On the log, after any later events: the fold then holds for the title the signal of the event undo sent, weighted by its policy and decayed from its new time, or none if none was sent, and leaves every other title alone. |
| `UndoLog.UndoKindIff` | backend/app/domain/taste_signals.py:488-543 | Read from the folded log, the kind of the signal survives under the condition above and no other. |
| `UndoLog.UndoWeightIff` | backend/app/domain/taste_signals.py:481-485 | The learned weight survives if and only if the decayed weight of what is sent equals that of what was effective; a title without a signal gets none. |
| `UndoLog.UndoWeightUnagedIff` | backend/app/domain/taste_signals.py:481-485 | Where decay does not separate the times, the learned weight survives if and only if the kind does or the like shortcut lies over a rating of 3, which weighs the same. |
| `UndoLog.UndoRefreshes` | backend/app/domain/taste_signals.py:481-485 | While a signal ages, undo that restores its kind makes it strictly stronger than it was. |
| `UndoLog.UndoRestoresLearningIff` | backend/app/domain/taste_signals.py:488-543 | Read at one moment, kind and learned weight both survive if and only if the condition on the kind holds and the signal, if there is one, no longer ages. |
| `UndoLog.UndoRestoresSignalIff` | backend/app/domain/taste_signals.py:488-543 | The whole signal, its time included, survives if and only if nothing carried taste since the last clear; a restored signal is always newer. |
| `UndoLog.EqualStampsLoseSignal` | backend/app/domain/taste_signals.py:452-465 | A recreating event stamped with the time of the clear is hidden by it, and the title has no signal. |
| `UndoLog.AgedRatingRefreshed` | backend/app/domain/taste_signals.py:481-485 | A year-old rating, a mis-tap and undo under a half-life of a year: the rating counts as pow(1) of its weight before and as pow(0) after. |
| `UndoLog.LikeBecomesRating` | frontend/src/pages/TitleDetailPage.tsx:113-125 | Rating 3 under the like shortcut, without decay: the kind changes from like to rating and the weight stays 1. |
| `TitleStatus.PredictionExactIff` | frontend/src/pages/TitleDetailPage.tsx:91-111 | The status the page predicts is the one the server reports, with the exact exceptions. |
| `SlateCache.CommitRaises` | backend/app/application/taste_service.py:174-290 | Every transaction that changes the profile or the exclusions raises the version; none lowers it. |
| `SlateCache.NextKeepsInv` | backend/app/application/recommendation_service.py:150-220 | Every step of every request, writer, invalidation or lost entry keeps each cache entry either superseded or current. |
| `SlateCache.VersionsNeverFall` | backend/app/application/taste_service.py:174-231 | Over any interleaving versions never fall, and an unchanged version means an unchanged profile and exclusions. |
| `SlateCache.HitIsCurrent` | backend/app/application/recommendation_service.py:150-220 | After any interleaving, a hit taken while the version read is current serves the slate ranked from the current profile and exclusions, less its evidence. |
| `SlateCache.FreshIsCurrent` | backend/app/application/recommendation_service.py:150-220 | A freshly ranked slate under the current version shows the same cards as a hit would. |
| `FreshSlates.FreshServesOwnRanking` | backend/app/application/recommendation_service.py:150-220 | Over every run, a freshly ranked answer is the ranking of the profile and the exclusions its request read, at the requested or default size, under the id its ranking drew; it was stored, less its evidence, under the key of the request. |
| `FreshSlates.HitShowsStored` | backend/app/application/recommendation_service.py:160-185 | A hit on that entry shows the same cards less their evidence, as long as their titles are in the catalog. |
| `FreshSlates.MissServesRanking` | backend/app/application/recommendation_service.py:186-220 | A request that misses and runs to its end serves the ranking of its profile and the committed exclusions, and leaves it stored and tracked. |
| `FreshSlates.InvalidateForgets` | backend/app/application/recommendation_service.py:302-315 | Invalidation forgets every tracked slate of the user and nothing else. |
| `FreshSlates.ChangeIsVisible` | backend/app/application/recommendation_service.py:150-220 | After any run, a request that starts once a transaction changed the rows ranks with the new profile and the new exclusions. |
| `FreshSlates.HydrateMeaning` | backend/app/application/recommendation_service.py:160-185 | A stored slate loses exactly the cards whose titles have left the catalog. |
| `SlateCache.StaleEntriesUnreachable` | backend/app/application/recommendation_service.py:302-315 | A request that starts now never looks up an entry of an outdated version. |
| `SlateCache.OvertakenHit` | backend/app/application/recommendation_service.py:150-220 | A request that read the profile before a rating committed looks up an entry ranked from the old profile and the new exclusions. |
| `SlateProvenance.EntrySourceCommitted` | backend/app/application/recommendation_service.py:150-220 | Every cache entry was made from a committed profile that carried the version of its key, and from exclusions committed no earlier than that profile. |
| `SlateProvenance.HitServesSource` | backend/app/application/recommendation_service.py:150-220 | Every hit, under a current or an outdated version, serves exactly the slate ranked from that profile and those exclusions, and the lookup step hands it to the request. |
| `SlateProvenance.VersionFixesProfile` | backend/app/application/recommendation_service.py:150-220 | Along any run the version a request holds determines the profile behind it. |
| `SlateProvenance.HitServesOwnProfile` | backend/app/application/recommendation_service.py:150-220 | So every lookup that hits serves the slate of the very profile the request has read, with exclusions committed no earlier than it. |
| `SlateProvenance.HitCurrentIff` | backend/app/application/recommendation_service.py:150-220 | A hit is current under every ranking function if and only if its entry was made from the profile content and the exclusions committed now, or the catalog is empty. |
| `SlateProvenance.HitCurrentByExclusionsIff` | backend/app/application/recommendation_service.py:150-220 | The same in terms of the request: the content it has read is the committed one, and its entry was ranked with the committed exclusions. |
| `SlateProvenance.OvertakenServed` | backend/app/application/recommendation_service.py:150-220 | In the overtaken run the lookup step serves cards other than the current slate whenever ranking tells the two profiles apart. |
| `TokenFamilies.StepValid` | backend/app/application/auth_service.py:229-435 | Every operation keeps successor links injective, forward, and within one user and family. |
| `TokenFamilies.RunEvolves` | backend/app/application/auth_service.py:251-316 | Over any run no token disappears, changes owner or family, or changes a recorded revocation or successor. |
| `TokenFamilies.ChainAcyclic` | backend/app/application/auth_service.py:263-308 | Rotation chains never revisit a token and stay in one family of one user. |
| `TokenFamilies.RequestConserves` | backend/app/application/auth_service.py:251-316 | Outside a reset of its user, a request changes the live tokens of a family by +1 for a grace sibling, -1 for an effective logout, 0 otherwise. |
| `TokenFamilies.FamilyConservation` | backend/app/application/auth_service.py:229-316 | Over any run without a reset a family opened by a login has 1 + grace siblings - effective logouts live tokens. |
| `TokenFamilies.AtMostOneLive` | backend/app/application/auth_service.py:251-308 | Without a grace window, on a strictly increasing clock, a family never has two live tokens. |
| `TokenFamilies.DeadStaysDead` | backend/app/application/auth_service.py:263-308 | A dead family without a recent rotation stays dead in every later run. |
| `TokenFamilies.DeathPermanentIff` | backend/app/application/auth_service.py:263-308 | A dead family is dead in every later run if and only if none of its tokens was rotated within the grace window. |
| `TokenFamilies.RecentRotationRevives` | backend/app/application/auth_service.py:267-283 | One recently rotated token brings a dead family back with a single refresh. |
| `TokenFamilies.ResetKillsFamilies` | backend/app/application/auth_service.py:395-435 | A password reset kills every family of the user, for good exactly where no rotation is recent. |
| `TokenFamilies.ReuseInSessionAndCommitted` | backend/app/infrastructure/db/session.py:29-42 | Reuse detection revokes the family in its session, and because the request raises, the committed store is left as it was. |
| `SessionLimits.ReuseLeavesFamilyAlive` | backend/app/application/auth_service.py:263-292 | Login, refresh, and the rotated token again after the grace period: reuse is detected, and the committed store keeps the live successor. |
| `SessionLimits.ResetUndoneWithinGrace` | backend/app/application/auth_service.py:263-283 | Login, refresh, password reset, refresh with the rotated token within the grace period: the family is dead after the reset and alive after the refresh. |
| `TokenFamilies.ResetTokenSingleUse` | backend/app/application/auth_service.py:395-435 | A reset link works at most once, in any later run. |
| `TokenFamilies.AtMostOneOpenLink` | backend/app/application/auth_service.py:318-393 | At any time a user has at most one working reset link. |
| `TokenExpiry.LiveRefreshIff` | backend/app/application/auth_service.py:294-308 | A live token is exchanged up to and including its expiry; afterwards it is refused and nothing changes. |
| `TokenExpiry.RevokedRefreshIff` | backend/app/application/auth_service.py:263-292 | A revoked token gets a sibling exactly when it was rotated at most the grace period ago; any other is reported as reused. |
| `TokenExpiry.RunRotatesInTime` | backend/app/application/auth_service.py:251-308 | Over every run from an empty store, no token is ever rotated after its expiry. |
| `TokenExpiry.TokenCreated` | backend/app/application/auth_service.py:229-308 | Over every such run, every token expires the configured time after the request that created it. |
| `TokenExpiry.NothingIssuedAfterExpiry` | backend/app/application/auth_service.py:251-308 | So nothing is issued for a token after its expiry, or after that and the grace period for one already rotated. |
| `TokenExpiry.ExpiredLoginRefused` | backend/app/application/auth_service.py:294-298 | With the default 30 days, the token of a login is exchanged at the last second and refused one second later. |
| `TokenExpiry.ResetWorksIff` | backend/app/application/auth_service.py:395-412 | A reset link works exactly while it is unused, its user exists and the clock is not past its expiry; otherwise nothing changes. |
| `TokenExpiry.LinkCreated` | backend/app/application/auth_service.py:360-368 | Every link expires its configured time after the request that created it. |
| `TokenExpiry.MailedLinkWorks` | backend/app/application/auth_service.py:318-435 | A mailed link works for its user until it expires, and then revokes every token the user holds. |
| `TokenExpiry.LoginMeaning` | backend/app/application/auth_service.py:229-249 | The right password of a known user opens a family nobody uses with one live token; anything else changes nothing. |
| `TokenExpiry.LogoutMeaning` | backend/app/application/auth_service.py:310-316 | Signing out revokes the token presented and no other. |
| `TokenExpiry.AskResetMeaning` | backend/app/application/auth_service.py:347-372 | Asking for a reset leaves exactly the new link of the user unused, other links untouched, and answers an unknown user alike. |
| `TokenExpiry.UnsentLinkForgotten` | backend/app/application/auth_service.py:331-392 | A reset request that is held back or whose mail cannot be sent raises, and nothing of it is committed. |
| `AuthSession.AuthService.IssueTokens` | backend/app/application/auth_service.py:577-594 | Inserts one fresh row, in a new family unless one is given. |
| `AuthSession.AuthService.RevokeFamilyRows` | backend/app/application/auth_service.py:565-575 | Revokes exactly the live rows of one family of one user. |
| `AuthSession.AuthService.SignIn` | backend/app/application/auth_service.py:229-249 | The method on the stored rows is the login step of the machine: a throttled, unknown or mismatching login changes nothing. |
| `AuthSession.AuthService.Refresh` | backend/app/application/auth_service.py:251-308 | The method on the stored rows is the refresh step, with all its branches, and keeps the invariant. |
| `AuthSession.AuthService.SignOut` | backend/app/application/auth_service.py:310-316 | The method on the stored rows is the logout step. |
| `AuthSession.AuthService.RequestPasswordReset` | backend/app/application/auth_service.py:318-393 | Retires the unused links of the user and stores one new link, raising when the mail fails; an unknown address, a throttled request or a missing mail server changes nothing. |
| `AuthSession.AuthService.ResetPassword` | backend/app/application/auth_service.py:395-435 | Spends the link and revokes every live token of its user, or refuses and changes nothing. |
| `StoreSpec.StepValid` | backend/app/infrastructure/cache.py:57-109 | Every operation keeps the store consistent and within max_entries. |
| `StoreRuns.StoreRefinesLatest` | backend/app/infrastructure/cache.py:67-109 | After any run the store is a part of the unbounded map of latest writes. |
| `StoreRuns.GetReturnsLatest` | backend/app/infrastructure/cache.py:67-88 | Get returns the latest write of its key, unexpired, or nothing. |
| `StoreRuns.LruSurvival` | backend/app/infrastructure/cache.py:67-109 | A key just touched stays until at least max_entries distinct other keys have been touched. |
| `StoreRuns.SetThenGet` | backend/app/infrastructure/cache.py:83-88 | A set followed by fewer than max_entries other touches is readable until it expires. |
| `StoreRuns.DropTrackedRemovesAll` | backend/app/infrastructure/cache.py:94-99 | Dropping an index removes every tracked key and the index, and nothing else. |
| `CacheStore.MemoryStore.Live` | backend/app/infrastructure/cache.py:67-75 | An expired entry is deleted, a live one becomes the most recent. |
| `CacheStore.MemoryStore.Evict` | backend/app/infrastructure/cache.py:80-81 | The eviction loop keeps exactly the most recent max_entries keys. |
| `CacheStore.MemoryStore.PutEntry` | backend/app/infrastructure/cache.py:77-81 | Stores as most recent, then evicts. |
| `CacheStore.MemoryStore.Get` | backend/app/infrastructure/cache.py:83-85 | The method is the get step of the specification. |
| `CacheStore.MemoryStore.Set` | backend/app/infrastructure/cache.py:87-88 | The method is the set step, with a lifetime of at least one second. |
| `CacheStore.MemoryStore.Hit` | backend/app/infrastructure/cache.py:101-109 | The method is the hit step, including text that is not a number. |
| `CacheStore.MemoryStore.DropTracked` | backend/app/infrastructure/cache.py:97-99 | The loop over the tracked keys is the drop step. |
| `CacheStore.MemoryStore.DeletePrefix` | backend/app/infrastructure/cache.py:90-92 | Removes exactly the matching keys. |
| `CacheStore.MemoryStore.Close` | backend/app/infrastructure/cache.py:114-116 | Forgets every entry and every tracked set. |
| `RateLimit.Dispatch` | backend/app/core/middleware.py:184-226 | Counts the request and admits it exactly while the count is within the limit; a store without a count refuses auth paths only; a disabled limiter, preflight requests and health probes pass uncounted. |
| `RateLimit.HitCounts` | backend/app/infrastructure/cache.py:101-109 | Absent eviction hit returns the number of hits since the window opened, and a hit never moves the end of its window. |
| `RateLimit.BucketRun` | backend/app/infrastructure/cache.py:101-109 | The same over any run that leaves the bucket undisturbed, whatever other keys do. |
| `RateLimit.AdmittedIff` | backend/app/core/middleware.py:184-226 | In any run that leaves the bucket undisturbed, a request is admitted if and only if fewer than max_requests requests of its window came before it. |
| `RateLimit.RunWindowBound` | backend/app/core/middleware.py:184-226 | Of the requests of any such run at most max_requests are admitted per window. |
| `RateLimit.RunIntervalBound` | backend/app/core/middleware.py:184-226 | Of the requests of any such run at most 2 * max_requests - 1 are admitted in any half-open interval of one window length. |
| `RateLimit.IntervalBoundReached` | backend/app/core/middleware.py:184-226 | A run of four requests, from any consistent store that can hold an entry and has none for the bucket, attains that bound. |
| `RateLimit.FewBucketsUndisturbed` | backend/app/infrastructure/cache.py:67-109 | A run in which nothing but requests uses the bucket and fewer than max_entries other keys are touched leaves it undisturbed: nothing evicts it. |
| `RateLimit.FewBucketsBounds` | backend/app/core/middleware.py:184-226 | So in such runs both bounds hold without any assumption on evictions. |
| `RateLimit.SecondsLeft` | backend/app/infrastructure/cache.py:101-109 | The seconds reported are the whole seconds left of the window, at least one. |
| `RateLimit.NewWindow` | backend/app/infrastructure/cache.py:101-109 | An absent or expired bucket starts over with one request and the whole window. |
| `RateLimit.RetryAdmitted` | backend/app/core/middleware.py:205-226 | A refused client that waits the seconds it was told and one more, and finds its bucket as it left it, is admitted. |
| `RateLimit.FailsClosedIff` | backend/app/core/middleware.py:199-211 | A counter that cannot be read is refused on auth paths and admitted elsewhere, and nothing else is answered as unavailable. |
| `Base64Url.RoundTrip` | backend/app/application/history_cursor.py:29-35 | Decoding unpadded base64url returns the encoded bytes, for every byte string. |
| `Base64Known.AlphabetMeaning` | backend/app/application/history_cursor.py:29-30 | A to Z, a to z, 0 to 9, hyphen and underscore, in that order. |
| `Base64Known.KnownTexts` | backend/app/application/history_cursor.py:29-30 | The published test vectors: "f", "fo", "foo" and "foobar" become Zg, Zm8, Zm9v and Zm9vYmFy. |
| `HistoryCursor.CursorRoundTrip` | backend/app/application/history_cursor.py:43-77 | Decoding an encoded cursor gives its instant and id back. |
| `HistoryCursor.CursorInjective` | backend/app/application/history_cursor.py:43-48 | Different positions have different cursors. |
| `HistoryCursor.AcceptedIsTagged` | backend/app/application/history_cursor.py:51-61 | Every accepted cursor is a body followed by the tag of that body. |
| `HistoryCursor.SwappedTagRefused` | backend/app/application/history_cursor.py:57-61 | A body under the tag of another is refused if and only if the tags differ. |
| `HistoryCursor.UncaughtIff` | backend/app/application/history_cursor.py:51-77 | Every input gives a position or a cursor error, except exactly the signed texts with a non-ASCII character. |
| `HistoryCursor.AccentedCursorUncaught` | backend/app/application/history_cursor.py:51-77 | One such text: an accented letter, the separator and a signature. |
| `HistoryPages.FetchPage` | backend/app/application/recommendation_service.py:604-639 | One extra row decides whether there is a next cursor; the page is the top of what follows the cursor. |
| `HistoryPages.History` | backend/app/application/recommendation_service.py:569-639 | The handler answers exactly the specified page, or refuses a bad cursor. |
| `HistoryPages.CursorLeadsBack` | backend/app/application/recommendation_service.py:569-639 | A next cursor decodes to the position of the last row shown. |
| `HistoryPages.PageSplits` | backend/app/application/recommendation_service.py:604-639 | The cursor of a page separates it exactly from the rest. |
| `HistoryPages.RemainingShrinks` | backend/app/application/recommendation_service.py:569-639 | While rows are re-stamped with newer times, what is left below the cursor strictly decreases. |
| `HistoryPages.NoTitleTwice` | backend/app/application/recommendation_service.py:569-639 | No title appears on two pages of a walk, however often it is re-stamped. |
| `HistoryPages.NoTitleTwiceOnPage` | backend/app/application/recommendation_service.py:604-639 | Within one page a title appears once. |
| `HistoryPages.UntouchedShown` | backend/app/application/recommendation_service.py:569-639 | When a walk ends, every untouched visible row has been shown. |
| `HistoryPages.WalkIsWholeList` | backend/app/application/recommendation_service.py:569-639 | With no writes the pages concatenate to the filtered list in (updated_at, title_id) descending order, for every page size. |
| `HistoryPages.ListedNewestFirst` | backend/app/application/recommendation_service.py:604-620 | Rows are listed newest first, and of equal times the larger title id first. |
| `HistoryPages.PageMeaning` | backend/app/application/recommendation_service.py:587-639 | A page holds at most the rows asked for, never more than 100 and at least one while any remain, all of the allowed states and strictly behind the cursor; a page with a next cursor is full. |
| `HistoryPages.HiddenStates` | backend/app/domain/taste_signals.py:411-421 | The history hides exactly the titles not seen and those whose state was cleared. |
| `HistoryPages.ShownRows` | backend/app/application/recommendation_service.py:620-639 | Rows without a title are dropped, all others shown as often as they are listed. |
| `HistoryWalk.TextsYieldWholeList` | backend/app/application/recommendation_service.py:569-639 | The same when the client follows the cursor texts: calling the handler with each `next` until it is empty yields exactly the filtered list. |
| `HistoryWalk.TextWalkIsWalk` | backend/app/application/recommendation_service.py:569-639 | A walk by cursor texts, with newer stamps written in between, is a walk by positions. |
| `HistoryWalk.TextNoTitleTwice` | backend/app/application/recommendation_service.py:569-639 | Following the cursor texts, no title is shown twice, however often rows are re-stamped. |
| `HistoryWalk.TextUntouchedShown` | backend/app/application/recommendation_service.py:569-639 | When the texts run out, every untouched visible row has been shown. |
| `ConnectionLost.ConnectionIsLost` | backend/app/application/catalog_ingest.py:66-109 | Past its early type checks the worklist loop answers true if and only if an OS error or named driver error is reachable, on any finite, possibly cyclic graph, and it terminates. |
| `ConnectionLost.LinkedDecides` | backend/app/application/catalog_ingest.py:90-109 | An OS error or one of the five named driver errors behind a cause, a context or an orig is a lost connection. |
| `ConnectionLost.PlainGraphIsKept` | backend/app/application/catalog_ingest.py:86-109 | A graph of other errors only, however they are linked, is not. |
| `ConnectionLost.OnlyTheRootIsChecked` | backend/app/application/catalog_ingest.py:86-109 | A pool failure counts as lost by itself, and not as the cause of another error. |
| `CatalogIngest.IngestService.GetOrCreate` | backend/app/application/catalog_ingest.py:320-357 | The row used is visible in the current transaction and of the right table, for a person the very person; the cache stays coherent. |
| `RefLookups.SelectMeaning` | backend/app/application/catalog_ingest.py:320-357 | A row with the TMDb id is used whenever there is one; one with the name only without it, and never for a person; with neither, none. |
| `RefLookups.LookupAgain` | backend/app/application/catalog_ingest.py:320-357 | Looking the same reference up again finds the row the first lookup used or made, and changes nothing more. |
| `CatalogIngest.IngestService.UpsertFromDetail` | backend/app/application/catalog_ingest.py:361-435 | Reports created exactly when the title was missing, and stores it; looks every reference up until the fault, keeps table and name of every row, and adds only rows that are one of the references, complete. |
| `CatalogIngest.IngestService.ResetSession` | backend/app/application/catalog_ingest.py:283-307 | After the rollback nothing cached is invisible. |
| `CatalogIngest.IngestService.WriteBatch` | backend/app/application/catalog_ingest.py:245-281 | Savepoints, counters and the commit compute the specified end of a batch: all of its writes or none, one status per target; whether an error ends the batch is decided by walking its exception graph. |
| `CatalogIngest.IngestService.IngestIds` | backend/app/application/catalog_ingest.py:186-243 | The batch loop with one retry computes the specified outcome and committed titles. |
| `CatalogIngest.TallyCountsEach` | backend/app/application/catalog_ingest.py:245-281 | Each target of a batch is counted once, and exactly the absent and the malformed ones as failed. |
| `CatalogIngest.IngestConserves` | backend/app/application/catalog_ingest.py:186-243 | On a normal return created + updated + failed = requested, retried batches included. |
| `IngestStops.StopReportsFinished` | backend/app/application/catalog_ingest.py:209-243 | A run that a lost connection or a failed commit ends reports exactly the creations and updates of the batches before it, and their titles are stored. |
| `CatalogIngest.GrowthIsCreatedPlusUnacknowledged` | backend/app/application/catalog_ingest.py:209-243 | The catalog grows by the reported creations plus the titles of commits that were applied but never acknowledged. |
| `CatalogIngest.ReportIsGrowthIff` | backend/app/application/catalog_ingest.py:209-243 | The reported creations equal the growth if and only if no unacknowledged commit stored a missing title. |
| `CatalogIngest.LostAcknowledgement` | backend/app/application/catalog_ingest.py:212-230 | One applied but unacknowledged commit: the redone batch reports an update for a title the run itself created. |
| `CatalogIngest.LostCreation` | backend/app/application/catalog_ingest.py:212-230 | The literal run: title 603, a driver error wrapping a connection reset in a cyclic exception graph, one retry; no creation is reported and the catalog has grown by one. |
| `CatalogIngest.NothingIsLost` | backend/app/application/catalog_ingest.py:186-243 | Whatever the faults, every title stored before is still stored. |
| `Vectors.CauchySchwarz` | backend/app/recommendation/embeddings.py:531-535 | The inequality behind every similarity bound. |
| `Vectors.Minkowski` | backend/app/recommendation/embeddings.py:317-333 | The triangle inequality for Euclidean lengths. |
| `Vectors.BlendIsUnit` | backend/app/recommendation/embeddings.py:515-528 | A blend of any vectors and weights has length one. |
| `Vectors.CosineBounded` | backend/app/recommendation/embeddings.py:531-535 | Similarity of normalised vectors is symmetric, lies in [-1, 1] and is 1 for a vector with itself. |
| `VectorLaws.DotConcat` | backend/app/recommendation/embeddings.py:531-535 | The dot product of two concatenations is the sum of the dot products of their parts. |
| `VectorLaws.CosineLinear` | backend/app/recommendation/embeddings.py:531-535 | The similarity follows scaling and addition, and is 0 without a vector or with one of another length. |
| `VectorLaws.UnitRowMeaning` | backend/app/recommendation/pipeline.py:219-228 | A vector of the common length keeps its direction and gets length one; one of another length becomes zero. |
| `FeatureNorms.FeatureFamily` | backend/app/recommendation/embeddings.py:303-309 | The loop finds the longest matching prefix, or the family of the rest. |
| `FeatureNorms.FamilyIgnoresTableOrder` | backend/app/recommendation/embeddings.py:303-309 | The order of the prefix table does not matter. |
| `FeatureNorms.CatalogChannels` | backend/app/recommendation/embeddings.py:143-170 | The prefix table, the targets and the rounding satisfy everything the bounds assume. |
| `FeatureNorms.NormalizeFeatureFamilies` | backend/app/recommendation/embeddings.py:317-333 | The bucket loops write exactly the values still above 0.05 after scaling, rounded to four decimals. |
| `FeatureNorms.RoundKeepsSign` | backend/app/recommendation/embeddings.py:331-332 | What survives the threshold is not rounded away and keeps its sign. |
| `FeatureNorms.ExactFamilyBound` | backend/app/recommendation/embeddings.py:326-328 | Before rounding no family is longer than its target. |
| `FeatureNorms.StoredNormBound` | backend/app/recommendation/embeddings.py:317-333 | After rounding no stored family is longer than its target plus 0.00005 times the root of its number of features. |
| `FeatureNorms.SurvivorsKeepOrder` | backend/app/recommendation/embeddings.py:329-332 | Within a family survivors keep sign and weak order, and none grows by more than the rounding. |
| `FeatureNorms.SmallFamilyOnlyRounded` | backend/app/recommendation/embeddings.py:328-332 | A family within its target is only rounded. |
| `FeatureNorms.NormalizedIgnoresOrder` | backend/app/recommendation/embeddings.py:317-333 | The result does not depend on the order features were met in. |
| `FamilyTargets.ScaleMeaning` | backend/app/recommendation/embeddings.py:326-328 | A family within its target keeps its values; a longer one is scaled by a factor between 0 and 1 whose product with its length is the target. |
| `FamilyTargets.LongFamilyReachesTarget` | backend/app/recommendation/embeddings.py:326-329 | Before rounding an overlong family ends up exactly as long as its target. |
| `FamilyTargets.LongFamilyScaled` | backend/app/recommendation/embeddings.py:326-332 | What is kept of a feature of an overlong family is its value under that factor, to four decimals. |
| `FamilyTargets.TargetsMeaning` | backend/app/recommendation/embeddings.py:158-170 | The target of every family of the table, and 2 for the rest. |
| `FamilyTargets.FamilyOfKey` | backend/app/recommendation/embeddings.py:303-309 | A key falls into the family of a listed prefix if and only if it begins with it, and into the rest without any. |
| `FamilyTargets.RoundMeaning` | backend/app/recommendation/embeddings.py:331-332 | Rounding gives the nearest number of four decimals, halfway between two the even one. |
| `Profile.Accumulate` | backend/app/recommendation/profile.py:72-106 | The nested loops compute, per feature, the signed sum of snapshot value times weight plus the imported value. |
| `Profile.ClampAll` | backend/app/recommendation/profile.py:108-113 | Features at most 0.05 in magnitude are dropped, the rest rounded and clamped to 4.5. |
| `Profile.BuildProfile` | backend/app/recommendation/profile.py:54-118 | The whole construction, most recent signal first, yields the profile its signals define, and its anchors: the strongly liked catalog titles, newest first. |
| `Profile.ProfileIgnoresOrder` | backend/app/recommendation/profile.py:54-118 | The profile is a function of the multiset of signals: no order of signals, features or overlay entries can change it. |
| `Profile.ProfileFamilyBound` | backend/app/recommendation/profile.py:114-118 | Every family of a stored profile is within its target, up to the rounding. |
| `Profile.FeaturesFollowEvidence` | backend/app/recommendation/profile.py:72-118 | Every stored feature has the sign of its evidence and stays within the cap, up to the rounding. |
| `Profile.ProfileSimilarity` | backend/app/recommendation/profile.py:88-117 | The dense vector has length one, so its similarity to any normalised title lies in [-1, 1]. |
| `EvidenceLaws.ListedFeatureMoves` | backend/app/recommendation/profile.py:77-86 | A signal of either sign on a catalog title changes every feature its snapshot lists by exactly the listed number times the weight. |
| `EvidenceLaws.OtherFeaturesStay` | backend/app/recommendation/profile.py:77-86 | Internal keys, keys the snapshot does not list and keys listed without a number are left alone. |
| `EvidenceLaws.UnknownTitleChangesNothing` | backend/app/recommendation/profile.py:74-76 | A signal on a title outside the catalog changes nothing. |
| `EvidenceLaws.OverlayAdds` | backend/app/recommendation/profile.py:105-106 | Imported values are added on top, and without signals they are all there is. |
| `EvidenceLaws.OppositesCancel` | backend/app/recommendation/profile.py:77-86 | A signal and its exact opposite on the same title leave every listed value where it was. |
| `EvidenceLaws.DislikeSubtracts` | backend/app/recommendation/profile.py:77-113 | One negative signal makes a feature listed with a positive number negative, and beyond 0.05 it survives clamping as negative. |
| `EvidenceLaws.DislikedProfile` | backend/app/recommendation/profile.py:54-118 | A profile of one dislike stores no feature in favour of what the title lists. |
| `EvidenceLaws.ClampClose` | backend/app/recommendation/profile.py:108-113 | A value within 4.5 is kept up to the rounding; one beyond it becomes 4.5 with its sign. |
| `EvidenceLaws.VectorIgnores` | backend/app/recommendation/profile.py:88-89 | Negative signals, titles outside the catalog and titles without an embedding leave the dense vector as it was. |
| `EvidenceLaws.VectorTurns` | backend/app/recommendation/profile.py:88-117 | Up to the lengths, a positive signal adds its weight times the embedding of its title to the vector. |
| `EvidenceLaws.LikedTitleIsVector` | backend/app/recommendation/profile.py:88-117 | One liked title with a normalised embedding makes that embedding the vector. |
| `EvidenceLaws.AnchorsMeaning` | backend/app/recommendation/profile.py:91-103 | The anchors are the catalog titles liked, watched and liked, or rated 3 or 4, with a raw weight of at least 0.85. |

## Left out

- `RankTitles.Rank`: the scores are a parameter. Dense similarity, sparse overlap, penalties, gem bonus and popularity
  prior are one function of the pool, and ranking is proved for every such function; reasons and gem labels are omitted.
- `CatalogIngest.IngestService.UpsertFromDetail`: the fields of a title, its join rows and its embedding are omitted; which
  titles are stored, what is reported and which shared rows are used is stated.
- `Profile.BuildProfile`: the ranking and the size cap of the explain memory are omitted; the anchors it is filled from are
  modelled, without their texts.
- `TitleStatus.TasteService.RecordInteraction`: the rebuild is stated up to the signals; what a profile makes of them is in
  `Profile`, and the profile row with its version is in `SlateCache`.
- `AuthSession.AuthService.SignIn`: the throttle and the password check are two booleans; access tokens are omitted.
- `AuthSession.AuthService.RequestPasswordReset`: the throttle, the mail configuration and the mail server are one outcome;
  the token text returned in development is omitted.
- `AuthSession.AuthService.Refresh`: its clauses state the change made in the session; what a request commits is stated by
  the lemmas about `TokenFamilies.Request`.
- `Evaluation.EvaluateNdcg`: the score blend is a function of the training events, not recomputed through the profile.
- `RateLimit.Dispatch`: which paths are auth paths or probes, the limit of each family of paths and the client address are
  parameters.
- Candidate retrieval from the database and the vector index: the candidates are a given list.
- Feature extraction, tone tables, hashing of embeddings: inputs to the model.
- Redis and the fallback store: a foreign service; the in-process store is modelled.
- The values the store keeps are text or the decimal counters `hit` writes; text that happens to be a number is treated as
  text.
- Concurrent read-modify-write of `profile.version` by two writers of one user: outside the serialised-writer assumption.
- `SlateCache` is a state machine on values: its steps are the points at which requests can interleave, and the profile
  content and the exclusions a writer computes are arbitrary.
- A logout that races a rotation without a row lock: requests on token rows are taken one at a time.
- Registration, email verification, account deletion, the throttle counters and password hashing.
- Loading genres before an ingest, credits, countries and embeddings of a title: the batch loop and the row caches are
  modelled, with titles keyed by TMDb id alone, as the code does.
- Precision, recall, hit rate, reciprocal rank, diversity, novelty and coverage: easier bounds of the same kind.
- React state, routing, request plumbing, headers, settings and migrations.
