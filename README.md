# TVMaster VIP site logic, modelled in Dafny

This project models the sequential logic of the TVMaster VIP website, a marketing site for an IPTV service. The site is made of static pages, browser scripts and Python maintenance scripts. The model keeps what those scripts decide and compute, and leaves out how they draw the page or touch the network and the disk.

Browser side (one module per script):

- `ChannelLists` (`assets/js/channel-lists.js`): the channel catalogue. It covers the group selector sanitiser, the initial package, which group files to load (with the 4000-channel guard on the "all" view), the per-package group cache and the in-flight request map, the search matcher and the render context. The page state is the class `CataloguePage`.
- `M3uManager` (`assets/js/m3u-manager.js`): the `#EXTINF` playlist parser (the tag of section 4.3.2.1 of RFC 8216 with the IPTV `tvg-*`/`group-title` attributes), channel ids, the expiring cache (class `Manager`), grouping and search.
- `EpgParser` (`assets/js/epg-parser.js`) and `EpgViewer` (`assets/js/epg.js`): the XMLTV programme guide. The parser covers time slicing, range queries, the programme on air, the cache-age test, categories, the fetch fallback and the sample schedule. The viewer covers channel filtering, batching, "load more", the time window, the timeline and the counters.
- `LiveEvents` (`assets/js/events.js`): the countdown split, team initials, channel chips, the league filter, flattening and the top-events slider.
- `QuizAnalytics` (`assets/js/quiz-analytics.js`): the quiz session, the event log bounded to 500 entries, and the completion, abandonment and conversion records with their summaries.
- `QuizNavigation` (`assets/js/phase1-features.js`): the package-finder quiz's navigation and what it reports to its analytics tracker.
- `Faq` (`assets/js/faq.js`): the FAQ filter.
- `LanguageSwitcher` (`assets/js/language-switcher.js`): the language switcher.

Maintenance scripts (one module per script):

- `LinkChecker` (`check_all_links.js`).
- `TranslationAudit` (`audit_translations.py`).
- `StructuredData` (`scripts/validate-structured-data.py`).
- `ComprehensiveSitemap` (`scripts/generate-comprehensive-sitemap.py`) and `SimpleSitemap` (`scripts/generate-sitemap.py`). Both follow the sitemaps.org Sitemap protocol 0.9 and its 50,000-URL / 50 MB limits.
- `FetchEvents` (`scripts/fetch-events.py`).
- `SeoMetadata` (`scripts/update-seo-metadata.py`).
- `TranslateBlog` (`scripts/translate-blog-article.py`).
- `AccessibilityFixes` (`scripts/apply-accessibility-fixes.py`).
- `ResourceHints` (`scripts/add-resource-hints.py`).
- `ClsImages` (`scripts/fix-cls-images.py`).
- `ImageOptimizer` (`scripts/optimize-images-simple.py`).
- `VideoAltText` (`scripts/add-video-alt-text.py`).
- `NavButtons` (`fix_nav_buttons.py`).
- `ChatbotInjector` (`inject_chatbot.py`) and `ChatbotFix` (`fix_chatbot.py`).
- `AssetPaths` (`fix_asset_paths.py`).
- `LangIndex` (`generate_lang_index.py`).

Shared helper modules:

- `Wrappers`: `Option`.
- `Strings`: ASCII case and trimming, substring search, Python's `str.replace`, split and join, decimal digits, and the no-overlap conditions under which a replacement is idempotent.
- `Sequences`: filters, and a stable insertion sort.
- `Json`: JSON-like values.
- `HtmlTags`: the tag scan `<NAME\s+[^>]*?>` and a substitution callback over it.
- `Patterns`: literal matchers joined by `\s+`, and first or every substitution.
- `PosixPath`: `dirname`, `join` and `.`/`..` resolution.

Operations that change state in place are methods of classes: `CataloguePage`, `Manager`, `EpgStore`, `Viewer`, `LoadMore`, `EventsPage`, `Tracker`, `PackageQuiz`, `LinkReport` and `TranslationAuditor`. The loops of the scripts are methods proved equal to a specification function. Pure logic is functions and lemmas.

Several behaviours of the code are kept as written and proved as such:

- The playlist parser takes the channel name after the first comma, although a comment in the code says "last comma" (`M3uManager.NameAfterFirstComma`).
- `validate_links` still flags every relinked article, because `href="../../` contains `href="../` (`TranslateBlog.RelinkedStillFlagged`). The relinking is also not idempotent (`TranslateBlog.RelinkNotIdempotent`).
- The footer-logo rewrite of `improve_image_alt_text` is discarded when no flag is raised (`AccessibilityFixes.FooterFixDiscarded`). The landmark flag can be raised without any change (`AccessibilityFixes.LandmarkFlagWithoutChange`).
- Resource-hint messages are reported even when no insertion point exists (`ResourceHints.ReportedWithoutInsertion`).
- An above-the-fold image can change a page with no message counted (`ImageOptimizer.ProcessFile`).
- An event dated today is dropped unless the clock reads exactly midnight (`FetchEvents.TodayDropped`).
- The English walk of the comprehensive sitemap also lists the pages of the language directories (`ComprehensiveSitemap.RootWalkSeesLanguagePages`).
- `generate-sitemap.py` writes six lines per `<url>` block: open, `loc`, `lastmod`, `changefreq`, `priority` and close. The sitemap therefore has 3 + 6n lines (`SimpleSitemap.SitemapLayout`).
- The redirect in `autoDetectLanguage` is commented out in the code, so only the code extraction is modelled.
- `is_likely_untranslated` is defined but never called by the audit run. It is modelled on its own.

## Model

| member | source | states |
|---|---|---|
| ChannelLists.JsIntegerOfDigits | assets/js/channel-lists.js:55-56 | `Number()` reads the decimal digits of `n` back as the integer `n`, and they are their own trim |
| ChannelLists.JsIntegerExponent | assets/js/channel-lists.js:55-56 | `Number()` reads the exponent form `NeK` as `N·10^K` |
| ChannelLists.JsIntegerZeroFraction | assets/js/channel-lists.js:55-56 | `Number()` reads `N.` followed by zeros as the integer `N` |
| ChannelLists.JsIntegerRadix | assets/js/channel-lists.js:55-56 | `Number()` reads `0x`, `0o` and `0b` literals (either case) as their value in base 16, 8 and 2 |
| ChannelLists.JsIntegerInfinity | assets/js/channel-lists.js:55-56 | `Infinity`, `-Infinity` and `+Infinity` are not integers |
| ChannelLists.JsIntegerNegative | assets/js/channel-lists.js:55-56 | `Number()` reads `-digits` as the negated number (`-0` is the integer 0) |
| ChannelLists.Sanitise | assets/js/channel-lists.js:50-60 | the result is always "all" or the canonical digits of a non-negative integer |
| ChannelLists.SanitiseKeepsValues | assets/js/channel-lists.js:50-60 | a selector value ("all" or canonical digits) is returned as it is |
| ChannelLists.SanitiseIdempotent | assets/js/channel-lists.js:50-60 | sanitising twice equals sanitising once |
| ChannelLists.SanitiseFallbacks | assets/js/channel-lists.js:51-54 | a missing value, a blank value and any letter case of "all" give "all" |
| ChannelLists.SanitiseNegative | assets/js/channel-lists.js:55-59 | a negative integer gives "all"; "-0" gives "0" |
| ChannelLists.SanitiseLiteral | assets/js/channel-lists.js:50-60 | a literal starting with a digit that reads as a non-negative integer is sanitised to that integer's decimal digits |
| ChannelLists.SanitiseExponent | assets/js/channel-lists.js:50-60 | the exponent form is sanitised to the digits of its value ("1e3" gives "1000") |
| ChannelLists.SanitiseRadix | assets/js/channel-lists.js:50-60 | a hex, octal or binary literal is sanitised to the decimal digits of its value ("0x10" gives "16") |
| ChannelLists.ReplaceKeepsOut | assets/js/channel-lists.js:63-68 | a replacement that does not introduce a character keeps the text free of it |
| ChannelLists.EscapeHtmlClean | assets/js/channel-lists.js:62-69 | the escaped text holds none of `<`, `>`, `"`, `'` |
| ChannelLists.EscapeHtmlPlain | assets/js/channel-lists.js:62-69 | a text without any of the five special characters is returned unchanged |
| ChannelLists.Plural | assets/js/channel-lists.js:71-73 | the suffix is empty exactly for the count 1 and "s" otherwise |
| ChannelLists.DefaultKey | assets/js/channel-lists.js:146-149 | none only without keys; "english" when offered; else the first key |
| ChannelLists.InitialPackage | assets/js/channel-lists.js:151-171 | a known URL package wins, then a known page default, then the default key |
| ChannelLists.InitialPackageKnown | assets/js/channel-lists.js:164-171 | with the package table's keys the choice is always a known package, and null only when there are no packages |
| ChannelLists.Indices | assets/js/channel-lists.js:202 | the index list of n groups is 0..n-1 |
| ChannelLists.IndicesToLoad | assets/js/channel-lists.js:198-218 | the indices are strictly ascending (so duplicate-free) and within the group list |
| ChannelLists.IndicesToLoadCases | assets/js/channel-lists.js:198-218 | "all" with a query loads every group; "all" without one loads every group iff the declared total is a number at most 4000, else none; a group value loads its index iff in range |
| ChannelLists.GroupValueIndex | assets/js/channel-lists.js:213 | a non-"all" selector reads back as the index it spells |
| ChannelLists.Started | assets/js/channel-lists.js:229-249 | a fetch starts only for a listed index that is not cached, has no pending request and names a data file, at most once per index |
| ChannelLists.StartedComplete | assets/js/channel-lists.js:229-249 | every listed index that is uncached, not pending and has a data file gets its fetch |
| ChannelLists.Stored | assets/js/channel-lists.js:261-267 | a loaded group keeps the payload's channel array (else []), its declared total else the channel count, and a non-empty name |
| ChannelLists.SettleCorrect | assets/js/channel-lists.js:255-279 | after the fetches settle, old cache entries stay, exactly the successful loads are added, each with what a successful load stores, and failures leave their index uncached |
| ChannelLists.CountUp | assets/js/channel-lists.js:231-276 | the progress values are 1, 2, …, total |
| ChannelLists.MatcherCases | assets/js/channel-lists.js:288-297 | the empty query accepts everything; otherwise a channel matches iff it exists and its lower-cased name or group contains the query |
| ChannelLists.View | assets/js/channel-lists.js:303-316 | a group view keeps its index, has a non-empty name and shows the cached channels, else none |
| ChannelLists.Views | assets/js/channel-lists.js:303-316 | one view per group meta, in order |
| ChannelLists.ActiveKey | assets/js/channel-lists.js:327-334 | the validated selector is "all" or a selector naming an existing group; "all" stays "all", and a selector naming an existing group is kept |
| ChannelLists.ActiveIndices | assets/js/channel-lists.js:341-344 | the active indices ascend and lie within the group list: all of them for "all", else one |
| ChannelLists.Evaluate | assets/js/channel-lists.js:346-365 | an evaluated group keeps its group's index |
| ChannelLists.EvaluatedGroups | assets/js/channel-lists.js:346-365 | one evaluated group per active index, in order, each its view filtered by the query (or unfiltered without one) |
| ChannelLists.RenderContext | assets/js/channel-lists.js:299-396 | one view per group, the active key is the validated selector, and a query exists iff the trimmed text is non-empty |
| ChannelLists.Render | assets/js/channel-lists.js:299-396 | the context keeps one view per group, the given active key, and has a query iff the query text is non-empty |
| ChannelLists.SumSkipsEmpty | assets/js/channel-lists.js:376-378 | groups without matches add nothing to the match sum |
| ChannelLists.RenderLimit | assets/js/channel-lists.js:336-374 | `shouldLimitAll` holds iff there is no query, the key is "all" and the total exceeds 4000, and then nothing is shown; a query exists iff the trimmed text is non-empty |
| ChannelLists.RenderSearch | assets/js/channel-lists.js:341-382 | with a query the shown groups are exactly the active groups with at least one match, in ascending index order, each holding its group's matching channels in list order; the group count is their number and the match count the sum of their matches |
| ChannelLists.FilterAscending | assets/js/channel-lists.js:368-372 | filtering keeps ascending indices ascending |
| ChannelLists.CataloguePage.constructor | assets/js/channel-lists.js:25-44 | the initial state: the sanitised default group, no package, empty query, empty cache and request maps |
| ChannelLists.CataloguePage.EnsureGroupCache | assets/js/channel-lists.js:184-189 | adds an empty cache for the package only when it has none |
| ChannelLists.CataloguePage.EnsureGroupRequests | assets/js/channel-lists.js:191-196 | adds an empty request map for the package only when it has none |
| ChannelLists.CataloguePage.SetActivePackage | assets/js/channel-lists.js:695-716 | an unknown key changes nothing; a known key becomes current and the group resets to the default unless preserved |
| ChannelLists.CataloguePage.SetActiveGroup | assets/js/channel-lists.js:725-728 | the selector is stored sanitised |
| ChannelLists.CataloguePage.SetSearchQuery | assets/js/channel-lists.js:730-733 | the raw query is stored |
| ChannelLists.CataloguePage.LoadGroups | assets/js/channel-lists.js:220-286 | keeps the page state valid; progress runs 1..total; the package's cache becomes the settled cache of the started fetches and its request map is back to what was pending before |
| ChannelLists.CataloguePage.BuildRenderContext | assets/js/channel-lists.js:299-396 | keeps the page state valid, returns the render context of the old state and writes an invalid selector back as "all" |
| ChannelLists.LoadInto | assets/js/channel-lists.js:220-286 | the three phases of `loadGroups` give the settled cache, restore the request set and report 1..total |
| ChannelLists.StartLoads | assets/js/channel-lists.js:229-283 | the synchronous pass starts exactly the fetches `Started` names, and every index is completed, awaited or started |
| ChannelLists.AwaitPending | assets/js/channel-lists.js:236-240 | each awaited request adds one progress step |
| ChannelLists.SettleLoads | assets/js/channel-lists.js:261-279 | each settled fetch stores its group on success, counts one step and deletes its request |
| QuizAnalytics.FreshSession | assets/js/quiz-analytics.js:48-61 | a new session is not completed or abandoned, is on question 0 of 5, has no answers or times, and carries the chosen variant |
| QuizAnalytics.ChosenVariant | assets/js/quiz-analytics.js:41-46 | a supplied variant is kept; otherwise the drawn one under A/B testing, else "A" |
| QuizAnalytics.Appended | assets/js/quiz-analytics.js:250-255 | the log is capped at 500 entries and ends with the new event, preceded by the newest of the old events (every one of them while there is room) |
| QuizAnalytics.LogBounded | assets/js/quiz-analytics.js:250-255 | a log within 500 entries stays within 500, and below 500 nothing is dropped |
| QuizAnalytics.AnsweredSession | assets/js/quiz-analytics.js:82-93 | the answer is overwritten, the position becomes index + 1, a time is recorded only when a question start time exists, nothing else changes |
| QuizAnalytics.CompletionOf | assets/js/quiz-analytics.js:301-311 | a completion record is not converted, keeps the session's id and variant, and its duration is end minus start |
| QuizAnalytics.AbandonmentOf | assets/js/quiz-analytics.js:324-333 | an abandonment record keeps the session id and abandonment point, with duration end minus start |
| QuizAnalytics.ConversionOf | assets/js/quiz-analytics.js:346-353 | the time to convert is the conversion time minus the end time (an unset end reads as 0) |
| QuizAnalytics.FirstOfSession | assets/js/quiz-analytics.js:357-359 | `find` gives the first completion with the session id, or none when there is none |
| QuizAnalytics.MarkConverted | assets/js/quiz-analytics.js:356-363 | only the first completion of the session is flagged converted; every other completion is unchanged |
| QuizAnalytics.MarkConvertedIdempotent | assets/js/quiz-analytics.js:356-363 | flagging the same session twice equals flagging it once |
| QuizAnalytics.PointCountPositive | assets/js/quiz-analytics.js:416-419 | every abandonment point that occurs has a positive count |
| QuizAnalytics.PointCountAbsent | assets/js/quiz-analytics.js:416-419 | a point that no abandonment reaches has count 0 |
| QuizAnalytics.CompletionsSplit | assets/js/quiz-analytics.js:471-477 | completions counted for A, B and C together never exceed the completions |
| QuizAnalytics.AbandonmentsSplit | assets/js/quiz-analytics.js:480-486 | abandonments counted for A, B and C together never exceed the abandonments |
| QuizAnalytics.StartsBounded | assets/js/quiz-analytics.js:471-486 | the summed starts of A, B and C are at most `totalStarts`; unknown variants are ignored (see also line 376) |
| QuizAnalytics.Busiest | assets/js/quiz-analytics.js:421 | the first entry of the descending sort has a greatest count, and no smaller point has that count |
| QuizAnalytics.FirstMax | assets/js/quiz-analytics.js:441-442 | the first entry with the greatest count |
| QuizAnalytics.TopEntries | assets/js/quiz-analytics.js:441-443 | the report has min(k, n) entries drawn from the counts (a sub-multiset) |
| QuizAnalytics.TopEntriesSorted | assets/js/quiz-analytics.js:441-443 | the report is in non-increasing count order |
| QuizAnalytics.TopEntriesComplete | assets/js/quiz-analytics.js:441-443 | every entry left out of the report counts no more than the last one reported |
| QuizAnalytics.Bump | assets/js/quiz-analytics.js:436-437 | counting one more recommendation keeps names distinct and the name present |
| QuizAnalytics.RecommendationCounts | assets/js/quiz-analytics.js:433-439 | the count list has each name once |
| QuizAnalytics.CountsExact | assets/js/quiz-analytics.js:433-439 | each listed name carries the number of completions recommending it, which is positive |
| QuizAnalytics.NameCountAbsent | assets/js/quiz-analytics.js:435 | a name not in the count list was recommended by no completion with a named recommendation |
| QuizAnalytics.ReportedCountsExact | assets/js/quiz-analytics.js:429-445 | every reported recommendation carries its exact, positive completion count |
| QuizAnalytics.Tracker.constructor | assets/js/quiz-analytics.js:14-24 | tracking is on unless set to false, A/B testing off unless set; the stored session and records are loaded |
| QuizAnalytics.Tracker.TrackEvent | assets/js/quiz-analytics.js:232-261 | nothing when tracking is off; otherwise one event appended to the bounded log |
| QuizAnalytics.Tracker.StartQuiz | assets/js/quiz-analytics.js:40-66 | the session becomes a fresh one with the chosen variant, and "quiz_started" is tracked |
| QuizAnalytics.Tracker.AnswerQuestion | assets/js/quiz-analytics.js:74-104 | nothing without a session; otherwise the answered session and one tracked event |
| QuizAnalytics.Tracker.NavigateBack | assets/js/quiz-analytics.js:110-117 | nothing without a session; otherwise the position and start time move and an event is tracked |
| QuizAnalytics.Tracker.SaveCompletion | assets/js/quiz-analytics.js:296-314 | one completion record appended |
| QuizAnalytics.Tracker.SaveAbandonment | assets/js/quiz-analytics.js:319-336 | one abandonment record appended |
| QuizAnalytics.Tracker.SaveConversion | assets/js/quiz-analytics.js:341-366 | one conversion appended and the session's first completion flagged converted |
| QuizAnalytics.Tracker.CompleteQuiz | assets/js/quiz-analytics.js:123-149 | nothing without a session; otherwise the session is closed with its recommendation, tracked, and one unconverted completion recorded |
| QuizAnalytics.Tracker.AbandonQuiz | assets/js/quiz-analytics.js:156-178 | nothing without a session or after completion; otherwise abandoned with point and reason, tracked, one abandonment recorded |
| QuizAnalytics.Tracker.TrackConversion | assets/js/quiz-analytics.js:185-204 | nothing without a session; otherwise the conversion fields are set, tracked, one conversion recorded and the completion flagged |
| QuizAnalytics.Tracker.CountPoints | assets/js/quiz-analytics.js:415-419 | the point table has exactly the occurring points, each with its count |
| QuizAnalytics.Tracker.MostCommonAbandonmentPoint | assets/js/quiz-analytics.js:411-423 | null iff there are no abandonments; otherwise a point with the maximum frequency (falsy points as 0), the smallest such |
| QuizAnalytics.Tracker.VariantPerformance | assets/js/quiz-analytics.js:451-494 | one record per variant A, B, C with the counts of its completions, abandonments (together the starts) and conversions, a missing variant read as A |
| QuizAnalytics.Tracker.CountCompletions | assets/js/quiz-analytics.js:471-477 | the completions pass adds each completion to its variant's starts and completions |
| QuizAnalytics.Tracker.CountAbandonments | assets/js/quiz-analytics.js:480-486 | the abandonments pass adds each abandonment to its variant's starts and abandonments |
| QuizAnalytics.Tracker.CountConversions | assets/js/quiz-analytics.js:489-494 | the conversions pass adds each conversion to its variant |
| QuizAnalytics.Tracker.TopRecommendations | assets/js/quiz-analytics.js:429-445 | the at most five most recommended names, in non-increasing count order |
| QuizNavigation.PackageQuiz.constructor | assets/js/phase1-features.js:113-260 | first question, no answers, the buttons as the markup has them, the five questions in order and the recommendation table with its global entry; a fresh tracker with tracking on and A/B testing off whose session is started with variant "A" and logged as `quiz_started` |
| QuizNavigation.ButtonsFor | assets/js/phase1-features.js:370-388 | what `showQuestion(i)` writes: the back button hidden iff i is the first question, the next button disabled iff question i is unanswered, and captioned "See Results" iff i is the last question, else "Next" |
| QuizNavigation.PackageQuiz.ShowQuestion | assets/js/phase1-features.js:370-388 | the buttons become those of the shown question |
| QuizNavigation.PackageQuiz.SelectOption | assets/js/phase1-features.js:309-323 | the answer is stored under its question, replacing an earlier one; the tracker's session records it at the current position and `question_answered` is logged, or nothing is tracked without a session; the next button is enabled and nothing else about the buttons changes |
| QuizNavigation.PackageQuiz.PreviousQuestion | assets/js/phase1-features.js:344-351 | one step back, except on the first question; a step back moves the tracked position to the new question, logs `quiz_navigation_back` and shows the new question's buttons; otherwise the buttons are unchanged |
| QuizNavigation.PackageQuiz.NextQuestion | assets/js/phase1-features.js:353-368 | an unanswered question blocks; an answered one steps forward and shows the new question's buttons, or on the last question shows the results and stays with the buttons unchanged; only then is the tracked session completed with the recommended package's name, logged as `quiz_completed` and recorded as one more completion (see lines 412-424) |
| QuizNavigation.PackageQuiz.Restart | assets/js/phase1-features.js:461-476 | back to the first question with no answers; the buttons keep their state, since `renderQuestion` does not touch them |
| QuizNavigation.PackageQuiz.ProgressText | assets/js/phase1-features.js:401 | the progress line starts with "Question " |
| QuizNavigation.PackageQuiz.ProgressNumbers | assets/js/phase1-features.js:401 | the line is "Question k of n" with k the position from one and n the number of questions |
| QuizNavigation.PackageQuiz.GetRecommendation | assets/js/phase1-features.js:405-409 | the entry for the region answer when it is answered and known; otherwise the global entry; always one of the table's entries |
| QuizNavigation.RestartKeepsLastButtons | assets/js/phase1-features.js:461-476 | after a restart from the results view the back button stays shown and the next button stays enabled with "See Results", which is not what `showQuestion(0)` would show on the fresh first question |
| EpgParser.Substring | assets/js/epg-parser.js:141-146 | `substring` takes at most b-a characters, and exactly `s[a..b]` when the text is long enough |
| EpgParser.XmltvDateText | assets/js/epg-parser.js:136-149 | nothing exactly for a missing or empty time attribute |
| EpgParser.XmltvLayout | assets/js/epg-parser.js:140-148 | a full stamp becomes `YYYY-MM-DDTHH:mm:ss`, and dropping the separators gives back its first fourteen characters |
| EpgParser.XmltvOffsetIgnored | assets/js/epg-parser.js:140-148 | the ` +zzzz` zone offset makes no difference |
| EpgParser.ProgrammesForChannelCorrect | assets/js/epg-parser.js:192-198 | the result is sorted by start and holds exactly the programmes of that channel starting in `[from, to)`, each as often as stored |
| EpgParser.CurrentProgrammeCorrect | assets/js/epg-parser.js:203-210 | the result is the first stored programme of the channel with `start <= now < stop`, and none iff no such programme exists |
| EpgParser.IsCacheValid | assets/js/epg-parser.js:215-220 | a valid cache needs caching on and a recorded (non-zero) fetch time |
| EpgParser.CacheAgeInMinutes | assets/js/epg-parser.js:218-219 | the integer test agrees with the age in minutes being below `cacheDuration` |
| EpgParser.CategoryOf | assets/js/epg-parser.js:175-187 | the first category in map order with a keyword in the name gives the lower-cased category; no keyword anywhere gives "entertainment" |
| EpgParser.DetermineCategory | assets/js/epg-parser.js:175-187 | the nested loops with early return compute the category of the lower-cased display name |
| EpgParser.TitleList | assets/js/epg-parser.js:277-286 | every category's title list has five entries |
| EpgParser.SampleTitleFallback | assets/js/epg-parser.js:286-287 | a category without its own list uses the entertainment titles |
| EpgParser.SampleTitleCycle | assets/js/epg-parser.js:287 | titles are picked at `hour mod 5`, so they repeat every five hours (the hour-naming news slot aside) |
| EpgParser.NewsTitleNamesHour | assets/js/epg-parser.js:281-287 | the news title at hours divisible by five is "News at h:00" for that hour |
| EpgParser.SampleDay | assets/js/epg-parser.js:244-262 | a channel's day has one sample programme per hour, in hour order |
| EpgParser.SampleScheduleShape | assets/js/epg-parser.js:243-264 | 24 programmes per channel, programme 24c+h being channel c's hour h |
| EpgParser.SampleDataSize | assets/js/epg-parser.js:229-264 | the fallback guide has 8 channels and 192 programmes, each lasting one hour |
| EpgParser.BuildSampleSchedule | assets/js/epg-parser.js:241-264 | the nested loops build the sample schedule |
| EpgParser.EpgStore.constructor | assets/js/epg-parser.js:7-13 | a new parser has no channels, no programmes and no cache time |
| EpgParser.EpgStore.GetSampleData | assets/js/epg-parser.js:225-271 | the sample channels and their schedule become the guide and are returned |
| EpgParser.EpgStore.FetchEpg | assets/js/epg-parser.js:18-83 | a valid cache is served unchanged; a parsed feed replaces the guide and stamps the time when caching is on; a failure yields the sample guide only when no channel is loaded and is rethrown otherwise |
| EpgViewer.FilterChannels | assets/js/epg.js:464-489 | the filter never adds channels |
| EpgViewer.FilterChannelsMembers | assets/js/epg.js:464-489 | a channel is kept iff it passes the category button ("all" passes all) and, with a query, its lower-cased name contains it or a programme of it starting in the next 24 h has a title or description containing it |
| EpgViewer.SearchHitIff | assets/js/epg.js:473-485 | the search test in terms of the stored programmes of the next 24 hours |
| EpgViewer.UpcomingFromGuide | assets/js/epg.js:478 | the 24-hour range query returns exactly that channel's programmes starting in the window |
| EpgViewer.FilterChannelsAppend | assets/js/epg.js:464-489 | the filter distributes over concatenation, so visible channels keep the guide's order |
| EpgViewer.FilterChannelsNone | assets/js/epg.js:465-473 | "all" with an empty query keeps every channel |
| EpgViewer.RenderPlan | assets/js/epg.js:170-199 | only the empty state iff nothing is filtered; otherwise the first `maxChannelsToRender` rows (all when unset) are drawn and the rest deferred, together the filtered list |
| EpgViewer.BatchSize | assets/js/epg.js:222 | a batch takes 50 channels, or all that remain when fewer |
| EpgViewer.LoadMoreDrains | assets/js/epg.js:217-236 | the deferred channels are exhausted exactly after ceil(n/50) presses |
| EpgViewer.LoadMore.constructor | assets/js/epg.js:185-198 | starts with the rows drawn and the ones held back |
| EpgViewer.LoadMore.Click | assets/js/epg.js:217-236 | one press moves the next batch from the front of the remaining list, in order, to the drawn rows; the button returns iff channels remain |
| EpgViewer.ParseIntReadsNumber | assets/js/epg.js:113 | `parseInt` reads written digits followed by a non-digit back as the number, unless the number is 0 and an `x` follows |
| EpgViewer.ParseIntReadsNegative | assets/js/epg.js:113 | `parseInt` reads a minus sign and digits as the negative number, with the same exception |
| EpgViewer.ParseIntReadsHex | assets/js/epg.js:113 | with no radix, `parseInt` reads `0x` or `0X` and hexadecimal digits as their value in base sixteen |
| EpgViewer.ParseIntReadsNegativeHex | assets/js/epg.js:113 | the same behind a minus sign is the negated value |
| EpgViewer.NegatedHex | assets/js/epg.js:113 | a minus sign before `0x` and hexadecimal digits gives the negated value of those digits |
| EpgViewer.ParseIntBareHexPrefix | assets/js/epg.js:113 | `0x` with no hexadecimal digit after it is NaN, not 0 |
| EpgViewer.MinusNegates | assets/js/epg.js:113 | a minus sign before text starting with a digit negates what `parseInt` reads, and NaN stays NaN |
| EpgViewer.ParseIntNoDigits | assets/js/epg.js:113 | a text without digits is NaN |
| EpgViewer.WindowBounds | assets/js/epg.js:162-167 | the window starts on a whole hour, no later than the shifted now and less than an hour before it |
| EpgViewer.ClockLabel | assets/js/epg.js:270-272 | a clock label is five characters with a colon in the middle (see also lines 390-391) |
| EpgViewer.ClockTextReadsBack | assets/js/epg.js:270-272 | the two zero-padded parts read back as the hour and the minute (see also lines 390-391) |
| EpgViewer.ClockLabelReadsBack | assets/js/epg.js:390-391 | a time's label reads back as its hour of the day and minute of the hour |
| EpgViewer.FormatProgrammeTime | assets/js/epg.js:386-394 | the text is "HH:MM - HH:MM" of start and stop, 13 characters |
| EpgViewer.Slot.Text | assets/js/epg.js:270-272 | a header cell's text is `HH:MM` |
| EpgViewer.TimelineCells | assets/js/epg.js:260-266 | one cell per half-hour step before the end, cell k at start + k·30 min, marked current iff it holds now |
| EpgViewer.TimelineSlots | assets/js/epg.js:256-276 | the header loop builds the timeline cells |
| EpgViewer.TimelineStep | assets/js/epg.js:260 | one turn of the loop adds the cell for the current time |
| EpgViewer.SlotCountSteps | assets/js/epg.js:166-167 | a window of n half-hour steps has n cells (a six-hour window has twelve) (see also line 260) |
| EpgViewer.SlotCountCovers | assets/js/epg.js:260 | every step before the end gets a cell |
| EpgViewer.OneCurrentSlot | assets/js/epg.js:265-267 | at most one cell is current, and exactly one when now lies in the window |
| EpgViewer.StatsDisjoint | assets/js/epg.js:503-513 | no programme is both live and upcoming, so the two counts sum to at most the guide's size |
| EpgViewer.StatsMembers | assets/js/epg.js:505-512 | live iff `start <= now < stop`; upcoming iff `now < start < now + 1h` |
| EpgViewer.Viewer.constructor | assets/js/epg.js:7-14 | category "all", empty query, offset 0 |
| EpgViewer.Viewer.Search | assets/js/epg.js:61-69 | the query is stored lower-cased and the clear button shows iff it is non-empty |
| EpgViewer.Viewer.ClearSearch | assets/js/epg.js:71-76 | the query becomes empty |
| EpgViewer.Viewer.SelectCategory | assets/js/epg.js:80-89 | the pressed button's category becomes current |
| EpgViewer.Viewer.ShiftTime | assets/js/epg.js:93-101 | previous subtracts one hour, next adds one; NaN stays NaN |
| EpgViewer.Viewer.TimeJump | assets/js/epg.js:103-117 | "now" is 0, "primetime" is max(0, 20 - hour), anything else `parseInt` |
| EpgViewer.Viewer.RenderEpg | assets/js/epg.js:157-203 | the render decision is the split of the filtered channels |
| LiveEvents.FormatDuration | assets/js/events.js:111-126 | a passed kick-off shows four "00" fields; otherwise hours, minutes and seconds have two characters and days at least two |
| LiveEvents.DurationSplit | assets/js/events.js:115-119 | the day/hour/minute/second split adds back up to the whole seconds, with each part below its unit |
| LiveEvents.FormatDurationReadsBack | assets/js/events.js:111-126 | the four padded fields are digits that read back as the whole seconds left, hours below 24, minutes and seconds below 60 |
| LiveEvents.Initials | assets/js/events.js:38-46 | a badge without an image shows at most three characters, none lower-case, and "?" without a name |
| LiveEvents.HeadsOfWords | assets/js/events.js:41-43 | of non-empty words, the first characters are taken one per word |
| LiveEvents.InitialsOfWords | assets/js/events.js:38-46 | a name of words separated by single spaces shows the upper-cased first letters of its first three words |
| LiveEvents.BlankNameNoInitials | assets/js/events.js:38-46 | a name of only spaces shows nothing (every part is empty and `part[0]` is undefined) |
| LiveEvents.Chips | assets/js/events.js:71-97 | no stations gives one "Channel list tbc" chip; otherwise the first six stations in order, plus one chip when more are left |
| LiveEvents.MoreChipCounts | assets/js/events.js:90-95 | the "+k more" chip appears iff more than six stations exist, and k plus six is the station count |
| LiveEvents.FilteredLeagues | assets/js/events.js:388-391 | "all" shows every league; no filter adds leagues |
| LiveEvents.FilteredLeaguesMembers | assets/js/events.js:390 | under another slug, a league is shown iff it is loaded and has that slug |
| LiveEvents.FilteredLeaguesAppend | assets/js/events.js:390 | the filter works piecewise, so shown leagues keep their order |
| LiveEvents.FlattenLength | assets/js/events.js:466-474 | the flattened list has one entry per event of every league |
| LiveEvents.FlattenAppend | assets/js/events.js:466-474 | flattening works piecewise, so leagues keep their order |
| LiveEvents.FlattenOne | assets/js/events.js:467-472 | one league's events are copied in order, each tagged with that league's label and sport; a missing list counts as empty |
| LiveEvents.LoadedLeagues | assets/js/events.js:510-511 | every kept league has events |
| LiveEvents.LoadedLeaguesMembers | assets/js/events.js:510-511 | a league is kept iff it has events, and kept leagues keep their order |
| LiveEvents.TopEvents | assets/js/events.js:519-525 | the slider holds at most eight events |
| LiveEvents.TopEventsCorrect | assets/js/events.js:519-525 | the slider holds min(8, events with a start) events, each with a start time, sorted by start, all drawn from the flattened list |
| LiveEvents.TopEventsSoonest | assets/js/events.js:519-525 | the slider and the events left out together are exactly the events with a start, and none left out starts before the last one shown |
| LiveEvents.EventsPage.constructor | assets/js/events.js:5-10 | no leagues, no slider events, filter "all" |
| LiveEvents.EventsPage.LoadEvents | assets/js/events.js:502-535 | a failed fetch shows the error and changes nothing; otherwise the leagues with events are stored, and the empty state (slider unchanged) or the fixtures with the eight soonest events are shown |
| LiveEvents.EventsPage.SelectFilter | assets/js/events.js:441-461 | the pressed button's slug, or "all", becomes active |
| LiveEvents.LoadedLeaguesShown | assets/js/events.js:434-461 | with leagues loaded, "all" and every league's own button never show the empty state (see also lines 393-399) |
| M3uManager.Attribute | assets/js/m3u-manager.js:151-154 | an attribute value read with `key="…"` holds no quote, and a line without `key="` has no value |
| M3uManager.AttributeReads | assets/js/m3u-manager.js:151-154 | the value written as `key="v"` is read back when no earlier `key="` precedes it |
| M3uManager.NoQuoteNoAttribute | assets/js/m3u-manager.js:151-154 | a line without quotes yields none of the four attributes |
| M3uManager.NameMatch | assets/js/m3u-manager.js:157 | the matched name is non-empty, holds no line break, and is the tail of the line right after a comma |
| M3uManager.NameAfterFirstComma | assets/js/m3u-manager.js:156-157 | the name is everything after the first comma, commas inside the name included (not the last comma the comment promises) |
| M3uManager.ParseExtinf | assets/js/m3u-manager.js:140-166 | duration stays -1, attribute fields hold no quote, the group is the default or a quote-free value, and the name is trimmed |
| M3uManager.ChannelName | assets/js/m3u-manager.js:157-163 | the channel name is the trimmed match, or the default name |
| M3uManager.ExtinfDefaults | assets/js/m3u-manager.js:141-148 | a line with no quotes and no comma keeps every default field |
| M3uManager.ExtinfName | assets/js/m3u-manager.js:157-163 | the text after the first comma is stored trimmed as the name |
| M3uManager.Slug | assets/js/m3u-manager.js:178 | the slug has the name's length, holds only `[a-z0-9-]`, and keeps every lower-cased alphanumeric character in place |
| M3uManager.SlugIdempotent | assets/js/m3u-manager.js:178 | slugging a slug changes nothing |
| M3uManager.SlugIgnoresCase | assets/js/m3u-manager.js:178 | names differing only in letter case get the same id |
| M3uManager.ChannelId | assets/js/m3u-manager.js:173-179 | a non-empty `tvgId` is the id; otherwise the id is the name's slug, of the same length |
| M3uManager.Lines | assets/js/m3u-manager.js:107 | every kept line is non-empty and trimmed at both ends |
| M3uManager.ParseM3u | assets/js/m3u-manager.js:104-133 | the loop with `currentChannel` returns exactly the channels of the line scan |
| M3uManager.ScanStep | assets/js/m3u-manager.js:111-129 | one more line is one more step of the loop |
| M3uManager.ScanBound | assets/js/m3u-manager.js:119-127 | emitted channels plus the pending entry never exceed the `#EXTINF` lines read |
| M3uManager.ParseBound | assets/js/m3u-manager.js:107-133 | a playlist yields at most one channel per `#EXTINF` line |
| M3uManager.ScanChannels | assets/js/m3u-manager.js:122-126 | every channel has a stream URL taken from the file and the id `generateChannelId` gives it |
| M3uManager.ScanExtends | assets/js/m3u-manager.js:111-129 | channels come out in file order: reading more lines only appends |
| M3uManager.OrphanUrlIgnored | assets/js/m3u-manager.js:122 | a URL line with no pending `#EXTINF` is ignored |
| M3uManager.PairEmits | assets/js/m3u-manager.js:119-127 | an `#EXTINF` line followed by a stream URL appends exactly that channel and clears the pending entry |
| M3uManager.CacheKeyInjective | assets/js/m3u-manager.js:187-214 | distinct packages have distinct `m3u_<pkg>` keys |
| M3uManager.Lookup | assets/js/m3u-manager.js:186-206 | a lookup hits iff the key is present and its age does not exceed the expiry |
| M3uManager.AfterLookup | assets/js/m3u-manager.js:197-200 | a lookup only ever deletes entries, never changes one |
| M3uManager.Cleared | assets/js/m3u-manager.js:260-270 | clearing only removes entries |
| M3uManager.SaveThenLookup | assets/js/m3u-manager.js:186-221 | a saved list is found again while its age is at most the expiry (age equal to expiry still hits), and not after |
| M3uManager.SaveKeepsOthers | assets/js/m3u-manager.js:213-218 | saving one package leaves every other package's lookup unchanged |
| M3uManager.ExpiredRemoved | assets/js/m3u-manager.js:197-201 | an expired entry gives null and is deleted |
| M3uManager.ClearedEntries | assets/js/m3u-manager.js:260-268 | clearing a package removes exactly its `m3u_<pkg>` entry; clearing without a name empties the cache |
| M3uManager.Manager.constructor | assets/js/m3u-manager.js:13-21 | the expiry defaults to 24 h when unset or 0, caching is on unless set to false, the cache starts as stored |
| M3uManager.Manager.GetFromCache | assets/js/m3u-manager.js:186-206 | returns the lookup result and leaves the cache as the lookup leaves it |
| M3uManager.Manager.SaveToCache | assets/js/m3u-manager.js:213-221 | stores the channels with the current time under the package key |
| M3uManager.Manager.ClearCache | assets/js/m3u-manager.js:260-270 | the cache becomes the cleared cache |
| M3uManager.Manager.GetChannels | assets/js/m3u-manager.js:43-73 | an unknown lower-cased name throws with the cache untouched; a live cache entry answers unless refresh is forced or caching is off; otherwise the fetched playlist is parsed and, with caching on, saved |
| M3uManager.Manager.GetCacheStats | assets/js/m3u-manager.js:323-352 | given the cache's keys each listed once, as `Object.keys` lists them, the `forEach` loop gives the statistics of those keys, whose meaning `StatsCorrect` states |
| M3uManager.GroupByCategory | assets/js/m3u-manager.js:279-289 | the bucketing loop gives the grouping function's result |
| M3uManager.GroupedIsFilter | assets/js/m3u-manager.js:281-287 | a bucket exists exactly for each occurring category and holds that category's channels in list order |
| M3uManager.OneBucket | assets/js/m3u-manager.js:281-287 | each channel lands in its own category's bucket and in no other |
| M3uManager.SearchMembers | assets/js/m3u-manager.js:308-317 | a channel is found iff its name, `tvgName` or `groupTitle` contains the query, ignoring case |
| M3uManager.SearchIgnoresCase | assets/js/m3u-manager.js:310 | the query's letter case does not matter |
| M3uManager.EmptySearchKeepsAll | assets/js/m3u-manager.js:312-316 | an empty query finds every channel, in order |
| M3uManager.SearchAppend | assets/js/m3u-manager.js:312-316 | search is an order-preserving filter: it distributes over concatenation |
| M3uManager.RoundMinutes | assets/js/m3u-manager.js:342 | the rounded age is within half a minute of the exact age |
| M3uManager.StatsOverKeys | assets/js/m3u-manager.js:332-350 | after any prefix of the key order: one row per `m3u_` key so far, the count equals the rows, and oldest/newest are the least and greatest of those timestamps, unset only when no key counted |
| M3uManager.StatsCorrect | assets/js/m3u-manager.js:323-352 | over the whole cache: the count is the number of `m3u_` keys in the cache with one row each, and oldest/newest are the least and greatest timestamps of those entries, unset only when the cache has no `m3u_` key |
| LinkChecker.Tagged | check_all_links.js:108-110 | each captured URL becomes one link of the pattern's kind, in order |
| LinkChecker.CountKindConcat | check_all_links.js:102-139 | links of a kind count piecewise over concatenation |
| LinkChecker.ExtractedCounts | check_all_links.js:102-139 | every anchor, stylesheet (both attribute orders) and script is kept; of the images at most the first 20 |
| LinkChecker.KindCount | check_all_links.js:102-139 | the number of links of each kind, per pattern |
| LinkChecker.ExtractLinks | check_all_links.js:102-139 | the five `exec` loops emit the extracted links in pattern order |
| LinkChecker.AppendImages | check_all_links.js:131-136 | the image loop appends the first min(20, n) images in order |
| LinkChecker.AppendAll | check_all_links.js:106-128 | an uncapped loop appends every captured URL with its kind |
| LinkChecker.CutLink | check_all_links.js:151 | the cut link is a prefix of the link without '?' or '#' |
| LinkChecker.NormalizeLink | check_all_links.js:141-164 | no path iff the link is external/anchor/mail/phone/script/data or empty once cut; otherwise the cut link joined to the page's directory and normalized |
| LinkChecker.NormalizedLinkStable | check_all_links.js:158-161 | a resolved path is already normal |
| LinkChecker.QueryIgnored | check_all_links.js:151 | a query string does not change where a link leads |
| LinkChecker.ParentLinkResolves | check_all_links.js:155-161 | from a page in a language directory, "../x" resolves to the top-level "x" |
| LinkChecker.BrokenIn | check_all_links.js:186-205 | every broken-link record names the page and a resolved path that does not exist |
| LinkChecker.NoBrokenIff | check_all_links.js:186-212 | a page has no broken link iff every link is skipped or resolves to an existing path |
| LinkChecker.BrokenWitness | check_all_links.js:186-205 | a recorded broken link comes from a link that is neither skipped nor resolves to an existing path |
| LinkChecker.ExitCode | check_all_links.js:294-301 | the exit status is 0 or 1 |
| LinkChecker.ExitZeroIff | check_all_links.js:294-301 | the run exits 0 iff every listed page exists and none has a broken link (unreadable pages only warn) (see also lines 232-234) |
| LinkChecker.PagesCounted | check_all_links.js:166-225 | pages counted are the readable ones; every extracted link is counted, skipped ones included; each missing page is recorded once |
| LinkChecker.LinkReport.constructor | check_all_links.js:93-100 | all counts zero and all lists empty |
| LinkChecker.LinkReport.CheckFile | check_all_links.js:166-225 | the results after one page: missing recorded, unreadable warned, otherwise links counted, broken ones recorded, success listed when none broke; true iff the page was read |
| LinkChecker.LinkReport.CountBroken | check_all_links.js:186-205 | the link pass counts every link, appends the broken ones in order and returns how many broke |
| LinkChecker.LinkReport.CheckAll | check_all_links.js:232-234 | checking the pages in turn gives the folded results |
| LinkChecker.LinkReport.Exit | check_all_links.js:294-301 | the status is that of the results |
| Faq.NormalizedLower | assets/js/faq.js:9 | the normalised search term has no upper-case letter |
| Faq.TrimWithin | assets/js/faq.js:9 | the trimmed term is a slice of the lower-cased input |
| Faq.UpdateVisibility | assets/js/faq.js:11-34 | every item is shown iff it matches the normalised term and closed when hidden; a section is shown iff one of its items is; the empty note is hidden iff something matched or the term is empty |
| Faq.RefreshItems | assets/js/faq.js:15-24 | every item is refreshed in place and the flag says whether any matched |
| Faq.ShownSections | assets/js/faq.js:26-29 | one flag per section, set iff one of its items is displayed |
| Faq.ClearedShowsAll | assets/js/faq.js:18-22 | an empty term shows every item and leaves its open state alone |
| Faq.EmptyStateShown | assets/js/faq.js:31-33 | the empty note shows iff the term is non-empty and no item matches |
| Faq.UpperCaseNeverMatches | assets/js/faq.js:16-18 | item texts are not lower-cased: an all-upper-case item never matches a non-empty term |
| Faq.Start | assets/js/faq.js:1-38 | without a search box or without items nothing runs and the items stay as they are; otherwise the items, the section flags and the empty-state flag are those of one `updateVisibility` pass on the box's text |
| LanguageSwitcher.DetectedCode | assets/js/language-switcher.js:58-76 | the code is "en" or that of a table fragment the path contains; "en" when none is contained; never a fragment later than the first contained one |
| LanguageSwitcher.DetectLanguage | assets/js/language-switcher.js:58-76 | the scanning loop with its early `break` settles on the code of the first contained fragment, in table order |
| LanguageSwitcher.DetectAt | assets/js/language-switcher.js:71-76 | one step of the scan: entry i's code when the path contains its fragment, otherwise the scan of the rest |
| LanguageSwitcher.LangMapIsDirectoryTable | assets/js/language-switcher.js:61-69 | every fragment of the table is "/xx/" naming its own code |
| LanguageSwitcher.DirectoryFragment | assets/js/language-switcher.js:72 | inside "/xx/page" with a slash-free page, "/yy/" is found iff yy is xx |
| LanguageSwitcher.LanguageDirectorySelected | assets/js/language-switcher.js:58-76 | a page under a listed language directory selects that language |
| LanguageSwitcher.ActiveLink | assets/js/language-switcher.js:79-82 | the active link is the first dropdown link with the detected code; none iff no link has it |
| LanguageSwitcher.NameOf | assets/js/language-switcher.js:85-94 | a name exists iff the table has an entry for the code, and it is that entry's name |
| LanguageSwitcher.ButtonLabel | assets/js/language-switcher.js:96-100 | the button is rewritten iff the code has a non-empty name |
| LanguageSwitcher.LabelShowsCode | assets/js/language-switcher.js:99 | a "flag CODE" name gives the globe, a space and CODE |
| LanguageSwitcher.LanguagePreference | assets/js/language-switcher.js:113-119 | the preference is never empty, and anything but "en" is the stored value of a working storage |
| LanguageSwitcher.BrowserLangCode | assets/js/language-switcher.js:123-124 | the code is the browser language up to its first '-' |
| LanguageSwitcher.RegionDropped | assets/js/language-switcher.js:124 | "xx-YY" gives "xx" |
| TranslationAudit.AllKeys | audit_translations.py:31-40 | a value that is not an object has no keys |
| TranslationAudit.ObjectKeys | audit_translations.py:31-40 | the paths of an object are exactly, for each key it has, that key's own path and the paths inside the value a lookup of the key finds; a member overridden by a later one of the same name contributes nothing, as `json.load` keeps the last |
| TranslationAudit.GetNestedValue | audit_translations.py:42-51 | the loop descends segment by segment and gives the nested value, or none when a segment is missing or a value on the way is not an object |
| TranslationAudit.FullKeyDotted | audit_translations.py:36 | the prefixed key of a dotted path is the path one segment longer |
| TranslationAudit.ListedResolves | audit_translations.py:31-51 | a key listed below a path is that path extended by plain segments that resolve |
| TranslationAudit.ListedKeysResolve | audit_translations.py:31-51 | with plain keys, every dotted path `get_all_keys` lists resolves through `get_nested_value` |
| TranslationAudit.CheckStructure | audit_translations.py:53-63 | missing and extra keys are disjoint, and both are empty iff the two key sets are equal |
| TranslationAudit.CheckStructureMembers | audit_translations.py:60-61 | a key is missing iff the reference has it and the language lacks it; extra the other way round |
| TranslationAudit.IsLikelyUntranslated | audit_translations.py:65-97 | non-strings, empty texts and texts a skip pattern matches are never flagged; otherwise a text is flagged iff a lower-cased indicator phrase occurs in it and the language is not English |
| TranslationAudit.AtStartSkipped | audit_translations.py:73-83 | a text starting with '@' is never flagged |
| TranslationAudit.SkipAnchored | audit_translations.py:71-95 | a text starting with a lower-case letter other than 'h' escapes every skip pattern and is flagged iff it holds an indicator |
| TranslationAudit.Truncated | audit_translations.py:123 | a value of at most 100 characters is kept; a longer one is cut to 100 and "..." added |
| TranslationAudit.KeyTranslationFindings | audit_translations.py:104-124 | at most one finding per key, only for strings on both sides; an empty finding iff the language's string is blank |
| TranslationAudit.TranslationFindings | audit_translations.py:99-124 | at most one finding per reference key |
| TranslationAudit.IdenticalFlagged | audit_translations.py:117-124 | an identical, non-blank value under a non-exempt key of another language is flagged with its truncated value |
| TranslationAudit.ReferenceNeverIdentical | audit_translations.py:117-118 | English is never flagged as identical to itself |
| TranslationAudit.FindLiteral | audit_translations.py:132 | a literal pattern is found once per non-overlapping occurrence |
| TranslationAudit.FindPercentLetter | audit_translations.py:132 | every `%[a-z]` match is a percent sign and a lower-case letter |
| TranslationAudit.FindBraced | audit_translations.py:133-134 | every braced match starts with its opener and ends with '}' |
| TranslationAudit.FindTags | audit_translations.py:168 | every tag match starts with '<', ends with '>' and holds at least one character |
| TranslationAudit.PatternMismatches | audit_translations.py:144-153 | at most one mismatch per pattern, each with non-empty expected matches that differ from those found |
| TranslationAudit.NoPlaceholdersNoMismatch | audit_translations.py:148 | a reference text without placeholders yields no mismatch |
| TranslationAudit.PlaceholderMismatches | audit_translations.py:126-153 | every mismatch names a reference key and has expected placeholders |
| Strings.SortStrings | audit_translations.py:168-169 | `sorted` on strings yields the same tags, each as often, in ascending code-point order |
| Strings.SortedUnique | audit_translations.py:168-171 | two sorted lists holding the same strings are equal, so comparing sorted lists compares the tags as multisets |
| Strings.SortedEqualIff | audit_translations.py:168-171 | the sorted copies of two tag lists are equal iff the lists hold the same tags |
| TranslationAudit.KeyTagMismatch | audit_translations.py:160-176 | a key has a tag mismatch iff both values are strings, the reference has tags, and the tags differ as multisets (which is when the sorted lists differ); the mismatch names the key and records both tag lists sorted, with exactly the tags found |
| TranslationAudit.ReorderedTagsAccepted | audit_translations.py:168-171 | the same tags in another order are not a mismatch |
| TranslationAudit.TagMismatches | audit_translations.py:155-176 | at most one mismatch per key |
| TranslationAudit.KeySpecialFindings | audit_translations.py:187-198 | a control-character finding iff the string holds a character below U+0020; a separator finding iff it holds U+2028 or U+2029 |
| TranslationAudit.SpecialFindings | audit_translations.py:178-198 | at most two findings per key of the language |
| TranslationAudit.LangStats | audit_translations.py:227-234 | the issue count is the lists' lengths summed, and the language has issues iff that count is positive |
| TranslationAudit.IssuesIn | audit_translations.py:17 | a language not yet in the issue table reads as having no issues |
| TranslationAudit.CleanLanguage | audit_translations.py:200-234 | a language with the reference's keys and no finding in any check has no issue |
| TranslationAudit.MissingKeyCounts | audit_translations.py:206-228 | a key the language lacks makes its audit report an issue |
| TranslationAudit.TranslationAuditor.constructor | audit_translations.py:13-18 | the languages with no issues and no statistics |
| TranslationAudit.TranslationAuditor.AuditLanguage | audit_translations.py:200-234 | nothing for English; otherwise the language's issues become the audited ones and its statistics are written |
| TranslationAudit.TranslationAuditor.RunChecks | audit_translations.py:206-234 | the checks append to the language's issues and then the statistics are written |
| TranslationAudit.TranslationAuditor.CodesBeforeListed | audit_translations.py:248-251 | the codes audited so far are the non-English codes among the first i languages |
| TranslationAudit.TranslationAuditor.CodesListed | audit_translations.py:248-251 | the codes audited are every listed language except English |
| TranslationAudit.TranslationAuditor.AuditAt | audit_translations.py:248-251 | one round: English passes untouched; another language raises (changing nothing) iff its entry is not an object with a `name` or the reference is missing; otherwise its issues become its audit and its statistics those of the new issues, nothing else changes |
| TranslationAudit.TranslationAuditor.RunAudit | audit_translations.py:236-253 | the run gets through iff every language other than English has a `name` and, if there is one, English exists; then every listed language other than English holds its audit and the statistics of it, and no other statistics change |
| TranslationAudit.TranslationAuditor.PlanAudits | audit_translations.py:248-251 | each listed language's planned issues are its audit from the issues it started with |
| TranslationAudit.TranslationAuditor.ProgressStep | audit_translations.py:248-251 | a passing round extends what the loop has done by its own language, leaving earlier languages alone (the codes are distinct) |
| TranslationAudit.TranslationAuditor.ProgressDone | audit_translations.py:248-251 | after the loop the statistics cover exactly the old ones and every listed language other than English |
| StructuredData.PyIn | scripts/validate-structured-data.py:74-130 | on an object `in` tests its keys; it raises exactly on values that are not objects, lists or strings |
| StructuredData.Requirements | scripts/validate-structured-data.py:87-88 | a type has requirements iff the table lists it, and they are the table's list |
| StructuredData.MissingProperties | scripts/validate-structured-data.py:89-91 | each issue names a required property absent from the block, at most one per requirement |
| StructuredData.MissingPropertyReported | scripts/validate-structured-data.py:89-91 | every absent required property is reported |
| StructuredData.ArticleIssues | scripts/validate-structured-data.py:94-107 | an author issue iff an author exists that is not a typed object; a publisher issue iff a publisher is not an object; a logo issue iff the publisher's logo is not a typed object |
| StructuredData.BreadcrumbItemIssues | scripts/validate-structured-data.py:115-119 | the check raises iff an item does not support `in`; otherwise at most two issues per item |
| StructuredData.BreadcrumbStep | scripts/validate-structured-data.py:115-119 | a passing check lists the first item's missing fields, then the rest's |
| StructuredData.BreadcrumbIndices | scripts/validate-structured-data.py:115-119 | every breadcrumb issue is a missing field of an item in range, in item order |
| StructuredData.BreadcrumbReported | scripts/validate-structured-data.py:115-119 | item k is reported as missing `position` (resp. `name`) at position from+k exactly when `in` says it lacks that field |
| StructuredData.FaqEntityIssues | scripts/validate-structured-data.py:127-131 | the check raises iff an entity is not an object; otherwise every entity not of type Question is reported, at most two issues each |
| StructuredData.FaqStep | scripts/validate-structured-data.py:127-131 | a passing check lists the first entity's issues, then the rest's |
| StructuredData.FaqIndices | scripts/validate-structured-data.py:127-131 | every FAQ issue is a not-a-question or missing-answer issue of an entity in range, in entity order |
| StructuredData.EntityReported | scripts/validate-structured-data.py:127-131 | one entity is reported not a question iff its `@type` is not "Question", and missing an answer iff it has no `acceptedAnswer` |
| StructuredData.FaqReported | scripts/validate-structured-data.py:127-131 | with a passing check every entity is an object; entity k is reported not a question exactly when its `@type` is not "Question", and missing an answer exactly when it has no `acceptedAnswer` |
| StructuredData.TypeIssues | scripts/validate-structured-data.py:94-131 | only the breadcrumb and FAQ rules can raise; an Article gets the Article rules; a BreadcrumbList or FAQPage without its list field passes, with a non-list one gets exactly "not an array", else its items' issues; other types get no type rule |
| StructuredData.ContextIssues | scripts/validate-structured-data.py:80-84 | no context issue iff `@context` is exactly "https://schema.org"; an absent one is reported as missing |
| StructuredData.ValidateSchema | scripts/validate-structured-data.py:69-133 | a block without `@type` gets exactly the missing-type issue; a list or object type raises on the table lookup |
| StructuredData.KnownTypeOrder | scripts/validate-structured-data.py:80-107 | for a known type the issues are the context issue, the missing properties, then the Article rules |
| StructuredData.UnknownTypeContextOnly | scripts/validate-structured-data.py:80-93 | a type outside the table without type rules gets only the context check |
| StructuredData.RuleTypesAreKnown | scripts/validate-structured-data.py:35-42 | the requirement lists of Article, FAQPage, BreadcrumbList and WebSite |
| StructuredData.WebSiteValid | scripts/validate-structured-data.py:35-91 | a WebSite block with the schema.org context, a name and a url has no issue |
| StructuredData.Reports | scripts/validate-structured-data.py:167-169 | one report per issue, tagged with the page and the block's type |
| StructuredData.ValidatePage | scripts/validate-structured-data.py:136-173 | no blocks, no reports; every report names the page |
| StructuredData.ValidatePageCount | scripts/validate-structured-data.py:159-173 | the page's reports number the sum of its blocks' issues, and it raises iff a block does |
| StructuredData.UntypedBlock | scripts/validate-structured-data.py:74-76 | a block without `@type` is reported once under "Unknown" (see also line 160) |
| StructuredData.Summarize | scripts/validate-structured-data.py:176-247 | pages with issues ≤ pages validated ≤ pages; no reports iff no page had issues |
| StructuredData.Step | scripts/validate-structured-data.py:213-224 | one page adds at most one validated page, and a page with issues iff it adds reports |
| StructuredData.ValidateAllPages | scripts/validate-structured-data.py:182-247 | the loop with its two counters computes the run's summary, failing iff a page raises |
| StructuredData.NoneStaysNone | scripts/validate-structured-data.py:213-224 | once a page raises, the whole run does |
| StructuredData.ExitCode | scripts/validate-structured-data.py:343 | the status is 0 iff there is no issue, else 1 |
| StructuredData.ExitCodeByPages | scripts/validate-structured-data.py:220-224 | the status is 1 iff some validated page had an issue (see also line 343) |
| StructuredData.LanguagesToRun | scripts/validate-structured-data.py:187 | a given language runs alone; otherwise all languages run |
| StructuredData.BackupSkipped | scripts/validate-structured-data.py:207 | a file whose name holds "backup" in any letter case is not walked, wherever the word sits in the name |
| ComprehensiveSitemap.LangDir | scripts/generate-comprehensive-sitemap.py:67-71 | English lives at the site root; every other language in its own directory |
| ComprehensiveSitemap.UrlForPage | scripts/generate-comprehensive-sitemap.py:74-78 | an English page's URL is the base URL and the page; another language's adds its code as a directory |
| ComprehensiveSitemap.UrlMirrorsDirectory | scripts/generate-comprehensive-sitemap.py:67-78 | every URL mirrors the page's directory below the site root |
| ComprehensiveSitemap.LookupFirst | scripts/generate-comprehensive-sitemap.py:87-88 | the table lookup finds the first entry with the key |
| ComprehensiveSitemap.NormalizeClears | scripts/generate-comprehensive-sitemap.py:84 | a normalized path holds no backslash |
| ComprehensiveSitemap.NormalizeConcat | scripts/generate-comprehensive-sitemap.py:84 | normalizing distributes over concatenation |
| ComprehensiveSitemap.NormalizeIdempotent | scripts/generate-comprehensive-sitemap.py:84 | normalizing twice changes nothing |
| ComprehensiveSitemap.TableEntryWins | scripts/generate-comprehensive-sitemap.py:87-88 | an exact table entry wins over the section rules |
| ComprehensiveSitemap.SectionRules | scripts/generate-comprehensive-sitemap.py:90-102 | outside the table, blog pages get 0.8/weekly, setup pages 0.7/monthly, sports pages 0.6/weekly, in that order of precedence, and the rest the default |
| ComprehensiveSitemap.BlogArticleSettings | scripts/generate-comprehensive-sitemap.py:84-92 | a blog article the table does not name gets the blog settings, even written with `\` |
| ComprehensiveSitemap.SettingsIgnoreSeparators | scripts/generate-comprehensive-sitemap.py:81-102 | a path with `\` separators gets the settings of the same path with `/` |
| ComprehensiveSitemap.HtmlFiles | scripts/generate-comprehensive-sitemap.py:114-135 | every file found is a listed `.html` page below the directory, relative to it |
| ComprehensiveSitemap.HtmlFilesComplete | scripts/generate-comprehensive-sitemap.py:121-133 | every listed page below the directory is found |
| ComprehensiveSitemap.FindHtmlFiles | scripts/generate-comprehensive-sitemap.py:114-135 | the walk appends each listed file, in walk order |
| ComprehensiveSitemap.RootWalkSeesLanguagePages | scripts/generate-comprehensive-sitemap.py:67-121 | the English walk starts at the site root, so it also finds every language directory's pages |
| ComprehensiveSitemap.Alternates | scripts/generate-comprehensive-sitemap.py:189-195 | the alternates are other languages of the list, each with its URL of the page, and every other language has one |
| ComprehensiveSitemap.AlternatesCount | scripts/generate-comprehensive-sitemap.py:190-191 | with distinct languages, one alternate per language other than the page's own |
| ComprehensiveSitemap.SevenAlternates | scripts/generate-comprehensive-sitemap.py:189-195 | each of the eight languages' pages carries seven alternates, none its own |
| ComprehensiveSitemap.Entry | scripts/generate-comprehensive-sitemap.py:164-195 | an entry's location is the page's URL in its language |
| ComprehensiveSitemap.Entries | scripts/generate-comprehensive-sitemap.py:164-195 | one entry per page |
| ComprehensiveSitemap.SitemapSize | scripts/generate-comprehensive-sitemap.py:152-195 | the sitemap has exactly as many entries as the walks of the existing language directories found pages |
| ComprehensiveSitemap.AddLanguage | scripts/generate-comprehensive-sitemap.py:164-199 | the inner loop adds one entry per page of one language and counts each |
| ComprehensiveSitemap.GenerateSitemap | scripts/generate-comprehensive-sitemap.py:138-199 | the languages in order, missing directories skipped, one counted entry per page found |
| ComprehensiveSitemap.SitemapWarnings | scripts/generate-comprehensive-sitemap.py:244-253 | the size warning iff the file exceeds 50 MB; the count warning iff more than 50,000 URLs |
| ComprehensiveSitemap.CountWarning | scripts/generate-comprehensive-sitemap.py:251-253 | a generated sitemap's count warning fires iff the walks found more than 50,000 pages (see also lines 152-199) |
| FetchEvents.Or | scripts/fetch-events.py:138 | Python's `a or b`: a when truthy, else b |
| FetchEvents.StartUtc | scripts/fetch-events.py:100-113 | no stamp iff no date; date "T" time "Z" with a time, the date at midnight without |
| FetchEvents.Stations | scripts/fetch-events.py:116-120 | only truthy slots are listed, at most one per slot |
| FetchEvents.StationListed | scripts/fetch-events.py:118-120 | every truthy slot is listed |
| FetchEvents.CollectStations | scripts/fetch-events.py:116-120 | the loop over the five slots collects the truthy stations in order |
| FetchEvents.Slug | scripts/fetch-events.py:125 | the slug has the title's length and no space |
| FetchEvents.EncodeSpaces | scripts/fetch-events.py:158 | the encoded query has no space |
| FetchEvents.MapsUrl | scripts/fetch-events.py:156-159 | a map link iff venue and city are truthy, the search URL with the space-encoded "venue city" |
| FetchEvents.ParseEvent | scripts/fetch-events.py:97-161 | the event's date, UTC stamp, time ("00:00" without one), stations, map link and image (thumb, else poster) |
| FetchEvents.AtMostFiveStations | scripts/fetch-events.py:117 | five slots give at most five stations |
| FetchEvents.DateOnly | scripts/fetch-events.py:110-133 | a date without a time gives a midnight stamp and the time "00:00" |
| FetchEvents.DaysInMonth | scripts/fetch-events.py:176 | a month has 28 to 31 days |
| FetchEvents.ParseDate | scripts/fetch-events.py:176 | a date that parses has the `YYYY-MM-DD` shape |
| FetchEvents.Filter | scripts/fetch-events.py:164-182 | every kept event is one of the events and upcoming |
| FetchEvents.FilterKeeps | scripts/fetch-events.py:170-178 | every upcoming event is kept |
| FetchEvents.FilterUpcomingEvents | scripts/fetch-events.py:164-182 | the loop keeps exactly the events with a parsable date in the window, in order |
| FetchEvents.TodayDropped | scripts/fetch-events.py:166-177 | an event dated today is dropped unless the clock reads midnight (its date is midnight, before now) |
| FetchEvents.WindowEdges | scripts/fetch-events.py:166-177 | an event dated tomorrow, or on the last day of the window, is kept |
| FetchEvents.LeagueEvents | scripts/fetch-events.py:86-94 | a league has events iff the reply holds a non-empty `events` list, and they are that list |
| FetchEvents.ParseAll | scripts/fetch-events.py:204 | one parsed event per raw event, in order |
| FetchEvents.LeagueEntry | scripts/fetch-events.py:197-221 | a league is output iff it has raw events and upcoming ones remain, with the table's id and name and non-empty events |
| FetchEvents.AllLeagues | scripts/fetch-events.py:189-221 | at most one entry per league, each with events |
| FetchEvents.FetchAllEvents | scripts/fetch-events.py:185-227 | the loop over the league table gives the leagues with upcoming events, in table order |
| FetchEvents.FailedLeagueOmitted | scripts/fetch-events.py:68-92 | when every fetch fails, no league is output (see also lines 199-201) |
| FetchEvents.ExitCode | scripts/fetch-events.py:265-267 | the status is 1 iff no league has events |
| FetchEvents.AllFailedExitsOne | scripts/fetch-events.py:263-267 | a run in which every fetch fails exits with 1 |
| SeoMetadata.LookupLang | scripts/update-seo-metadata.py:146-149 | a language is found iff the configuration lists its code, and the entry found is that code's |
| SeoMetadata.GetPageType | scripts/update-seo-metadata.py:28-47 | a mapped file name gets its type, any other "home"; the type is one of the five blocks |
| SeoMetadata.SharedPageTypes | scripts/update-seo-metadata.py:28-36 | the two product pages share one block, and so do the channel pages |
| SeoMetadata.LangDir | scripts/update-seo-metadata.py:50-54 | English lives at the site root, every other language in its own directory |
| SeoMetadata.Pairs | scripts/update-seo-metadata.py:74-99 | fifteen placeholders, each a `{{NAME}}` token |
| SeoMetadata.BuildPlaceholders | scripts/update-seo-metadata.py:57-101 | raises iff the language has no "home" block; the title is the page type's block's, else home's; the canonical URL and CSS prefix depend on whether the language has a path; code, page and locale are the language's |
| SeoMetadata.SocialFallbacks | scripts/update-seo-metadata.py:82-88 | Open Graph and Twitter always agree, and fall back to the page's title and description without `og_*` values |
| SeoMetadata.CanonicalEndsWithPage | scripts/update-seo-metadata.py:63-71 | a canonical URL always ends in `/` and the page's file name |
| SeoMetadata.ReplacePlaceholders | scripts/update-seo-metadata.py:104-108 | the loop replaces each key everywhere by its value, one key after the other |
| SeoMetadata.NoKeysUnchanged | scripts/update-seo-metadata.py:104-108 | a page without any key is left as it is |
| SeoMetadata.KeysCleared | scripts/update-seo-metadata.py:104-108 | when no value can help form a key, the result holds none of the keys |
| SeoMetadata.UpdateHtmlFile | scripts/update-seo-metadata.py:111-135 | the flag is set iff the replacement changes the text; the new text is written iff changed and not a dry run |
| SeoMetadata.UpdateIdempotent | scripts/update-seo-metadata.py:111-132 | when no value can form a key, a second update of a written page finds nothing to do |
| SeoMetadata.TargetLanguages | scripts/update-seo-metadata.py:144-149 | no filter keeps every language; a named one runs alone, and an unknown one stops the run |
| SeoMetadata.TargetPages | scripts/update-seo-metadata.py:151-154 | no filter keeps the configured pages; a named page runs alone |
| SeoMetadata.TargetPageName | scripts/update-seo-metadata.py:152-154 | a page named with or without ".html" is the same page |
| SeoMetadata.PageStep | scripts/update-seo-metadata.py:171-184 | one page counts as processed at most once, updated only if processed, and adds or removes no file |
| SeoMetadata.UpdatePage | scripts/update-seo-metadata.py:171-184 | reading, replacing and writing one page gives the page step |
| SeoMetadata.UpdateLanguage | scripts/update-seo-metadata.py:171-184 | the inner loop runs the pages of one language until a `KeyError` |
| SeoMetadata.UpdateAllPages | scripts/update-seo-metadata.py:138-192 | the run over the filtered languages and pages, skipping missing directories and pages |
| SeoMetadata.UnknownLanguage | scripts/update-seo-metadata.py:145-148 | an unknown language processes and writes nothing |
| SeoMetadata.RunBounds | scripts/update-seo-metadata.py:156-184 | a run updates at most the pages it processed, never adds or removes a file, and in a dry run writes nothing |
| TranslateBlog.MatchCapture | scripts/translate-blog-article.py:36-52 | a lazy match at the start of the text captures text without the closing string, followed by the close and the rest |
| TranslateBlog.FindAll | scripts/translate-blog-article.py:52 | no capture holds its pattern's closing string |
| TranslateBlog.PatternOf | scripts/translate-blog-article.py:35-47 | every key's pattern has a non-empty opener and closer |
| TranslateBlog.ExtractFields | scripts/translate-blog-article.py:51-53 | the loop maps each key to the matches of its pattern |
| TranslateBlog.ExtractTranslatableText | scripts/translate-blog-article.py:32-55 | all eleven keys are present, each holding exactly the matches of its pattern, and no capture runs past its pattern's closing text |
| TranslateBlog.DotMatchSelf | scripts/translate-blog-article.py:85 | a dotted pattern matches its own text |
| TranslateBlog.Swap | scripts/translate-blog-article.py:63-110 | a present literal is rewritten and its replacement appears; an absent one changes nothing |
| TranslateBlog.CanonicalStep | scripts/translate-blog-article.py:84-89 | only the first canonical-pattern match, each dot matching any character but a line feed, gets the language prefix; everything else is kept |
| TranslateBlog.UpdateArticleForLanguage | scripts/translate-blog-article.py:58-112 | raises iff the language is not in the table; otherwise the five metadata rewrites followed by the two relinking rewrites |
| TranslateBlog.UpdateSetsLang | scripts/translate-blog-article.py:62-112 | an article with `<html lang="en">` comes out holding `<html lang="<code>">`: no later rewrite can overlap it |
| TranslateBlog.UpdateSetsLocale | scripts/translate-blog-article.py:69-112 | an article with the `en_US` og:locale tag comes out holding the language's og:locale tag |
| TranslateBlog.UpdateSetsLanguageName | scripts/translate-blog-article.py:76-112 | an article with the English language-name tag comes out holding the tag naming the language |
| TranslateBlog.UpdateSetsCanonical | scripts/translate-blog-article.py:83-112 | an article with the site's canonical link comes out holding `href="https://web.tvmaster.vip/<code>/blog/` |
| TranslateBlog.UpdatedPassesMetadataChecks | scripts/translate-blog-article.py:58-131 | such an article, once translated, draws neither the canonical-URL issue nor the `lang` issue from the link check |
| TranslateBlog.CanonicalKeeps | scripts/translate-blog-article.py:84-89 | the canonical rewrite keeps every text no match of its pattern can overlap |
| TranslateBlog.CanonicalInserts | scripts/translate-blog-article.py:84-89 | a text holding the site's canonical link gets the language's canonical link |
| TranslateBlog.RelinkPlain | scripts/translate-blog-article.py:100-110 | an article without `href="../` and `src="../` is not changed by relinking |
| TranslateBlog.RelinkDeepens | scripts/translate-blog-article.py:100-110 | a relative `href` comes out as `href="../../`, and a relative `src` as `src="../../` |
| TranslateBlog.CanonicalDotsMatchAnything | scripts/translate-blog-article.py:85 | the pattern's unescaped dots also match other characters, but not a line feed |
| TranslateBlog.RelinkGrows | scripts/translate-blog-article.py:100-110 | relinking lengthens every text with a relative link, and the deeper link still holds `href="../` |
| TranslateBlog.RelinkNotIdempotent | scripts/translate-blog-article.py:100-110 | each relinking adds another `../` level |
| TranslateBlog.ValidateLinks | scripts/translate-blog-article.py:115-131 | no issue iff there is no `href="../` and both interpolated patterns, the canonical URL and `<html lang="<code>">` with each dot matching any character but a line feed, are found; a relative link is the first issue |
| TranslateBlog.RelinkedStillFlagged | scripts/translate-blog-article.py:100-121 | an article that had a relative link is still flagged after relinking, because `href="../../` contains `href="../` |
| TranslateBlog.ValidateArticle | scripts/translate-blog-article.py:155-161 | the language is the path's first directory; a clean article matches that language's `<html lang>` pattern |
| AccessibilityFixes.AddAccessibilityCss | scripts/apply-accessibility-fixes.py:42-59 | a page that names the stylesheet is left alone; the flag is raised iff the text changed |
| AccessibilityFixes.SplicedHasCss | scripts/apply-accessibility-fixes.py:51-57 | splicing the link in at an anchor puts the stylesheet in the page |
| AccessibilityFixes.AccessibilityCssPlacement | scripts/apply-accessibility-fixes.py:47-59 | the link goes right after the first ui-ux-fixes link, else right before the first `</head>`; the flag is raised iff one of the anchors exists, and then the stylesheet is in the page |
| AccessibilityFixes.AccessibilityCssIdempotent | scripts/apply-accessibility-fixes.py:42-59 | a second call changes nothing and reports nothing |
| AccessibilityFixes.BodyAttrs | scripts/apply-accessibility-fixes.py:66 | a body-tag match is `<body`, attributes without '>', '>' and the rest |
| AccessibilityFixes.AddSkipLink | scripts/apply-accessibility-fixes.py:61-70 | a page with a skip link is left alone; the flag is raised iff the text changed |
| AccessibilityFixes.SkipLinkAfterBody | scripts/apply-accessibility-fixes.py:61-70 | without a skip link, the link goes right after the first `<body ...>` tag and nothing else changes; a page without a body tag is left alone |
| AccessibilityFixes.SkipLinkTwice | scripts/apply-accessibility-fixes.py:61-70 | a second call is a no-op |
| AccessibilityFixes.ClassRole | scripts/apply-accessibility-fixes.py:79-108 | a match rewrites `<tag class="v"` with a non-empty quote-free v into the same tag carrying the role |
| AccessibilityFixes.RoleStep | scripts/apply-accessibility-fixes.py:76-112 | the flag is raised iff the tag occurs and the role does not; otherwise the text is unchanged |
| AccessibilityFixes.RoleStepOnce | scripts/apply-accessibility-fixes.py:76-84 | when a class-bearing tag is found the role lands, so a second step reports nothing |
| AccessibilityFixes.HeaderWithoutClass | scripts/apply-accessibility-fixes.py:77-84 | a bare `<header>` raises the flag without any change |
| AccessibilityFixes.MainStep | scripts/apply-accessibility-fixes.py:86-102 | a bare `<main>` always raises the flag; otherwise the flag is raised iff `<main` occurs without the main-content id; no flag, no change |
| AccessibilityFixes.BareMainLabelled | scripts/apply-accessibility-fixes.py:87-94 | the first bare `<main>` gets the id and role; the rest is untouched |
| AccessibilityFixes.NavStep | scripts/apply-accessibility-fixes.py:115-122 | the flag is raised iff `<nav` occurs and the navigation role does not |
| AccessibilityFixes.MainNavLabelled | scripts/apply-accessibility-fixes.py:115-122 | the main navigation written the usual way gains its role and label |
| AccessibilityFixes.AddAriaLandmarks | scripts/apply-accessibility-fixes.py:72-124 | no flag, no change |
| AccessibilityFixes.LandmarkFlagWithoutChange | scripts/apply-accessibility-fixes.py:76-124 | a page with a header but no class-bearing header and no other landmark raises the flag and is left as it was |
| AccessibilityFixes.NoMainNoStep | scripts/apply-accessibility-fixes.py:87-102 | a page without `<main` is left alone by the main step |
| AccessibilityFixes.ImproveButtonAriaLabels | scripts/apply-accessibility-fixes.py:126-139 | the flag is raised iff the toggle occurs without its label, whether or not a button matched |
| AccessibilityFixes.ToggleLabelledOnce | scripts/apply-accessibility-fixes.py:126-139 | an unlabelled toggle written the usual way gets its label, after which the fix has nothing to do |
| AccessibilityFixes.ImproveImageAltText | scripts/apply-accessibility-fixes.py:141-168 | the flag is raised iff the page mentions the header logo |
| AccessibilityFixes.FooterFixUnflagged | scripts/apply-accessibility-fixes.py:154-168 | without a header logo the flag stays down although the footer-logo text is rewritten |
| AccessibilityFixes.BrandLinkLabelled | scripts/apply-accessibility-fixes.py:161-166 | wherever the home link matches, the labelled link is in the result |
| AccessibilityFixes.Pipeline | scripts/apply-accessibility-fixes.py:181-205 | at most five messages; none means neither the stylesheet nor the alt-text fix fired |
| AccessibilityFixes.ProcessFile | scripts/apply-accessibility-fixes.py:170-214 | the page is written back iff some fix raised its flag, with the pipeline's text |
| AccessibilityFixes.NoLandmarks | scripts/apply-accessibility-fixes.py:72-124 | a page with no landmark tag is left alone by the landmark fix |
| AccessibilityFixes.NoFlags | scripts/apply-accessibility-fixes.py:181-205 | a page offering no anchor to any fix raises no flag |
| AccessibilityFixes.FooterFixDiscarded | scripts/apply-accessibility-fixes.py:154-209 | a page whose only fixable text is the footer-logo alt text is not written back, so that rewrite is lost |
| AccessibilityFixes.ImprovementsBounded | scripts/apply-accessibility-fixes.py:231-236 | files modified ≤ pages, and each modified file contributes between one and five messages |
| AccessibilityFixes.ApplyAll | scripts/apply-accessibility-fixes.py:216-236 | the loop's two counters tally the files with messages and the messages |
| ResourceHints.Lines | scripts/add-resource-hints.py:35-62 | every hint block has three lines |
| ResourceHints.BlockChanges | scripts/add-resource-hints.py:33-63 | the CDN message iff the CDN is used without preconnect; the CSS message iff the header/footer sheet is used without preload; the hero message iff the page is the index; the performance message iff the sheet is absent |
| ResourceHints.HintLinesLength | scripts/add-resource-hints.py:31-63 | three hint lines per message |
| ResourceHints.HintChanges | scripts/add-resource-hints.py:33-63 | a message is listed iff its block is wanted |
| ResourceHints.ThemeMatchAt | scripts/add-resource-hints.py:72 | a theme-color match is the tag, attributes without '>', then '>' and a newline |
| ResourceHints.ThemeColorEnd | scripts/add-resource-hints.py:72-74 | the search returns the end of the leftmost theme-color match: a match starts there and none starts earlier; none is returned only when no position matches |
| ResourceHints.InsertionPoint | scripts/add-resource-hints.py:68-84 | after the theme-color line, else before the first stylesheet link, else before `</head>`, else none |
| ResourceHints.HintsText | scripts/add-resource-hints.py:87 | the inserted text ends in `\n\n` |
| ResourceHints.HintsTextLines | scripts/add-resource-hints.py:87 | before that blank line the text is the newline-joined hint lines: it splits back into exactly those lines |
| ResourceHints.InsertHintsCases | scripts/add-resource-hints.py:65-88 | the page changes iff there are hints and a non-zero insertion point, and then grows by exactly the inserted text at that point |
| ResourceHints.HintedPageUnchanged | scripts/add-resource-hints.py:27-28 | a page with both preconnect and preload gets nothing |
| ResourceHints.HintConditions | scripts/add-resource-hints.py:27-63 | each message is reported exactly when its condition holds and the page is not already hinted |
| ResourceHints.HintsInsertedOnce | scripts/add-resource-hints.py:22-90 | the hints go in once at the insertion point, when there are hints and a non-zero point; otherwise the page is unchanged |
| ResourceHints.HintsChangeContent | scripts/add-resource-hints.py:65-90 | the content changes iff a message is reported and the insertion point is found and non-zero |
| ResourceHints.ReportedWithoutInsertion | scripts/add-resource-hints.py:51-86 | a page with no insertion point is unchanged, yet an unhinted index page still reports the hero message |
| ResourceHints.ScriptRest | scripts/add-resource-hints.py:97 | after `src="`, a non-empty quote-free value, attributes without '>', `></script>` and the rest |
| ResourceHints.MatchScript | scripts/add-resource-hints.py:97 | a match is a well-formed tag followed by the rest of the text |
| ResourceHints.MatchFullTag | scripts/add-resource-hints.py:97 | every well-formed tag is matched back with the text after it |
| ResourceHints.ReplaceScript | scripts/add-resource-hints.py:99-120 | a tag with `defer`, `async` or JSON-LD is kept; any other gets `async` for an `http` source, `defer` otherwise, with its message |
| ResourceHints.RewrittenKept | scripts/add-resource-hints.py:99-122 | a rebuilt tag is matched back as itself and left alone: one rewrite per tag |
| ResourceHints.NoScriptChangesUnchanged | scripts/add-resource-hints.py:92-123 | without a message the page comes back as it was |
| ResourceHints.ProcessFile | scripts/add-resource-hints.py:125-159 | the page is written iff its content changed, and what is written is the page after the hints pass then the scripts pass; all messages of both passes are reported either way |
| ResourceHints.NoMessagesNoWrite | scripts/add-resource-hints.py:136-157 | with no message at all nothing is written |
| ResourceHints.CountersBounded | scripts/add-resource-hints.py:178-183 | files counted ≤ pages and ≤ messages (files with messages, not files written) |
| ResourceHints.AddHintsToAll | scripts/add-resource-hints.py:161-183 | the loop's counters tally the files with messages and the messages |
| Strings.Basename | scripts/fix-cls-images.py:56 | the file name is the slash-free suffix of the path, and it is preceded by a `/` unless it is the whole path; the chatbot injector's `Path.name` (inject_chatbot.py:47) is the same for the paths it walks |
| ClsImages.GetImageDimensions | scripts/fix-cls-images.py:45-61 | the size read from the file wins; otherwise the table entry for the file name, and nothing iff the name is not in the table |
| Patterns.LeadingSpace | scripts/fix-cls-images.py:68 | the greedy `\s+` run (shared by every tag pattern that starts with whitespace) is a whitespace prefix followed by a non-space |
| ClsImages.SrcValue | scripts/fix-cls-images.py:68 | after `src="`, a non-empty quote-free value, then group 3 without `>` up to the tag's `>` |
| ClsImages.FindSrc | scripts/fix-cls-images.py:68 | group 1 is the shortest `>`-free prefix after which the source completes a match; the match covers the text it came from |
| ClsImages.FindSrcLeftmost | scripts/fix-cls-images.py:68 | the match found is the leftmost: a match starts at the end of group 1 and at no earlier position |
| ClsImages.FindSrcNone | scripts/fix-cls-images.py:68 | no match is found only when no position before the first `>` starts one |
| ClsImages.MatchImg | scripts/fix-cls-images.py:68 | a match is a well-formed tag followed by the rest of the text |
| ClsImages.ReplaceImg | scripts/fix-cls-images.py:70-98 | a tag with both `width=` and `height=` is kept; otherwise it is rebuilt iff a size is found for its image path, and the rebuilt tag is exactly the tag carrying the size found for its path |
| ClsImages.RebuiltHasDimensions | scripts/fix-cls-images.py:78-95 | a rebuilt tag has both attributes, so a second run keeps it |
| ClsImages.RebuiltKeepsAttributes | scripts/fix-cls-images.py:95 | the rebuilt tag keeps group 1, the source and group 3 |
| ClsImages.NoDimensionChangesUnchanged | scripts/fix-cls-images.py:63-101 | with no tag rebuilt the page comes back as it was |
| ClsImages.LazyAttrsHasNoClose | scripts/fix-cls-images.py:118 | the inserted attributes hold no `>` |
| ClsImages.LazyInsertedOnce | scripts/fix-cls-images.py:113-119 | on a counted tag the attributes are inserted once, right before its closing `>` |
| ClsImages.LazyHasLoading | scripts/fix-cls-images.py:118 | the inserted text carries `loading=` |
| ClsImages.LazyCallbackStable | scripts/fix-cls-images.py:108-119 | the callback maps tags to tags and a second application changes nothing |
| ClsImages.AddLazyLoadingIdempotent | scripts/fix-cls-images.py:103-124 | running the lazy-loading pass twice gives the page of one run |
| ClsImages.NoLazyChangesUnchanged | scripts/fix-cls-images.py:103-124 | with no tag counted the lazy pass leaves the page as it is |
| ClsImages.ProcessFile | scripts/fix-cls-images.py:135-168 | at most one positive count per pass; the page is written iff the list is non-empty, with both passes applied; an empty list means both passes leave the page as it was |
| ClsImages.CountZero | scripts/fix-cls-images.py:116 | a zero count means no tag was counted |
| ClsImages.ImprovementsBounded | scripts/fix-cls-images.py:183-192 | files modified ≤ pages, messages ≤ twice the files modified |
| ClsImages.FixAll | scripts/fix-cls-images.py:183-192 | missing files are skipped; the counters tally the files with messages and the messages |
| ImageOptimizer.AttrsNeverEmpty | scripts/optimize-images-simple.py:46-50 | a below-the-fold image without `loading=` always gets `loading="lazy"` first, so the list is never empty there |
| ImageOptimizer.ImgWithLoadingKept | scripts/optimize-images-simple.py:34-36 | an image that has `loading=` is returned unchanged |
| ImageOptimizer.ImgCallbackCases | scripts/optimize-images-simple.py:29-56 | above the fold only a missing `decoding="async"` is added; below the fold whichever attributes are missing are added; a tag changes iff it is counted or is an above-the-fold image without `decoding=` |
| ImageOptimizer.ImgCallbackStable | scripts/optimize-images-simple.py:29-56 | the image callback maps tags to tags and a second application changes nothing |
| ImageOptimizer.LazyStable | scripts/optimize-images-simple.py:45-54 | a counted image gains `loading="lazy"`, so a second pass keeps it |
| ImageOptimizer.EagerStable | scripts/optimize-images-simple.py:38-43 | an above-the-fold image gains only `decoding="async"`, stays above the fold and is kept by a second pass |
| ImageOptimizer.AppendedTag | scripts/optimize-images-simple.py:42-54 | appending `>`-free attributes before the `>` keeps a tag a tag |
| ImageOptimizer.LoadingAppended | scripts/optimize-images-simple.py:48-54 | the appended list carries `loading=` |
| ImageOptimizer.AsyncHasNoLoading | scripts/optimize-images-simple.py:42 | ` decoding="async"` holds no `loading=` and cannot complete one |
| ImageOptimizer.DecodingAppendedNoLoading | scripts/optimize-images-simple.py:42 | appending ` decoding="async"` adds no `loading=` |
| ImageOptimizer.DecodingAppended | scripts/optimize-images-simple.py:42-50 | appending ` decoding="async"` adds `decoding=` |
| ImageOptimizer.AboveFoldKept | scripts/optimize-images-simple.py:39 | appending to an above-the-fold tag keeps it above the fold |
| ImageOptimizer.LazyImagesIdempotent | scripts/optimize-images-simple.py:22-59 | running the image pass twice gives the page of one run |
| ImageOptimizer.BodyOf | scripts/optimize-images-simple.py:66 | group 1 of a tag built from a body and `>` is that body |
| ImageOptimizer.PreloadAdded | scripts/optimize-images-simple.py:78 | the appended text carries `preload=` |
| ImageOptimizer.VideoCallbackStable | scripts/optimize-images-simple.py:68-78 | a video is kept iff it has `preload=`; the callback maps tags to tags and is idempotent |
| ImageOptimizer.LazyVideosIdempotent | scripts/optimize-images-simple.py:61-81 | running the video pass twice gives the page of one run |
| ImageOptimizer.LazyVideosUnchanged | scripts/optimize-images-simple.py:61-81 | a page whose videos all have `preload=` is unchanged by the video pass |
| ImageOptimizer.ProcessFile | scripts/optimize-images-simple.py:83-117 | the page is written iff both passes changed its content (an above-the-fold image can change it with no message); at most one positive count per pass |
| ImageOptimizer.ImprovementsBounded | scripts/optimize-images-simple.py:132-141 | files modified ≤ pages, messages ≤ twice the files modified |
| ImageOptimizer.OptimizeAll | scripts/optimize-images-simple.py:132-141 | missing files are skipped; the counters tally the files with messages and the messages |
| HtmlTags.MatchLen | scripts/optimize-images-simple.py:27 | a match of `<NAME\s+[^>]*?>` at the start runs from `<NAME` and a blank to the first `>`; there is none when the text does not open so or has no `>` |
| HtmlTags.SubTagThenRest | scripts/optimize-images-simple.py:58 | a complete tag at the front is handed to the callback and the scan resumes after it |
| HtmlTags.SubNoClose | scripts/optimize-images-simple.py:58 | text without `>` holds no match and is kept as it is |
| HtmlTags.SubUnchanged | scripts/optimize-images-simple.py:58 | a callback that returns every matched tag unchanged leaves the text unchanged |
| HtmlTags.SubIdempotent | scripts/optimize-images-simple.py:58 | when the callback maps tags to tags and is idempotent on them, scanning twice equals scanning once |
| SimpleSitemap.UrlBlocks | scripts/generate-sitemap.py:63-69 | six lines per page |
| SimpleSitemap.BlockAt | scripts/generate-sitemap.py:63-69 | the block of page k is lines 6k to 6k+5 of the blocks, in list order |
| SimpleSitemap.SitemapLayout | scripts/generate-sitemap.py:54-73 | declaration and `<urlset>` first, `</urlset>` last, 3 + 6n lines; block k is page k, with the base URL before its location and the one day stamp |
| SimpleSitemap.GenerateSitemap | scripts/generate-sitemap.py:54-73 | the loop builds exactly the sitemap lines and joins them with newlines |
| SimpleSitemap.CountPriority | scripts/generate-sitemap.py:107-110 | a count is at most the number of pages, and positive iff some page has that priority |
| SimpleSitemap.CountPriorities | scripts/generate-sitemap.py:107-110 | the dictionary loop builds the histogram: one key per priority present, mapped to its count |
| SimpleSitemap.HistogramStep | scripts/generate-sitemap.py:110 | one step of `get(p, 0) + 1` extends the histogram of the prefix to that of the longer prefix |
| SimpleSitemap.SumCountsStep | scripts/generate-sitemap.py:107-110 | adding a page adds the number of times its priority is listed |
| SimpleSitemap.OccursOnce | scripts/generate-sitemap.py:113 | a key in a duplicate-free list occurs once |
| SimpleSitemap.OccursNever | scripts/generate-sitemap.py:113 | a key not in the list occurs zero times |
| SimpleSitemap.SumCountsIsLength | scripts/generate-sitemap.py:107-115 | listing every priority once, the counts add up to the number of pages |
| SimpleSitemap.SumCountsEmpty | scripts/generate-sitemap.py:107 | no page, no count |
| SimpleSitemap.HistogramTotal | scripts/generate-sitemap.py:107-115 | the histogram's counts, read in any duplicate-free order of its keys (such as the sorted order printed), add up to the number of pages |
| NavButtons.GapsLength | fix_nav_buttons.py:30-38 | cutting the spans out loses exactly their text |
| NavButtons.TotalLengthPositive | fix_nav_buttons.py:15-18 | every match is non-empty, so a non-empty run of them has positive length |
| NavButtons.Cut | fix_nav_buttons.py:38 | one `result[:start] + result[end:]` on a page whose later buttons are already cut leaves the earlier text and the gap after it |
| NavButtons.RemoveDuplicates | fix_nav_buttons.py:26-41 | the loop over the later matches, last first, gives the page with every match after the first cut out |
| NavButtons.OneButtonUnchanged | fix_nav_buttons.py:20-21 | with at most one button the page is returned as it is |
| NavButtons.FirstButtonKept | fix_nav_buttons.py:23-30 | the page up to the end of the first button, that button included, is kept |
| NavButtons.DuplicatesRemoved | fix_nav_buttons.py:30-39 | the page shrinks by exactly the length of the later buttons |
| NavButtons.ChangedIffDuplicates | fix_nav_buttons.py:20-41 | the page changes iff it has two or more buttons |
| NavButtons.ProcessFile | fix_nav_buttons.py:43-62 | the file is written iff the page has two or more buttons; what is written is the page with the later buttons cut out, and the count reported is the drop in `<button class="nav-toggle"` occurrences between the old and the new page |
| ChatbotInjector.HtmlSuffix | inject_chatbot.py:47 | a path has the `.html` suffix iff its name ends in `.html` and is longer than that |
| ChatbotInjector.HtmlNameSuffix | inject_chatbot.py:47 | a name has the `.html` suffix iff it ends in `.html` and is longer than that |
| ChatbotInjector.ShouldProcessFile | inject_chatbot.py:36-47 | the loop with early return accepts a path iff no skipped directory occurs as `/dir/` or starts it, and it has the `.html` suffix |
| ChatbotInjector.NodeModulesSkipped | inject_chatbot.py:39-44 | nothing below a `node_modules` directory is processed |
| ChatbotInjector.InjectChatbotWidget | inject_chatbot.py:53-77 | a page is skipped iff it already has the widget or has no `</body>` |
| ChatbotInjector.SnippetHasMarker | inject_chatbot.py:12-51 | the snippet carries the marker the skip test looks for |
| ChatbotInjector.InjectAtFirstBody | inject_chatbot.py:70 | the text before the first `</body>` is unchanged, the snippet and a newline precede it, and the rest is handled the same way |
| ChatbotInjector.InjectLength | inject_chatbot.py:70 | each `</body>` grows the page by the snippet and one newline |
| ChatbotInjector.InjectTwiceSkips | inject_chatbot.py:49-70 | an injected page has the widget, so a second run skips it |
| ChatbotInjector.CountInjected | inject_chatbot.py:102-106 | the pages injected are at most the pages |
| ChatbotInjector.InjectAll | inject_chatbot.py:101-106 | each page gets the injector's result, and processed + skipped is the number of pages |
| ChatbotInjector.Selected | inject_chatbot.py:94-97 | a page is handed on iff it was found and the filter accepts its path |
| ChatbotFix.FixChatbotWidget | fix_chatbot.py:65-80 | a page is left alone iff the old snippet is absent |
| ChatbotFix.FixClearsOld | fix_chatbot.py:74 | given that the snippets cannot overlap, no old snippet survives the replacement |
| ChatbotFix.FixTwiceSkips | fix_chatbot.py:71-74 | given that the snippets cannot overlap, a second run leaves a fixed page alone |
| ChatbotFix.FixInsertsNew | fix_chatbot.py:74 | a fixed page carries the new snippet |
| ChatbotFix.CountUpdated | fix_chatbot.py:102-104 | the pages updated are at most the pages |
| ChatbotFix.FixAll | fix_chatbot.py:102-104 | each page gets the fix's result and the counter tallies the updated pages |
| AssetPaths.FixAssetPaths | fix_asset_paths.py:17-40 | the loop applies the five rewrites in order, each to the result of the one before |
| AssetPaths.ApplyAllGrows | fix_asset_paths.py:36-38 | rewrites with longer replacements never shrink the page, and leave its length alone only if no pattern occurs |
| AssetPaths.LengthStep | fix_asset_paths.py:38 | one longer-replacement rewrite grows the text, strictly when its pattern occurs |
| AssetPaths.ApplyAllNoMatch | fix_asset_paths.py:36-38 | a page with none of the patterns passes through unchanged |
| AssetPaths.ApplyAllClears | fix_asset_paths.py:36-38 | when no replacement can form its own or an earlier pattern, no pattern survives the chain |
| AssetPaths.ApplyAllIdempotent | fix_asset_paths.py:36-38 | under the same condition, a second run changes nothing |
| AssetPaths.HrefFixClear | fix_asset_paths.py:29-33 | no replacement can form the `href` pattern |
| AssetPaths.SrcFixClear | fix_asset_paths.py:30-33 | no replacement from the `src` rewrite on can form the `src` pattern |
| AssetPaths.ContentFixClear | fix_asset_paths.py:31-33 | no replacement from the `content` rewrite on can form the `content` pattern |
| AssetPaths.UrlFixClear | fix_asset_paths.py:32-33 | the two `url(` replacements cannot form their own or the earlier `url(` pattern |
| AssetPaths.PatternsDoNotOverlap | fix_asset_paths.py:28-34 | no replacement can form its own pattern or one applied before it |
| AssetPaths.FixAssetPathsIdempotent | fix_asset_paths.py:17-40 | running the fix twice gives the page of one run |
| AssetPaths.FixAssetPathsClears | fix_asset_paths.py:17-40 | no `PREFIX./assets/` is left for any of the five prefixes |
| AssetPaths.FixAssetPathsUnchanged | fix_asset_paths.py:17-66 | the page is left alone iff it holds none of the five patterns |
| AssetPaths.CountChanged | fix_asset_paths.py:66-69 | the pages changed are at most the pages |
| AssetPaths.ProcessHtmlFiles | fix_asset_paths.py:42-80 | every page is processed and gets the fix; the modified counter tallies the pages the fix changes and is at most the processed counter |
| VideoAltText.MatchVideo | scripts/add-video-alt-text.py:27 | a match is a well-formed video element followed by the rest of the text |
| VideoAltText.RenderParts | scripts/add-video-alt-text.py:27 | the text of a match splits at the fixed opening, the class quote, the `>` and `</video>` |
| VideoAltText.FirstClose | scripts/add-video-alt-text.py:27 | the lazy content ends at the first `</video>` |
| VideoAltText.MatchRender | scripts/add-video-alt-text.py:27 | a well-formed element is matched back with the same groups, whatever follows it |
| VideoAltText.PosterValue | scripts/add-video-alt-text.py:40 | a captured name is non-empty, made of `[\w%\s]` characters, and appears in the text as `/NAME.jpg"` |
| VideoAltText.PosterName | scripts/add-video-alt-text.py:40 | the search result has the same shape, and there is none without `poster="` |
| VideoAltText.Description | scripts/add-video-alt-text.py:45 | the table entry for a known name, else the name followed by ` package preview` |
| VideoAltText.Label | scripts/add-video-alt-text.py:29-51 | a video is kept iff it has `aria-label=` or no poster name; otherwise it gets the fixed class, its content kept, and group 1 right-stripped followed by ` aria-label="…"` holding the description of its `%20`-decoded poster name |
| VideoAltText.LabelledSkipped | scripts/add-video-alt-text.py:29-51 | a rewritten video is matched back as itself and kept on a second run |
| VideoAltText.NoChangesUnchanged | scripts/add-video-alt-text.py:22-55 | with no video rewritten the page comes back as it was |
| VideoAltText.NoVideoNoChanges | scripts/add-video-alt-text.py:22-55 | a page without the catalogue video opening has no change |
| VideoAltText.ProcessFile | scripts/add-video-alt-text.py:57-80 | the count is the number of rewritten videos; the page is written iff it is positive, and what is written is the rewritten page; an unwritten page equals its rewrite |
| VideoAltText.AddLabelsToFiles | scripts/add-video-alt-text.py:82-97 | missing files are skipped; each existing one gets its write, and the total sums the counts |
| LangIndex.MetaAt | generate_lang_index.py:102-141 | a match is the opening, a quote-free old value, its closing quote and the rest |
| LangIndex.NoQuoteUnchanged | generate_lang_index.py:102-141 | with no quote past the opening's length nothing matches and the text is unchanged |
| LangIndex.NoQuoteNoMatch | generate_lang_index.py:102-141 | with no quote after the opening there is no match |
| LangIndex.NoQuoteTail | generate_lang_index.py:102-141 | the no-quote condition carries over to the text after the first character |
| LangIndex.OutputStart | generate_lang_index.py:102-141 | the output starts with `<` wherever the input matches |
| LangIndex.PrefixOfOutput | generate_lang_index.py:102-141 | a `<`-free prefix of the output was a prefix of the input |
| LangIndex.NoMatchInsideWritten | generate_lang_index.py:102-141 | no opening, of this substitution or another, starts inside a written opening, value and quote |
| LangIndex.WrittenMatched | generate_lang_index.py:102-141 | a written opening is matched back with the written value |
| LangIndex.MetaReplaced | generate_lang_index.py:102-141 | after a substitution every match of its pattern carries the new value |
| LangIndex.UnmatchedStart | generate_lang_index.py:102-141 | where the input does not match, the output does not either |
| LangIndex.PrefixFromOutput | generate_lang_index.py:102-141 | an opening at the start of the output of an unmatched position was there in the input |
| LangIndex.OutputPath | generate_lang_index.py:144 | the output path is the language code followed by `/index.html` |
| LangIndex.TitleOnlyIfPresent | generate_lang_index.py:94-98 | the title is touched only when the exact English title is on the page |
| LangIndex.ReplaceEachSnoc | generate_lang_index.py:72-98 | applying one more literal replacement after a series is the series extended by it |
| LangIndex.LiteralStageStep | generate_lang_index.py:72-98 | step `k` of the literal stage is the replacement of pair `k` on the page after the first `k` steps |
| LangIndex.LiteralStepInserts | generate_lang_index.py:72-98 | each literal step puts its replacement on the page when its English text is there: `lang`, locale, language name, the three addresses and the title |
| LangIndex.UrlsGainCode | generate_lang_index.py:76-92 | the canonical, `og:url` and `twitter:url` replacements are the site address with `<code>/` inserted before its closing quote |
| LangIndex.AllReplaced | generate_lang_index.py:102-141 | after a substitution every match of its opening, anywhere in the page, carries the new value |
| LangIndex.MetaFromPrefix | generate_lang_index.py:102-141 | an opening followed by a quote-free value and a quote is matched with that value |
| LangIndex.PrefixKept | generate_lang_index.py:102-141 | a substitution keeps a prefix of the text when no match starting inside it ends its opening inside it |
| LangIndex.UnmatchedOpening | generate_lang_index.py:102-141 | where a substitution does not match, another opening at the start of its output was at the start of its input |
| LangIndex.NoOpeningNoQuoteUnchanged | generate_lang_index.py:102-141 | with no `<` before a position and no quote after it, a substitution changes nothing |
| LangIndex.UnmatchedOutputHasValue | generate_lang_index.py:102-141 | an unclosed opening of another tag at an unmatched position leaves the rest of the text untouched |
| LangIndex.NoMatchAcross | generate_lang_index.py:102-141 | a match of another opening cannot end its opening inside the opening and value of a match |
| LangIndex.ValueKept | generate_lang_index.py:102-141 | where a substitution does not match, a match of another opening keeps its value |
| LangIndex.UnmatchedMetaKept | generate_lang_index.py:102-141 | a match of another opening at the start of an unmatched position's output was there in the input with the same value |
| LangIndex.MetaKept | generate_lang_index.py:102-141 | a substitution for an opening that is not a prefix of `p` (nor `p` of it) keeps every match of `p` at its value |
| LangIndex.MetaKeptAtMatch | generate_lang_index.py:102-141 | the same where the substitution matches at the start of the text |
| LangIndex.MetaKeptElsewhere | generate_lang_index.py:102-141 | the same where it does not |
| LangIndex.AllKept | generate_lang_index.py:102-141 | if every match of `p` carries `v`, it still does after the substitution of another opening |
| LangIndex.AllKeptThrough | generate_lang_index.py:102-141 | the same through any series of substitutions of other openings |
| LangIndex.ReplaceMetasAt | generate_lang_index.py:102-141 | the series of substitutions splits around any one of them |
| LangIndex.MetaOpenings | generate_lang_index.py:102-141 | each of the six openings starts with its only `<` and ends with a quote |
| LangIndex.ApartAt | generate_lang_index.py:102-141 | two openings differing at a position both reach are not prefixes of one another |
| LangIndex.OpeningsApart | generate_lang_index.py:102-141 | no meta opening is a prefix of a later one, nor a later one of it |
| LangIndex.MetasWritten | generate_lang_index.py:100-141 | after the six substitutions every `description`, `keywords`, `og:title`, `og:description`, `twitter:title` and `twitter:description` value is the configured description, keywords or title, whatever the page held |
| LangIndex.CreateLangIndex | generate_lang_index.py:65-148 | for configured values without backslashes (which `re.sub` would read as escapes) and without quotes or `<`, every one of the six meta values on the finished page is the configured one |
| LangIndex.LangPages | generate_lang_index.py:150-154 | one file per table entry |
| LangIndex.LangPagesAt | generate_lang_index.py:144-154 | file k is entry k's page, written to `<code>/index.html`, so the table order is kept |
| LangIndex.CreateAll | generate_lang_index.py:150-154 | the loop writes exactly the files of the table, in table order |

## Left out

- DOM construction and rendering are not modelled. This covers summaries, filter chips, channel rows, EPG rows and modals, event and slider cards, the quiz question and result views, and the FAQ's `style.display` writes. The model stops at the values these are drawn from.
- Network access is not modelled: `fetch` of manifests, group files, playlists, XMLTV and events; `urllib` in `fetch-events.py`; webhook, gtag and fbq calls. Replies are parameters.
- Concurrency and timers are not modelled: the `queueRender` promise chain, countdown intervals, EPG auto-refresh, `setTimeout`, debounce and animation frames. The parallel group loads of `loadGroups` are modelled as all requests started, then settled one by one.
- Floating-point arithmetic is not modelled: completion and conversion rates, averages, percentages and progress bars.
- Clocks, locales and date parsing are not modelled: `Date.now()`, `Intl` and `toLocaleString` formatting, `new Date(string)`, and Python's `datetime.now`/`strptime` beyond the `YYYY-MM-DD` form. Times are integers (milliseconds, minutes or day numbers). The sub-second part of the clock in `fetch-events.py` is not modelled.
- Randomness is not modelled: the session id and the random A/B variant are parameters.
- Storage and parsers are not modelled: `localStorage`, `JSON.parse`/`stringify`, `DOMParser`, `json.loads`, ElementTree and minidom serialisation, PIL `Image.open` (its result is a parameter), directory walks and file reads and writes. Contents, file lists and file existence are parameters, and writes are results.
- Regular expressions are modelled as the literal, prefix or scanning tests they amount to for the patterns the scripts use. General Python and JavaScript regex semantics are not modelled. The nav-toggle pattern of `fix_nav_buttons.py` and the link patterns of `check_all_links.js` are not modelled at all: their matches are inputs.
- Unicode is not modelled: lower-casing and upper-casing are ASCII only. Trimming removes the six ASCII whitespace characters (space, tab, line feed, vertical tab, form feed, carriage return). JavaScript's `trim()` and `\s` also remove non-ASCII spaces such as no-break space and the line separators, and Python's `strip()` also removes the separators `\x1c` to `\x1f` and the non-ASCII spaces; the model keeps those characters.
- ChannelLists.JsInteger: `Number()` is modelled with exact arithmetic over the ECMA-262 StringNumericLiteral grammar (section 7.1.4.1.1). The double result is not modelled: integers above 2^53 are rounded to a neighbour ("9007199254740993" reads as 9007199254740992), values from about 1.8·10^308 overflow to Infinity, and very small ones underflow to 0.
- ChannelLists.JsIntegerOfDigits, ChannelLists.JsIntegerExponent and ChannelLists.JsIntegerRadix: the value read is exact. The source reads the same value only below 2^53.
- ChannelLists.Sanitise: `String(num)` writes integers of 10^21 and above in exponent form ("1e+21"), and past 2^53 it writes the rounded value. The model always writes every digit of the exact value.
- ChannelLists.SanitiseKeepsValues: holds in the source only for selector values below 2^53, because of the rounding above.
- ChannelLists.SanitiseIdempotent: is proved for the model's exact `Sanitise`. The source's outputs at and above 2^53 (rounded digits, or exponent form such as "1e+21") are not covered. They are idempotent there as well, because `Number` and `String` round-trip every double, but the model does not show it.
- ChannelLists.SanitiseLiteral, ChannelLists.SanitiseExponent and ChannelLists.SanitiseRadix: hold in the source only for values below 2^53.
- Console output and printed reports are not modelled.
- TranslationAudit.TranslationAuditor.RunAudit: the `languages` object is taken with distinct codes, as a Python dict holds them; a file naming a code twice (where `json.load` keeps the last value) is not modelled. A file that does not parse, or has no `languages` member, stops the script before the loop and is not modelled: the object is a constructor parameter. A failing run's partial state is not stated, since the script then ends with the exception.
- Sorting of file lists is not modelled: the Python `sorted(...)` calls of `inject_chatbot.py` and `fix_chatbot.py` are assumed done, and pages are taken in the order `main` visits them.
- `fix_chatbot.py`'s `should_process_file` is not modelled separately: it is the same rule as `ChatbotInjector.ShouldProcessFile`.
- `main` of `fix_nav_buttons.py` and its fixed-file counter are not modelled.
- `read_template` of `generate_lang_index.py` is not modelled: its result is never used. The language table is a parameter.
- `add_aspect_ratio_css` of `fix-cls-images.py` is not modelled: it returns its input and is never called.
- The language switcher's dropdown toggle, close-on-outside-click and Escape handlers, and `saveLanguagePreference`, are not modelled: they are DOM and storage only.
- In `fetch-events.py`, a null `strEvent` or `dateEvent` is read as the empty string. With a null `strEvent` the script's `.lower()` would raise, and the model does not capture that.
- The entry order of `Object.entries` in `getTopRecommendations` is an input order. Ties keep that order.
- UI-only scripts (`modern-effects.js`, `navigation.js`, `nav.js`, `catalog.js`) are not modelled, and neither are the data tables `epg-config.js` and `lazada-links.js`.
- ChatbotFix.FixClearsOld holds under `SnippetsDisjoint`, which says the old and new widget snippets cannot overlap. That fact about the two long constants is not proved inside the model. Both snippets contain `<!` only at their first position.
- ChatbotFix.FixTwiceSkips also relies on `SnippetsDisjoint`.
- VideoAltText.LabelledSkipped assumes that the rewritten attributes contain no `>`. This holds for every description in the table, but is not proved for those long literals.
- ResourceHints.RewrittenKept proves that the script-loading pass is idempotent for each tag. Idempotence of the whole page is not stated: a scan position that does not match could, in principle, read into a rewritten tag.
- SeoMetadata.KeysCleared holds only under `ValuesClear`, which says no value can complete a placeholder key across its boundary. Without it the statement is false: a value `{{PAGE_` followed by a key can build a new placeholder.
- LangIndex.CreateLangIndex: the literal rewrites (`lang`, locale, language name, the three addresses, the title) are proved step by step, each putting its replacement on the page it works on. The model does not prove that such a text is still on the finished page: a later meta substitution replaces everything up to the next quote, so a rewritten text that sits inside a meta value is cut away.
- LangIndex.CreateLangIndex: requires the configured title, description and keywords to hold no backslash. `re.sub` reads a backslash in its replacement as an escape (`\n`, `\\`) or a group reference, which fails here since the patterns have no groups; the model writes each value as it stands. The language table's values hold no backslash (the `\'` in the French description is a quote in Python's source).
- QuizNavigation.PackageQuiz.NextQuestion: the results container is taken to be on the page. Without it `showResults` skips `completeQuiz`, and the model does not capture that case.
- QuizNavigation.PackageQuiz: the times passed to the tracker (`Date.now()`) and the session id are parameters.
- TranslateBlog.ValidateLinks: of the regular-expression metacharacters a language code can bring into the two interpolated patterns, only `.` is modelled. Any other (`*`, `+`, `?`, `(`, `[`, `|`, a backslash) is read as a literal character. The table's codes contain none.
- TranslateBlog.ValidateArticle: the code is taken from the article's path, so the same holds for it: only a `.` in the path's first directory acts as a metacharacter in the model.
- QuizNavigation.PackageQuiz: the back and next buttons are taken to be on the page. When either is missing, `showQuestion` skips it, and `selectOption` throws on a missing next button; neither case is modelled.
