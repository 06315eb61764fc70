# Works catalog of bakushin.dev, modelled in Dafny

This project models the core of the portfolio site's works catalog.

- **Server side of the catalog page** (`app/all-works/page.js`):
  - find out where the content API stores each work's skill (nested custom-field group, direct field, or generic `metaData` list);
  - walk the API's cursor pagination up to a cap of 1000 works;
  - sort the works by `menuOrder`;
  - cut out the window of nine works for the requested page.
- **Client side** (`app/all-works/WorksClient.js`, `components/FetchLowerLayer/WorkOther.js`, `components/SSG/Works/SwiperGallery.js`):
  - the text helpers that render a card: tag stripping and truncation, `formatSkill`, `getCategoryName`, `getSkill`;
  - the column-count rule;
  - the page-number bar with its page URLs;
  - the probe skip chain and access-method decision of the related-works list;
  - the click guards, which make a card navigate to its detail page once.

Modules, one per concern:

| module | file | models |
|---|---|---|
| `Values` | values.dfy | JavaScript values as the helpers meet them: truthiness, `String(v)`, `filter`, `join` |
| `Works` | works.dfy | the work record and its `menuOrder` key |
| `Ordering` | ordering.dfy | `sortWorksByMenuOrder`: the copying sort of page.js and the in-place sort of WorkOther.js |
| `SkillShape` | skill_shape.dfy | `determineSkillStructure`, the WorkOther decision effect (a class), `getSkill` |
| `Aggregation` | aggregation.dfy | `fetchAllWorks`, against an independent description of what it computes |
| `Pager` | pager.dfy | the pagination arithmetic, `getPageUrl`, `renderPageNumbers` (a method with its loop), `Pagination` |
| `Display` | display.dfy | `truncateTitle`/`truncateExcerpt`, `formatSkill`, `getCategoryName`, the column rule, the gallery's skill expression |
| `Navigation` | navigation.dfy | the card click guard (a class), and the gallery's card/list guard (a class) |

The remote API is a sequence of answers:

- A probe is one of `ProbeFailed` or `ProbeData(sample)`.
- A page request is answered by the next element of a `seq<Response>`.
- A request beyond the end of that sequence fails.

Browser events are method calls on the guard objects: a click (with whether the link element exists), `animationend`, the timer's expiry, and unmount.

Two behaviours of the code that the model keeps:

- An empty catalog has `totalPages` 0. `Pagination` then renders nothing, and the current page is 1.
- One trigger's navigation leaves the other triggers of the card guard in place. The fallback timer stays scheduled, and its call to `navigate` does nothing because of the closure's `navigationTriggered` flag. Unmount is what clears the timer.

## Model

| member | source | states |
|---|---|---|
| Values.NatToString | app/all-works/WorksClient.js:70 | the decimal notation of a page number: at least one digit, digits only, no leading zero |
| Values.ParseNatToString | app/all-works/WorksClient.js:70 | reading the decimal notation back gives the number, so distinct pages get distinct URLs |
| Values.FilterTruthy | app/all-works/WorksClient.js:29 | `filter((s) => s)` keeps only truthy elements, adds none, and never lengthens the list |
| Values.FilterTruthyKeepsTruthy | app/all-works/WorksClient.js:29 | every truthy element of the input is in the output |
| Values.FilterTruthyIdempotent | app/all-works/WorksClient.js:29 | filtering a filtered list changes nothing |
| Values.FilterTruthyAppend | app/all-works/WorksClient.js:29 | a truthy element appended to the input is appended to the output |
| Values.FilterTruthyAppendFalsy | app/all-works/WorksClient.js:29 | a falsy element appended to the input leaves the output as it was; with `FilterTruthyAppend` this fixes the output, in input order, for every list |
| Values.JoinAppend | app/all-works/WorksClient.js:29 | `join` of the parts plus one more is the old join, the separator and the new part |
| Values.ToStrings | app/all-works/WorksClient.js:29 | element-wise `String`, same length |
| Works.MenuKey | app/all-works/page.js:156-157 | the key `menuOrder \|\| 0`: a work without `menuOrder` sorts as 0, any other by its own value |
| Ordering.MenuOrderSorted | app/all-works/page.js:155-159 | the stable sort by key keeps the length of its input; `SortSortsAndPermutes` and `SortIsStable` state the rest |
| Ordering.SortWorksByMenuOrder | app/all-works/page.js:151-160 | a non-array input gives []; otherwise the result is a permutation of the input in non-decreasing `menuOrder \|\| 0` |
| Ordering.SortSortsAndPermutes | app/all-works/page.js:155-159 | the stable sort returns a permutation of its input, sorted by key |
| Ordering.InsertAfterPermutes | app/all-works/page.js:155-159 | one insertion step adds exactly the inserted work |
| Ordering.InsertAfterSorted | app/all-works/page.js:155-159 | inserting into a sorted list keeps it sorted |
| Ordering.WithKeyAppend | app/all-works/page.js:155-159 | the works with a given key in a concatenation are those of each part, in order |
| Ordering.InsertAfterStable | app/all-works/page.js:155-159 | an insertion step keeps, for every key, the order of the works with that key |
| Ordering.SortIsStable | app/all-works/page.js:155-159 | for every key, the works with that key appear in the sorted list in their input order |
| Ordering.SortOfSortedIsIdentity | app/all-works/page.js:155-159 | a list already in key order is returned unchanged |
| Ordering.SortIdempotent | app/all-works/page.js:155-159 | sorting the sorted result returns it unchanged |
| Ordering.SortInPlace | components/FetchLowerLayer/WorkOther.js:22-28 | returns the very array it was given, whose contents become the stable sort of its old contents |
| Ordering.InsertIntoPrefix | components/FetchLowerLayer/WorkOther.js:23-27 | one pass of the in-place sort: the first i+1 slots become the stable insertion of slot i into the sorted prefix, and the rest is untouched |
| Aggregation.FetchAllWorks | app/all-works/page.js:231-267 | every call first requests 100 works after the cursor it was given |
| Aggregation.FetchAll | app/all-works/page.js:273 | the aggregation starts with a request for 100 works and no cursor; `FetchAllDescribed` states the whole run |
| Aggregation.StopFrom | app/all-works/page.js:244-259 | the first request, at or after a given one, whose answer leads to no further request |
| Aggregation.Take | app/all-works/page.js:245 | `slice(0, n)`: a prefix of the list, exactly n works long when the list is longer and the whole list otherwise |
| Aggregation.StopFromContinues | app/all-works/page.js:250-259 | every answer before the stop is a success that links onward with fewer than 1000 works gathered |
| Aggregation.StopIsFirst | app/all-works/page.js:244-259 | the stop is exactly the first answer that does not continue |
| Aggregation.GatheredPrefix | app/all-works/page.js:242 | the works gathered after n answers are a prefix of those gathered after m ≥ n answers |
| Aggregation.FetchAllWorksFrom | app/all-works/page.js:231-267 | from any point with fewer than 1000 works gathered, the requests run up to the stop and the result is that stop's outcome |
| Aggregation.RequestsFrom | app/all-works/page.js:233-239 | the request at each step asks for 100 works after the previous page's end cursor |
| Aggregation.FetchAllDescribed | app/all-works/page.js:231-267 | one request per answer up to and including the first non-continuing one. Request j carries the end cursor of page j-1 (none for the first). The result is the sorted works gathered before a failed request, or the sort of at most the first 1000 works gathered up to and including the last answer |
| Aggregation.FetchAllCapped | app/all-works/page.js:244-248 | the aggregation never returns more than 1000 works |
| Aggregation.FetchAllOfChain | app/all-works/page.js:241-262 | on a well-formed chain of successful pages, the result is the sort of the first min(total, 1000) works in arrival order (truncation before sorting) |
| Aggregation.FetchAllKeepsPartialResult | app/all-works/page.js:263-266 | when request k fails after k continuing answers, the result is the sorted accumulation of the k earlier pages: nothing gathered is lost |
| Aggregation.ContinuingStep | app/all-works/page.js:241-258 | when an answer continues, the call makes its request and returns what the call for the next page returns, with the cursor of the answered page |
| Aggregation.ThreePagesOfHundred | app/all-works/page.js:231-267 | three linked pages of 100 end after three requests, the last carrying the second page's cursor, with the sort of all 300 works |
| Aggregation.ThreePagesGathered | app/all-works/page.js:242 | the three pages gather a, then a+b, then a+b+c |
| SkillShape.QueryFor | components/FetchLowerLayer/WorkOther.js:435 | the unknown access method runs the nested query |
| SkillShape.FindSkillMeta | app/all-works/page.js:209-211 | finds an entry iff some entry's key is "skill" or "_skill", and what it finds is one of the entries |
| SkillShape.NestedFound | app/all-works/page.js:172-175 | the nested probe succeeds iff it returned a sample from which the nested accessor reads a defined skill |
| SkillShape.DirectFound | app/all-works/page.js:190-193 | the direct probe succeeds iff it returned a sample from which the direct accessor reads a defined skill |
| SkillShape.MetaFound | app/all-works/page.js:208-212 | the meta probe succeeds iff it returned a sample with `metaData` holding an entry keyed "skill" or "_skill" |
| SkillShape.DetermineSkillStructure | app/all-works/page.js:163-228 | never unknown; the chosen shape's probe found the skill, or none did and it is nested; no shape earlier in the order nested, direct, meta found it |
| SkillShape.NestedHasPriority | app/all-works/page.js:172-178 | a successful nested probe decides the shape whatever the other probes say |
| SkillShape.DecideAccess | components/FetchLowerLayer/WorkOther.js:408-444 | unknown iff no probe found the skill; otherwise the first shape, by priority, whose probe found it |
| SkillShape.DecisionAgreesWithResolution | components/FetchLowerLayer/WorkOther.js:408-444 | the client decision and the server resolution run the same work query and differ only in naming the fallback |
| SkillShape.GetSkill | app/all-works/WorksClient.js:39-60 | a missing work gives ""; nested reads `works.skill` (`undefined` without a `works` group); direct reads `skill`; meta reads the first "skill"/"_skill" entry's value, `undefined` when `metaData` has no such entry; the unknown shape, and meta without `metaData`, give the fallback chain `FallbackSkill`; `undefined` comes out only for a known shape |
| SkillShape.FallbackSkill | app/all-works/WorksClient.js:55-59 | the nested skill if defined, else the direct skill if defined, else ""; never undefined |
| SkillShape.AccessorReadsWhatProbeFound | components/FetchLowerLayer/WorkOther.js:493-512 | on a work on which a shape's probe succeeds, that shape's accessor reads the defined `works.skill` (nested), the defined `skill` (direct), or the first skill entry's value (meta) |
| SkillShape.ResolvedAccessorOnSample | app/all-works/page.js:163-228 | after resolution, the chosen accessor reads, from the sample that decided it, what the probe found: `works.skill` for nested, `skill` for direct, the first skill entry's value for meta |
| SkillShape.DataOf | components/FetchLowerLayer/WorkOther.js:315-360 | only a loaded probe has data; skipped, loading and failed probes count as misses |
| SkillShape.DirectSkipped | components/FetchLowerLayer/WorkOther.js:330-337 | the direct probe is skipped before mount; when it runs, the nested probe has settled and the decision cannot be nested whatever the later probes return |
| SkillShape.MetaSkipped | components/FetchLowerLayer/WorkOther.js:346-357 | the meta probe is skipped whenever the direct probe is; when it runs, the direct probe has settled and the decision is meta or unknown whatever the meta probe returns |
| SkillShape.SkippingIsSafe | components/FetchLowerLayer/WorkOther.js:330-357 | skipping the direct probe after a nested success, or the meta probe after an earlier success, never changes the decision |
| SkillShape.AccessDecision.constructor | components/FetchLowerLayer/WorkOther.js:291-293 | before mount, no access method and no final query |
| SkillShape.AccessDecision.Mount | components/FetchLowerLayer/WorkOther.js:363-369 | mounting sets `isClient` and changes nothing else |
| SkillShape.AccessDecision.Decide | components/FetchLowerLayer/WorkOther.js:398-444 | no decision before mount or while any probe loads; otherwise the access method becomes `DecideAccess` of the probes' data, the final query is the one for that method, and the main query is no longer skipped |
| SkillShape.AccessDecision.MainQuery | components/FetchLowerLayer/WorkOther.js:459-460 | the decided method's query, or the nested query before a decision |
| SkillShape.AccessDecision.MainQuerySkipped | components/FetchLowerLayer/WorkOther.js:465 | the main query is held back before mount and before a decision; when it runs, it is the query of the decided access method |
| SkillShape.AccessDecision.SkillOf | components/FetchLowerLayer/WorkOther.js:493-512 | a card's skill is `getSkill` with the decided access method: `works.skill` for nested, `skill` for direct, the skill entry's value for meta (as `GetSkill` states each); before a decision, the fallback chain |
| Pager.Paginate | app/all-works/page.js:281-300 | `totalPages` is the ceiling of total/9 (0 iff no works); the requested page is clamped into 1 .. max(totalPages, 1); next iff current < totalPages; previous iff current > 1 |
| Pager.PaginateWindow | app/all-works/page.js:286-300 | the page shows works (p-1)*9 .. p*9-1 that exist, at most nine; every page but the last is full; the caption counts exactly the works shown, and 0-0 when empty |
| Pager.PagesUpToPrefix | app/all-works/page.js:286-288 | pages 1 .. k laid end to end are the first min(9k, total) works |
| Pager.PagesCoverCatalog | app/all-works/page.js:281-288 | all pages laid end to end give back the whole catalog |
| Pager.TwentyThreeWorksPageFive | app/all-works/page.js:281-300 | 23 works with page 5 requested give page 3 of 3, works 18 .. 22, caption 19-23, no next page |
| Pager.PrevNextStayInRange | app/all-works/page.js:297-298 | the previous and next links lead to pages that exist |
| Pager.PageOfSortedIsSorted | app/all-works/page.js:286-288 | the page cut from a sorted catalog has at most nine works and is sorted |
| Pager.SliceSorted | app/all-works/page.js:288 | a slice of a sorted list is sorted |
| Pager.GetAllWorksWithPagination | app/all-works/page.js:270-303 | the shape is never unknown; at most 1000 works in all, at most nine shown, in `menuOrder` order |
| Pager.FetchAllSorted | app/all-works/page.js:247-265 | whatever the answers, the aggregated works are sorted by `menuOrder` |
| Pager.PageUrl | app/all-works/WorksClient.js:68-71 | every page URL begins with the base path, and it is the base path itself iff the page is 1 |
| Pager.PageUrlRoundTrip | app/all-works/WorksClient.js:68-71 | the page number is recovered from its URL: page 1 is the base path, page n the base path plus `/page/n` |
| Pager.PageUrlInjective | app/all-works/WorksClient.js:68-71 | distinct pages have distinct URLs |
| Pager.PageWindow | app/all-works/WorksClient.js:75-81 | 1 ≤ start ≤ end ≤ total, the window is min(5, total) pages wide, and a valid current page lies inside it |
| Pager.WindowLinks | app/all-works/WorksClient.js:98-110 | one link per page of the window |
| Pager.WindowLinksAt | app/all-works/WorksClient.js:98-110 | the k-th link of the window is page start+k with its URL, marked current iff it is the current page |
| Pager.RenderPageNumbers | app/all-works/WorksClient.js:73-132 | the loop builds exactly the page-number bar `PageNumbers` |
| Pager.PushWindow | app/all-works/WorksClient.js:98-110 | the `for` loop appends the window's links to what was pushed before |
| Pager.WindowBounds | app/all-works/WorksClient.js:75-81 | the reassigned `startPage`/`endPage` end up as the page window |
| Pager.PageNumbers | app/all-works/WorksClient.js:83-129 | the bar holds the window's min(5, total) links and at most four more items: page 1, the last page and two dots |
| Pager.PageNumbersAt | app/all-works/WorksClient.js:83-129 | position by position, the bar is: a link to page 1 and dots (only when the window starts after page 2) before the window; the window's links, with the current page marked; dots (only when the window ends before the last page but one) and a link to the last page after it |
| Pager.PageNumbersEnds | app/all-works/WorksClient.js:83-129 | the bar begins with a link to page 1 and ends with a link to the last page |
| Pager.PageNumbersIncreasing | app/all-works/WorksClient.js:83-129 | the page numbers on the bar are strictly increasing |
| Pager.PageNumbersDots | app/all-works/WorksClient.js:89-119 | leading dots appear iff the window starts after page 2, and trailing dots iff it ends before the last page but one |
| Pager.PageNumbersLinkSet | app/all-works/WorksClient.js:83-129 | a page is linked iff it is the first, the last, or inside the window |
| Pager.PageNumbersMarkCurrent | app/all-works/WorksClient.js:103-105 | a link is styled as current iff it is the current page |
| Pager.Pagination | app/all-works/WorksClient.js:63-157 | nothing for at most one page; otherwise a previous link iff there is a previous page, the bar, and a next link iff there is a next page, with the right URLs |
| Display.SkipTag | app/all-works/WorksClient.js:21 | skipping a tag never lengthens the text |
| Display.StripTags | app/all-works/WorksClient.js:21 | the result contains no '<' and is no longer than the input |
| Display.SkipTagClosed | app/all-works/WorksClient.js:21 | `[^>]*>` consumes a tag body without '>' and its closing '>' |
| Display.SkipTagUnclosed | app/all-works/WorksClient.js:21 | with no closing '>', `[^>]*` consumes the rest of the text |
| Display.StripTagsRemovesClosedTag | app/all-works/WorksClient.js:21 | for all texts: plain text before a closed tag is kept, the tag goes with both brackets, and stripping carries on after it |
| Display.StripTagsRemovesUnclosedTag | components/FetchLowerLayer/WorkOther.js:195 | for all texts: plain text before a '<' that no '>' follows is kept, and everything from the '<' on goes |
| Display.StripTagsKeepsPlainText | app/all-works/WorksClient.js:21 | text without '<' is left unchanged |
| Display.StripTagsIdempotent | app/all-works/WorksClient.js:21 | stripping twice strips nothing more |
| Display.StripTagsClosedExample | app/all-works/WorksClient.js:21 | closed tags are removed with their brackets |
| Display.StripTagsUnclosedExample | app/all-works/WorksClient.js:21 | an unclosed '<' removes the rest of the text |
| Display.Truncate | app/all-works/WorksClient.js:19-24 | falsy gives ""; the result has no '<' and at most max+3 characters; plain text of at most max characters is returned as is, longer text is cut to its first max characters plus "..." |
| Display.TruncateKeepsShortText | app/all-works/WorksClient.js:22 | a short plain string is returned unchanged |
| Display.TruncateStable | app/all-works/WorksClient.js:19-24 | a result that was not cut is a fixed point |
| Display.TruncateTitle | components/FetchLowerLayer/WorkOther.js:193-198 | at most 28 characters, no '<', "" for a falsy title |
| Display.TruncateExcerpt | components/FetchLowerLayer/WorkOther.js:200-205 | at most 33 characters, no '<', "" for a falsy excerpt |
| Display.LongTitleIsCut | components/SSG/Works/SwiperGallery.js:44-48 | a 30-character plain title becomes its first 25 characters plus "..." |
| Display.FormatSkill | app/all-works/WorksClient.js:26-32 | falsy gives ""; a truthy non-array gives `String(value)`; an array with no truthy element, `[]` included, gives "" |
| Display.FormatSkillIgnoresFalsy | app/all-works/WorksClient.js:29 | falsy array elements do not show |
| Display.FormatSkillAppend | app/all-works/WorksClient.js:29 | a truthy element appended to the array is appended to the text, after ", " unless it is the first shown |
| Display.FormatSkillShowsText | components/FetchLowerLayer/WorkOther.js:208-212 | a skill that is a string, as a meta entry's value or a direct field may be, is shown exactly as it is (the empty string as "") |
| Display.FormatSkillExample | components/SSG/Works/SwiperGallery.js:50-53 | ["React", null, "", "Next.js"] gives "React, Next.js" |
| Display.CategoryName | app/all-works/WorksClient.js:34-37 | "" for a missing work, missing categories or no category; otherwise the first category's name |
| Display.CategoryNameIsOwn | components/SSG/Works/SwiperGallery.js:55-58 | a non-empty category name is the name of one of the work's categories |
| Display.ColumnCount | components/FetchLowerLayer/WorkOther.js:298-307 | between 1 and 3; 1 iff width ≤ 767; 3 iff width > 1023 |
| Display.ColumnCountMonotone | app/all-works/WorksClient.js:233-242 | a wider window never has fewer columns |
| Display.GallerySkill | components/SSG/Works/SwiperGallery.js:197 | the nested skill if truthy, else the direct skill if truthy, else "" |
| Display.GallerySkillMatchesFallback | components/SSG/Works/SwiperGallery.js:197 | the gallery shows what the fallback chain of `getSkill` would, except when the nested skill is defined but falsy and the direct one truthy |
| Display.GallerySkillDiffersOnNullNested | components/SSG/Works/SwiperGallery.js:197 | a work whose nested skill is null shows its direct skill in the gallery but nothing on the catalog's fallback path |
| Navigation.CardNavigator.constructor | app/all-works/WorksClient.js:162-164 | a fresh card list: mounted, no slug clicked, nothing in progress, nothing pushed |
| Navigation.CardNavigator.Navigate | app/all-works/WorksClient.js:186-191 | the first call pushes the detail route of the clicked slug; later calls push nothing |
| Navigation.CardNavigator.Click | app/all-works/WorksClient.js:167-218 | ignored while a slug is recorded or navigation is in progress; otherwise records the slug, attaches the listener iff the link exists, schedules the timer, and navigates at once iff the link is absent |
| Navigation.CardNavigator.AnimationEnd | components/FetchLowerLayer/WorkOther.js:257-264 | the listener fires once; if it was attached, the detail route has been pushed exactly once afterwards |
| Navigation.CardNavigator.TimerElapsed | components/FetchLowerLayer/WorkOther.js:268-271 | a pending timer fires once; afterwards the detail route has been pushed exactly once |
| Navigation.CardNavigator.Unmount | components/FetchLowerLayer/WorkOther.js:280-287 | unmount clears the pending timer and drops the listener; nothing is pushed |
| Navigation.AcceptedIsUnique | app/all-works/WorksClient.js:171-174 | at most one click of a run is accepted |
| Navigation.Run | app/all-works/WorksClient.js:167-227 | over any run of events: at most one push, none without an accepted click, and only to the accepted slug's detail route. It pushes for certain when the link is absent, or when the timer or (with a link) the animation fires before unmount. When the link is present and unmount comes before any trigger, it never pushes |
| Navigation.DoubleClickScenario | app/all-works/WorksClient.js:171-174 | two quick clicks with both triggers firing push only the first slug's route, once |
| Navigation.MissingLinkScenario | app/all-works/WorksClient.js:213-217 | a card without its link element navigates at once, and the timer adds nothing |
| Navigation.UnmountBeforeFireScenario | app/all-works/WorksClient.js:220-227 | leaving the page before either trigger fires cancels the navigation |
| Navigation.RouteOfCard | components/SSG/Works/SwiperGallery.js:93-116 | a timer pushes a detail route with a non-empty slug iff it is a card's timer whose slug is non-empty; the list button's timer pushes "/all-works" |
| Navigation.CardTimersRemove | components/SSG/Works/SwiperGallery.js:93-116 | firing a timer takes exactly its own contribution off the count of pending card navigations |
| Navigation.CardRoutesPush | components/SSG/Works/SwiperGallery.js:95 | pushing a route adds one card navigation iff it is a detail route |
| Navigation.GalleryNavigator.constructor | components/SSG/Works/SwiperGallery.js:63 | no slug clicked, nothing scheduled, nothing pushed |
| Navigation.GalleryNavigator.CardClick | components/SSG/Works/SwiperGallery.js:71-97 | ignored while `clickedWorkSlug` is truthy; otherwise records the slug and schedules one push of its detail route; keeps exactly one card navigation once armed |
| Navigation.GalleryNavigator.ListClick | components/SSG/Works/SwiperGallery.js:100-117 | ignored while `clickedWorkSlug` is truthy; otherwise schedules one push of "/all-works" and leaves the guard unset |
| Navigation.GalleryNavigator.Fire | components/SSG/Works/SwiperGallery.js:93-96 | a pending timer fires: its route is pushed and it leaves the pending list |
| Navigation.RunGallery | components/SSG/Works/SwiperGallery.js:71-117 | however clicks and timers interleave, at most one push goes to a detail route with a non-empty slug |
| Navigation.GalleryCardFirstScenario | components/SSG/Works/SwiperGallery.js:75-76 | after a card click, neither another card nor the list button schedules anything |
| Navigation.GalleryListThenCardScenario | components/SSG/Works/SwiperGallery.js:100-117 | the list button does not arm the guard: a card clicked before its timer fires also navigates, so two routes are pushed |

## Left out

- Query strings, the Apollo client setup, `useQuery` fetch and skip policies, `onCompleted`/`onError` logging and `devLog` are not modelled. A probe is one of three abstract outcomes, and a page request is answered by the next element of a sequence of answers.
- A request beyond the end of that sequence counts as a failed fetch.
- Because the answers are a finite sequence, every run of the aggregation ends. The recursion of app/all-works/page.js:231-267 has no such bound: an API that keeps answering linked pages below the 1000 cap, for example empty pages with `hasNextPage` and a cursor, keeps it requesting forever. The model does not capture that non-termination.
- A missing `endCursor` is the empty string, which is falsy just as `null` is.
- Rendering is not modelled: JSX markup, CSS class wiring, `classList`, `querySelector`, the Swiper configuration and image props. Whether a card's link element exists is an argument of the click.
- The animation itself and its delay arithmetic (floating point) are not modelled. The animation ending and the timer expiring are events.
- React state updates take effect at once. A second click that arrives before React re-renders the handler, and so still sees the stale `clickedWorkSlug`, is not modelled.
- The clock is not modelled. Timers fire when an event says so, and the gallery's timers may fire in any order, so the 500 ms and 800 ms deadlines do not order them.
- The gallery has no unmount cleanup, so its timers are never cleared. The model has no unmount event for it.
- In the card guard, unmount removes the link element and, with it, the `animationend` listener. The model drops the listener together with the timer.
- A click after unmount cannot happen in the browser; the model ignores one.
- `menuOrder` is an integer or missing. Floating-point and `NaN` orders, and non-numeric values that JavaScript would coerce, are not modelled.
- `JsValue` has no plain objects or floating-point numbers, so `String(v)` of those is not modelled.
- Strings are sequences of characters. UTF-16 code units, which `length` and `substring` count, are not distinguished from characters.
- The error record of `getAllWorksWithPagination` (app/all-works/page.js:304-320: no works, `totalPages` 0) is not modelled. It is reached only through exceptions from outside calls.
- The probes' own exceptions are modelled as `ProbeFailed`.
- The main query's result list in components/FetchLowerLayer/WorkOther.js is not modelled: its six works, the exclusion of the current work (done by the query's `notIn` argument), the empty and error states, and the logging check that the current work is absent.
- WorkOther.js defines its in-place `sortWorksByMenuOrder` but does not call it (the call at components/FetchLowerLayer/WorkOther.js:600 is commented out). `Ordering.SortInPlace` models the definition.
- `SortInPlace` is an insertion sort. JavaScript's `Array.prototype.sort` is stable, so the resulting order is the same; the engine's own algorithm and its comparison count are not modelled.
- Aggregation.FetchAllWorks: its own contract states only the first request. The full result is stated by `FetchAllDescribed`.
- Pager.WindowLinks: its contract states only the length. The elements are stated by `WindowLinksAt`.
