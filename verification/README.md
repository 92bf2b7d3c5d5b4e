# Deepercards core, modelled in Dafny

Deepercards is a swipe-card conversation app. The user swipes through questions:

- right for "discussed";
- left for "save for later".

The user also picks the categories whose questions are queued and reviews answered and saved questions in a journal. A small admin area lets an administrator manage questions and categories on an Express server.

This project models the logic at the centre of that system, as pure Dafny functions and methods over immutable datatypes:

- the **card queue** (`Selector`): which questions are queued, which four are drawn, which card a swipe reports, and how an unknown category affects the stack;
- the **gesture decision** of a swipe card (`Gesture`), with the literal thresholds 80 px and 400 px/s and strict comparisons;
- the **progress reducers** of the home page (`Home`): swipe right and left, toggle a filter, show all, clear all, move to top and the filter initialisation. It also covers an event-sequence semantics with the invariants it keeps;
- the **progress record** and its browser persistence (`Progress`, `LocalStore`);
- the **journal** and **bottom navigation** derivations (`Journal`, `Nav`);
- the **category and question fixtures** (`Catalog`);
- the **question admin page** (`AdminQuestions`): the add-form check, the CSV import parser and the search filter;
- the **category admin page** (`AdminCategories`): the two order requests behind move up and move down, and the edit payload, together with what the server does with them;
- the **server storage**, as an in-memory table (`Storage`): ordering of categories, the question filter, bulk creation, order and field updates, and the per-category count;
- the **route decisions** (`Routes`): the admin guard, the `categoryIds` query, the dashboard statistics, bulk-import partitioning and the order endpoint;
- the **local seed** (`LocalSeed`): the nine test questions and the insert-unless-the-text-exists filter.

JavaScript primitives the code relies on are modelled explicitly. `Text` covers `trim`, `split`, `join`, `toLowerCase`, `includes` and the quote-stripping regular expression. `Decimal` covers `parseInt(s, 10)` as a decimal-prefix parse, with `NaN` as `None`, and `String(n)`.

Where the program's documentation and its code disagree, the model follows the code:

- The swipe thresholds are 80 px and 400 px/s in the code, not the 100 and 500 of the documentation.
- Swipes append the id to `answeredQuestions` or `savedForLater` without de-duplicating.
- No handler writes `shownQuestionsPerCategory`. The cap is read, but since the counter stays as loaded it never bites from the default progress (`Home.CapNeverBitesFromDefault`).
- A question whose category is unknown is not excluded from the queue. It stays queued, is not drawn, and still holds its position. See "## Findings".
- The default progress has filters `[1, …, 9]`, not `[]`.
- The visible window is exactly the first four queued questions.

## Model

| member | source | states |
|---|---|---|
| Catalog.FindCategory | client/src/components/CardStack.tsx:88 | `categories.find` by id: `None` exactly when no category has the id; otherwise a listed category with that id |
| Catalog.DefaultCategories | client/src/lib/categories.ts:18-28 | nine default categories with ids 1 to 9, each with `order` equal to its id |
| Catalog.DefaultCategoriesDistinctAndOrdered | client/src/lib/categories.ts:18-28 | the default categories have pairwise distinct ids and strictly ascending orders |
| Catalog.MockQuestions | client/src/lib/categories.ts:38-51 | twelve free sample questions with ids 1 to 12, each in a category 1 to 9 |
| Catalog.MockQuestionsReferenceDefaultCategories | client/src/lib/categories.ts:38-51 | every sample question's category is found among the default categories, so none is orphaned |
| Progress.ShownCount | client/src/components/CardStack.tsx:36 | a category missing from `shownQuestionsPerCategory` reads as 0; otherwise the stored count |
| Progress.DefaultProgress | client/src/lib/useLocalStorage.ts:34-39 | nothing answered or saved, filters 1 to 9 in order, no shown counts |
| Progress.DefaultFiltersAreDefaultCategories | client/src/lib/useLocalStorage.ts:37 | the default filter list is exactly the ids of the default categories, in their order |
| LocalStore.Load | client/src/lib/useLocalStorage.ts:4-12 | the initial state is the decoded stored text when the key holds non-empty text that decodes and reading succeeds; in every other case it is `initialValue` |
| LocalStore.Set | client/src/lib/useLocalStorage.ts:14-22 | the new state is the value or the updater applied to the current state; a permitted write stores its encoding under the key, a refused one leaves the store as it was |
| LocalStore.ReloadSeesLastWrite | client/src/lib/useLocalStorage.ts:4-22 | write-through: reopening after a successful write yields exactly the state just set, for any value that survives its own encoding |
| LocalStore.SetKeepsOtherKeys | client/src/lib/useLocalStorage.ts:18 | a write under one key leaves every other key's stored text unchanged |
| Selector.Queue | client/src/components/CardStack.tsx:30-42 | the queue is an order-preserving subsequence of the questions; a question is in it iff its category is filtered in, it is neither answered nor saved, and it is premium or its category's shown count is below the cap |
| Selector.PremiumIgnoresCap | client/src/components/CardStack.tsx:36-39 | whether a premium question is queued does not depend on the cap |
| Selector.QueueAfterResolving | client/src/components/CardStack.tsx:33-34 | appending an id to answered or saved turns the queue into the old queue with that id's questions removed |
| Selector.QueueAfterResolvingHead | client/src/components/CardStack.tsx:31-41 | with unique question ids, resolving the head leaves exactly the old queue's tail |
| Selector.VisibleCards | client/src/components/CardStack.tsx:46 | the drawn cards are the first min(4, queue length) queued questions, in queue order |
| Selector.SwipeTarget | client/src/components/CardStack.tsx:48-60 | a swipe reports the first visible card's id, and nothing when no card is visible |
| Selector.SwipeTargetIsQueueHead | client/src/components/CardStack.tsx:46-60 | the reported id is that of the head of the whole queue, and none for an empty queue |
| Selector.Render | client/src/components/CardStack.tsx:87-128 | one slot per visible card; a slot is empty iff its category is unknown; otherwise it carries the question and its category, and only position 0 is top and gets handlers |
| Selector.OrphanHeadLeavesNoTopCard | client/src/components/CardStack.tsx:88-91 | when the head's category is unknown, no drawn card is interactive |
| Selector.RenderableQueue | client/src/components/CardStack.tsx:30-42 | the corrected queue: an order-preserving subsequence holding exactly the queued questions whose category is known |
| Selector.RenderableHeadIsInteractive | client/src/components/CardStack.tsx:87-128 | with the corrected queue, a non-empty stack always draws an interactive top card at position 0 |
| Gesture.DragEnd | client/src/components/SwipeCard.tsx:45-90 | not top: ignored; right iff top, a right handler, and offset > 80 or velocity > 400; left iff top, right did not fire, a left handler, and offset < -80 or velocity < -400; otherwise snap back |
| Gesture.ThresholdsAreStrict | client/src/components/SwipeCard.tsx:48-52 | releases within both thresholds, boundaries included, spring back |
| Gesture.RightWinsTies | client/src/components/SwipeCard.tsx:51-67 | a release past the right and the left thresholds at once commits right |
| Gesture.MirrorSwapsDirection | client/src/components/SwipeCard.tsx:51-52 | away from such ties, mirroring a gesture mirrors the decision, and snap-backs stay snap-backs |
| Gesture.SampleReleases | client/src/components/SwipeCard.tsx:48-52 | sample drags and flicks in both directions, a short drag, and the exact boundary |
| Gesture.MissingRightHandlerFallsThrough | client/src/components/SwipeCard.tsx:54-67 | without a right handler, a release past both thresholds falls through to left, and a rightward one springs back |
| Nav.IsActive | client/src/components/BottomNav.tsx:24 | a tab is active exactly when it is the active tab |
| Nav.ExactlyOneActive | client/src/components/BottomNav.tsx:13-24 | the three tabs are listed once each, and exactly one listed tab is active: the active tab itself |
| Nav.Click | client/src/components/BottomNav.tsx:29 | clicking a tab passes that tab, which then is the active one |
| Nav.Badge | client/src/components/BottomNav.tsx:39-45 | a badge exists iff the tab is the journal and the saved count is positive; it reads "99+" iff the count is above 99, and otherwise the count's decimal digits without a leading zero, which `parseInt` reads back as the count |
| Nav.BadgeIsShort | client/src/components/BottomNav.tsx:45 | a badge is at most three characters long |
| Home.SwipeRight | client/src/pages/Home.tsx:40-45 | the id is appended once to `answeredQuestions`, which grows by exactly that occurrence; every other field is unchanged |
| Home.SwipeLeft | client/src/pages/Home.tsx:47-52 | the id is appended once to `savedForLater`, which grows by exactly that occurrence; every other field is unchanged |
| Home.ToggleCategory | client/src/pages/Home.tsx:54-61 | the category's membership flips and no other id's does; an absent id is appended at the end; a present one is removed everywhere, keeping the order of the rest |
| Home.ToggleTwiceRestoresMembership | client/src/pages/Home.tsx:54-61 | toggling twice restores which categories are selected |
| Home.ToggleTwiceRestoresAbsent | client/src/pages/Home.tsx:54-61 | toggling an unselected category twice restores the exact progress record |
| Home.ShowAll | client/src/pages/Home.tsx:63-68 | the filter becomes the ids of the loaded categories, in list order; nothing else changes |
| Home.ClearAll | client/src/pages/Home.tsx:70-75 | the filter becomes empty; nothing else changes |
| Home.ClearAllEmptiesQueue | client/src/pages/Home.tsx:70-75 | after clearing the filter nothing is queued |
| Home.MoveToTop | client/src/pages/Home.tsx:77-83 | every occurrence of the id leaves `savedForLater`, others stay in order, answers, filters and counts are untouched, and the home tab opens |
| Home.InitFilters | client/src/pages/Home.tsx:85-92 | with categories loaded and an empty filter, the filter becomes every category id; otherwise nothing changes; once categories are loaded the filter is non-empty |
| Home.HomeQueue | client/src/components/CardStack.tsx:25-42 | an order-preserving subsequence of the questions holding exactly those filtered in, neither answered nor saved, and premium or from a category shown fewer than 10 times |
| Home.DragOn | client/src/pages/Home.tsx:143-149 | on a stack drawn from a queue: off position 0, or without a drawn head, nothing changes; at position 0 with a drawn head, a right commit answers the head, a left commit saves it, and any other release changes nothing, exactly as the card's drag-end decision says |
| Home.DragEndAt | client/src/pages/Home.tsx:143-149 | a drag changes the state only at stack position 0 and only by swiping the head of the queue right or left; with the head drawn, which of the two (or neither) is the one the drag-end decision picks |
| Home.DragCommitAdvancesQueue | client/src/pages/Home.tsx:40-52 | with unique question ids, a committed drag leaves the old queue's tail as the new queue |
| Home.FirmRightDragAnswersHead | client/src/pages/Home.tsx:40-45 | a release past 80 px or 400 px/s to the right on a drawn top card marks the head question discussed |
| Home.FirmLeftDragSavesHead | client/src/pages/Home.tsx:47-52 | a release past 80 px or 400 px/s to the left, and past neither to the right, saves the head question for later |
| Home.OrphanHeadFreezesStack | client/src/components/CardStack.tsx:87-91 | as written, an unknown category at the queue head makes every drag at every position a no-op |
| Home.OrphanHeadExample | client/src/components/CardStack.tsx:87-91 | a concrete state: an orphaned question queued ahead of a normal one blocks both, even with a 500 px drag |
| Home.CorrectedStackNeverFreezes | client/src/components/CardStack.tsx:87-128 | with orphans left out of the queue, a firm right drag on a non-empty stack always answers its head |
| Home.Step | client/src/pages/Home.tsx:40-92 | no event changes `shownQuestionsPerCategory`, and no event removes or reorders an answer: the old answered list is a prefix of the new one |
| Home.Run | client/src/pages/Home.tsx:40-92 | after any sequence of events the answered list starts with the one the sequence began with |
| Home.StepKeepsConsistent | client/src/pages/Home.tsx:40-83 | every event keeps the progress consistent: no id answered twice, none saved twice, none both answered and saved |
| Home.RunKeepsConsistent | client/src/pages/Home.tsx:40-92 | any sequence of events keeps the progress consistent |
| Home.RunKeepsShownCounts | client/src/pages/Home.tsx:40-92 | after any sequence of events the shown counts are those it started with |
| Home.CapNeverBitesFromDefault | client/src/components/CardStack.tsx:36-39 | from the default progress, after any events, the queue holds exactly the filtered-in, unanswered, unsaved questions; the cap never holds one back |
| Home.DefaultRunsAreConsistent | client/src/lib/useLocalStorage.ts:34-39 | every run of events from the default progress leaves it consistent |
| Journal.SavedItems | client/src/components/ConversationJournal.tsx:22 | the saved list is an order-preserving subsequence of the questions holding exactly those whose id is saved |
| Journal.AnsweredItems | client/src/components/ConversationJournal.tsx:23 | the discussed list is an order-preserving subsequence holding exactly the questions whose id is answered |
| Journal.UnknownIdsAreNotListed | client/src/components/ConversationJournal.tsx:22-23 | an id naming no loaded question lists nothing in either list |
| Journal.ProgressPercent | client/src/components/ConversationJournal.tsx:25-27 | 0 when there are no questions; otherwise the integer nearest to answered/total × 100, halves rounded up |
| Journal.Summarize | client/src/components/ConversationJournal.tsx:24-58 | the header shows the raw answered count over the question count; the badge and tab counts are the list lengths, never above the question count |
| Journal.DiscussedCanExceedTotal | client/src/components/ConversationJournal.tsx:39 | a repeated answer id pushes the "discussed" count past the total |
| Journal.ClickSavedItem | client/src/components/ConversationJournal.tsx:76 | clicking a saved item unsaves it, keeps every other saved question saved, leaves answers untouched and opens the home tab |
| Journal.ClickRequeues | client/src/components/ConversationJournal.tsx:76 | clicking a saved item unsaves it, keeps answers, opens home, and queues it again iff its category is filtered in, it is unanswered, and it is premium or under the cap |
| Text.TrimStart | client/src/pages/AdminQuestions.tsx:146 | removes exactly the leading run of white space |
| Text.TrimEnd | client/src/pages/AdminQuestions.tsx:146 | removes exactly the trailing run of white space |
| Text.Trim | client/src/pages/AdminQuestions.tsx:146 | the result is a piece of the input with only white space before and after it, and no white space at either end of the piece |
| Text.TrimIdempotent | client/src/pages/AdminQuestions.tsx:146 | trimming twice is trimming once |
| Text.Lower | client/src/pages/AdminQuestions.tsx:169 | the result has the input's length, each ASCII capital becomes its lower-case letter, and every other character stays in place |
| Text.LowerIdempotent | client/src/pages/AdminQuestions.tsx:169 | lower-casing twice is lower-casing once |
| Text.TrimNoSpace | client/src/pages/AdminQuestions.tsx:146 | text with no white space at its ends is its own trim |
| Text.StripQuotes | client/src/pages/AdminQuestions.tsx:146-147 | a leading double quote and a trailing one are each removed once, whichever are present, and the text is unchanged iff neither is |
| Text.StripQuotesOfQuoted | client/src/pages/AdminQuestions.tsx:146-147 | a field wrapped in double quotes loses exactly those two quotes |
| Text.Split | client/src/pages/AdminQuestions.tsx:144 | at least one piece, no piece contains the separator, and joining the pieces gives the input back |
| Text.SplitJoin | client/src/pages/AdminQuestions.tsx:144 | splitting a join of separator-free pieces returns the pieces |
| Text.Contains | client/src/pages/AdminQuestions.tsx:169 | true iff the needle occurs at some position of the text |
| Decimal.ParseInt | server/routes.ts:59 | a number is read only from text holding a digit; a bare digit string reads as its value, and one behind a minus sign as its negated value |
| Decimal.ParseIntSkipsSpace | server/routes.ts:58-59 | a white-space character in front does not change the result, so the piece " 2" of "1, 2" reads as 2 |
| Decimal.ParseIntPlus | server/routes.ts:59 | a plus sign in front of a decimal numeral is read and ignored |
| Decimal.ParseIntRoundTrip | server/routes.ts:59 | `parseInt` reads back the decimal rendering of any natural number |
| Decimal.ParseIntOfNatToString | server/routes.ts:59 | the same with any text after the digits that does not start with a digit |
| Decimal.ParseIntNegative | server/routes.ts:59 | a leading minus sign negates the value |
| Decimal.ParseIntNoDigits | server/routes.ts:59 | text without digits parses to `NaN` |
| Storage.GetCategories | server/storage.ts:48-50 | ascending by `order`, a permutation of the stored categories |
| Storage.SortedIsUnchanged | server/storage.ts:48-50 | a table already in order is returned as it is |
| Storage.UpdateCategoryOrder | server/storage.ts:72-75 | only the `order` of rows with that id changes; the result is undefined iff no row has the id, otherwise the updated row |
| Storage.UpdateCategory | server/storage.ts:62-65 | rows with that id get the four patched fields and keep id and order; other rows are unchanged; undefined iff no row has the id |
| Storage.GetQuestions | server/storage.ts:77-82 | an absent or empty id list returns every question; otherwise an order-preserving subsequence holding exactly the questions in the listed categories |
| Storage.BulkCreateQuestions | server/storage.ts:104-107 | an empty batch inserts nothing and returns none; otherwise the rows get consecutive fresh ids and are appended in order |
| Storage.BulkCreateKeepsValid | server/storage.ts:104-107 | bulk creation keeps question ids unique and below the serial counter |
| Storage.TallyStep | server/storage.ts:118-120 | counting one more question keeps the table exact: first-occurrence keys, exact positive counts, full sum |
| Storage.GetQuestionCount | server/storage.ts:109-112 | the question count is 0 only for an empty store and bounds the number of questions in any one category |
| Storage.BulkCreateAddsToCount | server/storage.ts:104-112 | a bulk import grows the question count by exactly the number of rows |
| Storage.GetQuestionCountByCategory | server/storage.ts:114-123 | one entry per distinct category id, in first-occurrence order, each count the exact positive number of its questions, the counts summing to the question count |
| Storage.CountFor | server/routes.ts:113 | the count of the first table entry for the category, and 0 when the category has no entry |
| Storage.CountForIsExact | server/routes.ts:113 | looking a category up in the count table gives its exact number of questions, 0 when it has none |
| Routes.RequireAdmin | server/routes.ts:15-20 | a request passes iff the session flag is true; otherwise 401 |
| Routes.ParseCategoryIds | server/routes.ts:55-60 | there is a filter iff the query is present and non-empty; then every piece that `parseInt` accepts contributes its value, and every id is the value of some piece; at most one id per comma-separated piece |
| Routes.ParseCategoryIdsRoundTrip | server/routes.ts:58-60 | a comma-joined list of decimal ids is read back exactly, in order |
| Routes.ParseCategoryIdsSkipsNaN | server/routes.ts:58-60 | in `m,junk,n` with a digit-free middle part, the `NaN` piece is dropped and the ids come out as `[m, n]`, in order |
| Routes.QuestionsEndpoint | server/routes.ts:53-67 | an order-preserving subsequence of the questions, holding exactly those in the parsed categories, or all of them when no id parses |
| Routes.UnparsableFilterReturnsEverything | server/routes.ts:58-62 | a query with no digits at all returns every question |
| Routes.BuildDashboard | server/routes.ts:108-121 | totals are the question and category counts; one statistic per category in `getCategories` order, with its exact question count, 0 included |
| Routes.DashboardEndpoint | server/routes.ts:106-125 | 401 and no body iff the session is not admin; otherwise 200 with the question and category totals and one statistic per category, in `getCategories` order, holding the category and its exact question count |
| Routes.ErrorRows | server/routes.ts:184-194 | the rejected rows' 1-based numbers, strictly increasing, covering every rejected row; their count plus the valid count is the row count |
| Routes.PartitionRows | server/routes.ts:184-194 | the loop yields the valid payloads in row order and the rejected row numbers |
| Routes.BulkImport | server/routes.ts:176-205 | 401 when not admin; 400 for a non-array body; 400 with the error rows when nothing is valid; otherwise the valid rows are created and the reply is 201 with their number and the error rows; nothing changes on any error |
| Routes.BulkImportGrowsTableByCreated | server/routes.ts:196-201 | a successful import grows the table by exactly the reported number, which together with the errors accounts for every row, and keeps ids unique |
| Routes.OrderEndpoint | server/routes.ts:231-250 | 401 iff not admin; 400 iff admin and `order` is not a number; 404 iff the id is `NaN` or unknown; otherwise 200 with the row, now carrying the new order; errors change nothing |
| AdminQuestions.AddQuestion | client/src/pages/AdminQuestions.tsx:115-125 | stops iff the text or the category is empty; otherwise sends the text, the premium flag and `parseInt` of the category |
| AdminQuestions.AddQuestionSendsSelectedCategory | client/src/pages/AdminQuestions.tsx:120-124 | choosing category n with some text sends exactly n and that text |
| AdminQuestions.FindByName | client/src/pages/AdminQuestions.tsx:148 | nothing iff the categories are not loaded or no name matches ignoring case; otherwise the first loaded category whose name matches |
| AdminQuestions.ParseLine | client/src/pages/AdminQuestions.tsx:144-157 | a record iff the line has two or more fields, the cleaned text is non-empty, and the cleaned name matches a category; the record is that text, that category's id, not premium |
| AdminQuestions.ParseLines | client/src/pages/AdminQuestions.tsx:143-158 | a record is produced iff some line parses to it; no more records than lines; every record is free, has text, and names a loaded category |
| AdminQuestions.ParseLinesSingle | client/src/pages/AdminQuestions.tsx:143-157 | one line yields exactly its parsed record, or nothing when it does not parse |
| AdminQuestions.ParseCsv | client/src/pages/AdminQuestions.tsx:140-158 | a record is produced iff some line of the trimmed input parses to it; no more records than lines |
| AdminQuestions.ParseLinesFollowsLineOrder | client/src/pages/AdminQuestions.tsx:143-158 | the records of two blocks of lines are the concatenation of each block's records |
| AdminQuestions.NoCategoriesNoRecords | client/src/pages/AdminQuestions.tsx:148-150 | with no categories loaded, nothing is imported |
| AdminQuestions.ParseLineRoundTrip | client/src/pages/AdminQuestions.tsx:144-156 | a line `text,name` with clean fields and a known name reads back as that text and category |
| AdminQuestions.ParseCsvTwoLines | client/src/pages/AdminQuestions.tsx:140-158 | two clean lines `t1,n1` and `t2,n2` with known names import as the two records, in line order |
| AdminQuestions.CsvOfTwoLines | client/src/pages/AdminQuestions.tsx:140-143 | trimming and splitting a two-line input yields the records of the first line followed by those of the second |
| AdminQuestions.CsvImport | client/src/pages/AdminQuestions.tsx:139-166 | no request iff no record parses; otherwise one bulk request carrying every record |
| AdminQuestions.SearchQuestions | client/src/pages/AdminQuestions.tsx:168-172 | an order-preserving subsequence holding exactly the questions whose lower-cased text contains the lower-cased term and whose category matches the select; nothing before the list loads |
| AdminQuestions.EmptySearchShowsAll | client/src/pages/AdminQuestions.tsx:168-172 | an empty term with "all" shows the whole list in order |
| AdminQuestions.SearchIgnoresCase | client/src/pages/AdminQuestions.tsx:169 | a term and its lower-case form find the same questions |
| AdminCategories.MoveUp | client/src/pages/AdminCategories.tsx:70-75 | no request at index 0 or before the list loads; otherwise the category takes the predecessor's order, and then the predecessor takes the category's |
| AdminCategories.MoveDown | client/src/pages/AdminCategories.tsx:77-82 | no request at the last index or before the list loads; otherwise the category and its successor exchange orders |
| AdminCategories.UpdateAt | server/storage.ts:72-75 | with unique ids, setting one id's order changes exactly the row at its position |
| AdminCategories.ExchangeOrders | client/src/pages/AdminCategories.tsx:73-74 | the two requests, in either order of arrival, change exactly the two rows, each taking the other's order, and keep the multiset of orders |
| AdminCategories.MoveUpExchangesWithPredecessor | client/src/pages/AdminCategories.tsx:70-75 | when the shown rows are the stored rows, move up exchanges the orders of the row and its predecessor, changes no other row and keeps the multiset of orders |
| AdminCategories.MoveUpWritesShownOrders | client/src/pages/AdminCategories.tsx:70-75 | for any shown list, move up changes nothing at the first row and otherwise gives the predecessor's stored row the row's shown order and the row's stored row the predecessor's shown order, leaving every other row as it was |
| AdminCategories.MoveDownExchangesWithSuccessor | client/src/pages/AdminCategories.tsx:77-82 | when the shown rows are the stored rows, move down exchanges the orders of the row and its successor, changes no other row and keeps the multiset of orders |
| AdminCategories.MoveDownWritesShownOrders | client/src/pages/AdminCategories.tsx:77-82 | for any shown list, move down changes nothing at the last row and otherwise gives the successor's stored row the row's shown order and the row's stored row the successor's shown order, leaving every other row as it was |
| AdminCategories.UpdateRequest | client/src/pages/AdminCategories.tsx:57-68 | no request without an open category; otherwise a request for that category's id |
| AdminCategories.EditedCategoryIsStored | client/src/pages/AdminCategories.tsx:57-68 | saving an edited copy makes the stored row equal to the copy and returns it; other rows are untouched |
| AdminCategories.EditKeepsOrders | client/src/pages/AdminCategories.tsx:59-66 | an edit never changes any category's order |
| LocalSeed.LocalTestQuestions | server/local-questions.ts:8-19 | nine free questions with text, the i-th in category i + 1 |
| LocalSeed.ExistingTexts | server/local-questions.ts:26-27 | a text is in the set iff some stored question has it |
| LocalSeed.ToInsert | server/local-questions.ts:29-31 | an order-preserving subsequence of the fixture holding exactly its questions whose text is not stored; every dropped question's text is stored |
| LocalSeed.Seed | server/local-questions.ts:21-44 | nothing changes when nothing is missing; otherwise the stored questions are kept and exactly the missing fixture questions are appended, in fixture order |
| LocalSeed.SeedAddsOnlyMissingTexts | server/local-questions.ts:25-38 | every added row is a fixture question whose text was not stored before |
| LocalSeed.SeedStoresEveryText | server/local-questions.ts:26-38 | after a run, every fixture question's text is stored |
| LocalSeed.SeedIsIdempotent | server/local-questions.ts:27-38 | a second run inserts nothing and leaves the table as it is |
| LocalSeed.SeedOnEmptyTableInsertsAll | server/local-questions.ts:29-38 | on an empty table the whole fixture is inserted, in order |
| LocalSeed.SeedKeepsValid | server/local-questions.ts:38 | seeding keeps question ids unique and below the serial counter |

## Left out

- Animation and presentation are not modelled: springs, motion transforms, stack offsets and scales, colours and backgrounds. A committed swipe takes effect at once; the code awaits the exit animation first.
- The browser store is not modelled concretely:
  - JSON encoding and decoding are parameters of `LocalStore`;
  - whether reading or writing throws is a boolean parameter;
  - cookies, onboarding, react-query fetching, toasts and page routing are not modelled.
- `useLocalStorage`'s `setValue` reads the `storedValue` of the current render. Several calls in one render would all start from the same value. The model applies updates one after another (`Home.Step`). No handler in the modelled pages issues two updates in one event.
- Gesture.DragEnd: offsets and velocities are exact reals. Binary64 rounding cannot change a strict comparison with 80 or 400 and is not modelled.
- Journal.ProgressPercent: `Math.round` of a binary64 quotient is modelled as round-half-up of the exact quotient. The two can differ when the float quotient lands next to a half.
- Text.Lower: `toLowerCase` is modelled on the ASCII letters only. Other code points are left as they are, so the search and CSV name matching ignore non-ASCII case.
- Text.TrimStart and Text.TrimEnd use the ECMAScript white-space and line-terminator set. Surrogate pairs are not modelled, because strings are sequences of UTF-16 code units.
- Decimal.ParseInt: its own contract fixes bare and minus-signed digit runs; skipping leading white space and reading a `+` sign are stated by Decimal.ParseIntSkipsSpace and Decimal.ParseIntPlus. Radix prefixes and number precision beyond integers are not modelled. All calls in the code pass radix 10.
- The zod insert schema is an abstract `validate` function. It returns the insert payload or rejects the row. The error details it reports per row are reduced to the row number.
- Login, logout and the session endpoint, password hashing, and session configuration are not modelled. The admin flag is an `Option<bool>` parameter.
- These routes only return storage results and are not modelled separately: the public and admin category lists and the admin question list. Create, update and delete of a single question are also not modelled, and neither are the users, `getCategory`, `getQuestion`, `createCategory` and `deleteCategory` storage functions. None of them is part of the swipe, filter or progress engine.
- The category edit route (`PUT /api/admin/categories/:id`) passes `req.body` through unchecked. The model takes the payload the admin page sends (`AdminCategories.UpdateRequest`), not arbitrary bodies.
- Routes.OrderEndpoint:
  - A `NaN` id matches no row of the in-memory table, so it gives 404. A real database might reject `NaN` and give 500.
  - A JSON `order` that is a non-integral number is not modelled, because orders are integers.
- Storage.GetCategories:
  - The database does not fix the relative order of categories with equal `order`. The model sorts stably, and its contract states only sortedness and permutation.
  - Exceptions from the database (the 500 replies) are not modelled.
- The two order requests of a move are sent concurrently. The model applies them in sequence, and `AdminCategories.ExchangeOrders` proves that both orders of arrival give the same table.
- AdminCategories.MoveUpExchangesWithPredecessor: states an exchange of stored orders only when the list the page shows is the stored table's rows; for a stale list, AdminCategories.MoveUpWritesShownOrders states which orders are written.
- AdminCategories.MoveDownExchangesWithSuccessor: the same assumption; AdminCategories.MoveDownWritesShownOrders covers any shown list.
- Storage.GetQuestions: the in-memory table returns rows in insertion order, so the model's "order-preserving" promises for `getQuestions`, the per-category table's first-occurrence order and `Routes.QuestionsEndpoint` hold for it; the database query has no `orderBy` and guarantees no row order.
- The local seed routine's logging and error re-throwing are not modelled. `LocalSeed.Seed` takes the fixture as a parameter; the routine runs it with `LocalTestQuestions()`.
- Repeated `categoryIds` query parameters are not modelled: Express would give an array, which the code casts to a string. The parameter is a single optional string.
- The premium teaser is never shown by the code, and it is not modelled.

## Findings

| source | as written | input that shows it | evidently intended | confidence | as-written member | corrected member |
|---|---|---|---|---|---|---|
| client/src/components/CardStack.tsx:87-91 | a queued question whose category is not among the loaded categories renders nothing but keeps stack position 0, so no drawn card is the top card and no card gets swipe handlers | categories `[1]`, questions `[{id 1, category 99}, {id 2, category 1}]`, filters `[1, 99]`: the stack shows question 2 but no drag on it does anything, and the session is stuck until the filters change | questions with an unknown category are left out of the queue, so the head is always drawn and swipeable | not executed | Home.OrphanHeadExample | Home.CorrectedStackNeverFreezes |
