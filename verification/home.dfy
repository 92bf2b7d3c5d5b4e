/**
 * The home page (client/src/pages/Home.tsx): progress reducers passed to the store as functional
 * updates, the drag-to-commit path through the card stack, and the active tab.
 */
module Home {
  import opened Wrappers
  import opened Seqs
  import opened Catalog
  import opened Progress
  import Selector
  import Gesture
  import Nav

  /** Everything the page keeps between events. */
  datatype AppState = AppState(progress: UserProgress, activeTab: Nav.Tab)

  /** `handleSwipeRight`: one more occurrence of `id` at the end of `answeredQuestions`; nothing else moves. */
  function SwipeRight(p: UserProgress, id: int): (r: UserProgress)
    ensures |r.answeredQuestions| == |p.answeredQuestions| + 1
    ensures r.answeredQuestions[..|p.answeredQuestions|] == p.answeredQuestions
    ensures r.answeredQuestions[|p.answeredQuestions|] == id
    ensures Count(r.answeredQuestions, id) == Count(p.answeredQuestions, id) + 1
    ensures r.savedForLater == p.savedForLater && r.currentFilters == p.currentFilters
    ensures r.shownQuestionsPerCategory == p.shownQuestionsPerCategory
  {
    CountAppend(p.answeredQuestions, [id], id);
    p.(answeredQuestions := p.answeredQuestions + [id])
  }

  /** `handleSwipeLeft`: one more occurrence of `id` at the end of `savedForLater`; nothing else moves. */
  function SwipeLeft(p: UserProgress, id: int): (r: UserProgress)
    ensures |r.savedForLater| == |p.savedForLater| + 1
    ensures r.savedForLater[..|p.savedForLater|] == p.savedForLater
    ensures r.savedForLater[|p.savedForLater|] == id
    ensures Count(r.savedForLater, id) == Count(p.savedForLater, id) + 1
    ensures r.answeredQuestions == p.answeredQuestions && r.currentFilters == p.currentFilters
    ensures r.shownQuestionsPerCategory == p.shownQuestionsPerCategory
  {
    CountAppend(p.savedForLater, [id], id);
    p.(savedForLater := p.savedForLater + [id])
  }

  /** `handleToggleCategory`: a present id is removed everywhere, an absent one appended. */
  function ToggleCategory(p: UserProgress, id: int): (r: UserProgress)
    ensures id in r.currentFilters <==> id !in p.currentFilters
    ensures forall x :: x != id ==> (x in r.currentFilters <==> x in p.currentFilters)
    ensures id !in p.currentFilters ==> r.currentFilters == p.currentFilters + [id]
    ensures id in p.currentFilters ==> IsSubsequence(r.currentFilters, p.currentFilters)
    ensures r.answeredQuestions == p.answeredQuestions && r.savedForLater == p.savedForLater
    ensures r.shownQuestionsPerCategory == p.shownQuestionsPerCategory
  {
    p.(currentFilters :=
         if id in p.currentFilters then RemoveAll(p.currentFilters, id) else p.currentFilters + [id])
  }

  /** Toggling twice restores which categories are selected. */
  lemma ToggleTwiceRestoresMembership(p: UserProgress, id: int)
    ensures forall x :: x in ToggleCategory(ToggleCategory(p, id), id).currentFilters <==> x in p.currentFilters
  {
  }

  /** Toggling an unselected category twice restores the exact filter list. */
  lemma ToggleTwiceRestoresAbsent(p: UserProgress, id: int)
    requires id !in p.currentFilters
    ensures ToggleCategory(ToggleCategory(p, id), id) == p
  {
    RemoveAllAppended(p.currentFilters, id);
  }

  /** `handleShowAllCategories`: the filter becomes every category id, in category-list order. */
  function ShowAll(p: UserProgress, cats: seq<Category>): (r: UserProgress)
    ensures |r.currentFilters| == |cats|
    ensures forall i :: 0 <= i < |cats| ==> r.currentFilters[i] == cats[i].id
    ensures r.answeredQuestions == p.answeredQuestions && r.savedForLater == p.savedForLater
    ensures r.shownQuestionsPerCategory == p.shownQuestionsPerCategory
  {
    p.(currentFilters := CategoryIds(cats))
  }

  /** `handleClearAllCategories`: the filter becomes empty, so the queue does too. */
  function ClearAll(p: UserProgress): (r: UserProgress)
    ensures r.currentFilters == []
    ensures r.answeredQuestions == p.answeredQuestions && r.savedForLater == p.savedForLater
    ensures r.shownQuestionsPerCategory == p.shownQuestionsPerCategory
  {
    p.(currentFilters := [])
  }

  /** After clearing the filter no question is queued. */
  lemma ClearAllEmptiesQueue(p: UserProgress, qs: seq<Question>, cap: int)
    ensures Selector.Queue(qs, ClearAll(p), cap) == []
  {
    var queue := Selector.Queue(qs, ClearAll(p), cap);
    assert forall i :: 0 <= i < |queue| ==> queue[i] in queue;
  }

  /** `handleMoveToTop`: every occurrence of `id` leaves `savedForLater`, and the home tab opens. */
  function MoveToTop(s: AppState, id: int): (r: AppState)
    ensures id !in r.progress.savedForLater
    ensures forall x :: x != id ==> (x in r.progress.savedForLater <==> x in s.progress.savedForLater)
    ensures IsSubsequence(r.progress.savedForLater, s.progress.savedForLater)
    ensures r.progress.answeredQuestions == s.progress.answeredQuestions
    ensures r.progress.currentFilters == s.progress.currentFilters
    ensures r.progress.shownQuestionsPerCategory == s.progress.shownQuestionsPerCategory
    ensures r.activeTab == Nav.HomeTab
  {
    AppState(s.progress.(savedForLater := RemoveAll(s.progress.savedForLater, id)), Nav.HomeTab)
  }

  /**
   * The effect run when the category list changes: with categories loaded and no filter at all,
   * select every category; in every other case leave progress alone.
   */
  function InitFilters(p: UserProgress, cats: seq<Category>): (r: UserProgress)
    ensures |cats| > 0 && |p.currentFilters| == 0 ==> r == ShowAll(p, cats)
    ensures !(|cats| > 0 && |p.currentFilters| == 0) ==> r == p
    ensures |cats| > 0 ==> |r.currentFilters| > 0
  {
    if |cats| > 0 && |p.currentFilters| == 0 then ShowAll(p, cats) else p
  }

  /** The queue the page shows: Home passes no cap, so the default applies. */
  function HomeQueue(qs: seq<Question>, p: UserProgress): (r: seq<Question>)
    ensures IsSubsequence(r, qs)
    ensures forall q :: q in r <==>
              && q in qs
              && q.categoryId in p.currentFilters
              && q.id !in p.answeredQuestions
              && q.id !in p.savedForLater
              && (q.isPremium || ShownCount(p, q.categoryId) < Selector.DefaultCap)
  {
    Selector.Queue(qs, p, Selector.DefaultCap)
  }

  /** The head of `queue` is drawn as an interactive top card: it exists and its category is known. */
  predicate LiveHead(queue: seq<Question>, cats: seq<Category>)
  {
    |queue| > 0 && FindCategory(cats, queue[0].categoryId).Some?
  }

  /**
   * A drag released on stack position `index` of the stack drawn from `queue`: the card there
   * classifies the gesture with its own `isTop` and handlers, and a commit reports the first visible
   * card to the matching reducer (`onSwipeRight={handleSwipeRight}`, `onSwipeLeft={handleSwipeLeft}`).
   * A position with no drawn card cannot be dragged.
   */
  function DragOn(s: AppState, queue: seq<Question>, cats: seq<Category>,
                  index: int, offsetX: real, velocityX: real): (r: AppState)
    ensures r.activeTab == s.activeTab
    ensures index != 0 || !LiveHead(queue, cats) ==> r == s
    ensures index == 0 && LiveHead(queue, cats) ==>
              match Gesture.DragEnd(true, offsetX, velocityX, true, true)
              case CommitRight => r.progress == SwipeRight(s.progress, queue[0].id)
              case CommitLeft => r.progress == SwipeLeft(s.progress, queue[0].id)
              case _ => r == s
  {
    var visible := Selector.VisibleCards(queue);
    var slots := Selector.Render(visible, cats);
    Selector.SwipeTargetIsQueueHead(queue);
    if !(0 <= index < |slots|) || slots[index].Hidden? then s
    else
      var card := slots[index];
      match Gesture.DragEnd(card.isTop, offsetX, velocityX, card.interactive, card.interactive)
      case CommitRight =>
        (match Selector.SwipeTarget(visible)
         case Some(id) => s.(progress := SwipeRight(s.progress, id))
         case None => s)
      case CommitLeft =>
        (match Selector.SwipeTarget(visible)
         case Some(id) => s.(progress := SwipeLeft(s.progress, id))
         case None => s)
      case _ => s
  }

  /** The page's drag path, over the queue as the code computes it. */
  function DragEndAt(s: AppState, qs: seq<Question>, cats: seq<Category>,
                     index: int, offsetX: real, velocityX: real): (r: AppState)
    ensures index != 0 ==> r == s
    ensures r.activeTab == s.activeTab
    ensures r != s ==>
              var queue := HomeQueue(qs, s.progress);
              && |queue| > 0
              && (|| r.progress == SwipeRight(s.progress, queue[0].id)
                  || r.progress == SwipeLeft(s.progress, queue[0].id))
    ensures var queue := HomeQueue(qs, s.progress);
            index == 0 && LiveHead(queue, cats) ==>
              match Gesture.DragEnd(true, offsetX, velocityX, true, true)
              case CommitRight => r.progress == SwipeRight(s.progress, queue[0].id)
              case CommitLeft => r.progress == SwipeLeft(s.progress, queue[0].id)
              case _ => r == s
  {
    DragOn(s, HomeQueue(qs, s.progress), cats, index, offsetX, velocityX)
  }

  /** A committed drag advances the stack: with unique question ids the new queue is the old tail. */
  lemma DragCommitAdvancesQueue(s: AppState, qs: seq<Question>, cats: seq<Category>,
                                index: int, offsetX: real, velocityX: real)
    requires Selector.UniqueIds(qs)
    requires DragEndAt(s, qs, cats, index, offsetX, velocityX) != s
    ensures var r := DragEndAt(s, qs, cats, index, offsetX, velocityX);
            HomeQueue(qs, r.progress) == HomeQueue(qs, s.progress)[1..]
  {
    var r := DragEndAt(s, qs, cats, index, offsetX, velocityX);
    Selector.QueueAfterResolvingHead(qs, s.progress, r.progress, Selector.DefaultCap);
  }

  /** A rightward release past a threshold on a drawn top card marks the head question discussed. */
  lemma FirmRightDragAnswersHead(s: AppState, qs: seq<Question>, cats: seq<Category>, offsetX: real, velocityX: real)
    requires offsetX > 80.0 || velocityX > 400.0
    requires LiveHead(HomeQueue(qs, s.progress), cats)
    ensures DragEndAt(s, qs, cats, 0, offsetX, velocityX).progress
            == SwipeRight(s.progress, HomeQueue(qs, s.progress)[0].id)
  {
  }

  /** A leftward release past a threshold, not also past the right one, saves the head question for later. */
  lemma FirmLeftDragSavesHead(s: AppState, qs: seq<Question>, cats: seq<Category>, offsetX: real, velocityX: real)
    requires offsetX < -80.0 || velocityX < -400.0
    requires offsetX <= 80.0 && velocityX <= 400.0
    requires LiveHead(HomeQueue(qs, s.progress), cats)
    ensures DragEndAt(s, qs, cats, 0, offsetX, velocityX).progress
            == SwipeLeft(s.progress, HomeQueue(qs, s.progress)[0].id)
  {
  }

  /** As written, an unknown category at the head of the queue makes every drag a no-op. */
  lemma OrphanHeadFreezesStack(s: AppState, qs: seq<Question>, cats: seq<Category>,
                               index: int, offsetX: real, velocityX: real)
    requires |HomeQueue(qs, s.progress)| > 0
    requires FindCategory(cats, HomeQueue(qs, s.progress)[0].categoryId).None?
    ensures DragEndAt(s, qs, cats, index, offsetX, velocityX) == s
  {
  }

  /** A concrete instance: one orphaned question ahead of a normal one blocks the normal one. */
  lemma OrphanHeadExample()
    ensures var cats := [Category(1, "A", "a", "#000", "#fff", 1)];
            var qs := [Question(1, "Orphan?", 99, false), Question(2, "Normal?", 1, false)];
            var s := AppState(UserProgress([], [], [1, 99], map[]), Nav.HomeTab);
            && |HomeQueue(qs, s.progress)| == 2
            && DragEndAt(s, qs, cats, 0, 500.0, 0.0) == s
            && DragEndAt(s, qs, cats, 1, 500.0, 0.0) == s
  {
    var cats := [Category(1, "A", "a", "#000", "#fff", 1)];
    var qs := [Question(1, "Orphan?", 99, false), Question(2, "Normal?", 1, false)];
    var s := AppState(UserProgress([], [], [1, 99], map[]), Nav.HomeTab);
    var queue := HomeQueue(qs, s.progress);
    assert qs[0] in queue && qs[1] in queue;
    assert FindCategory(cats, 99).None?;
    OrphanHeadFreezesStack(s, qs, cats, 0, 500.0, 0.0);
    OrphanHeadFreezesStack(s, qs, cats, 1, 500.0, 0.0);
  }

  /** The drag path with the corrected queue, orphans left out. */
  function DragEndAtCorrected(s: AppState, qs: seq<Question>, cats: seq<Category>,
                              index: int, offsetX: real, velocityX: real): (r: AppState)
    ensures index != 0 ==> r == s
    ensures r.activeTab == s.activeTab
  {
    DragOn(s, Selector.RenderableQueue(qs, cats, s.progress, Selector.DefaultCap), cats, index, offsetX, velocityX)
  }

  /** With the corrected queue the stack never freezes: a non-empty queue always takes a swipe. */
  lemma CorrectedStackNeverFreezes(s: AppState, qs: seq<Question>, cats: seq<Category>)
    requires |Selector.RenderableQueue(qs, cats, s.progress, Selector.DefaultCap)| > 0
    ensures var head := Selector.RenderableQueue(qs, cats, s.progress, Selector.DefaultCap)[0];
            DragEndAtCorrected(s, qs, cats, 0, 100.0, 0.0).progress == SwipeRight(s.progress, head.id)
  {
    Selector.RenderableHeadIsInteractive(qs, cats, s.progress, Selector.DefaultCap);
  }

  /** The user events the page reacts to. */
  datatype Event =
    | Drag(index: int, offsetX: real, velocityX: real)
    | Toggle(categoryId: int)
    | ShowAllCategories
    | ClearAllCategories
    | MoveToTopClicked(questionId: int)
    | TabChange(tab: Nav.Tab)
    | CategoriesLoaded

  /** One event, applied with the store's sequential functional-update semantics. */
  function Step(s: AppState, qs: seq<Question>, cats: seq<Category>, e: Event): (r: AppState)
    ensures r.progress.shownQuestionsPerCategory == s.progress.shownQuestionsPerCategory
    ensures AnswersExtend(s.progress, r.progress)
  {
    match e
    case Drag(index, offsetX, velocityX) => DragEndAt(s, qs, cats, index, offsetX, velocityX)
    case Toggle(id) => s.(progress := ToggleCategory(s.progress, id))
    case ShowAllCategories => s.(progress := ShowAll(s.progress, cats))
    case ClearAllCategories => s.(progress := ClearAll(s.progress))
    case MoveToTopClicked(id) => MoveToTop(s, id)
    case TabChange(t) => s.(activeTab := Nav.Click(t))
    case CategoriesLoaded => s.(progress := InitFilters(s.progress, cats))
  }

  /** The answered list of `p'` continues that of `p`: answers are only ever appended. */
  predicate AnswersExtend(p: UserProgress, p': UserProgress)
  {
    |p.answeredQuestions| <= |p'.answeredQuestions| &&
    p'.answeredQuestions[..|p.answeredQuestions|] == p.answeredQuestions
  }

  /** A sequence of events, applied in order; no event ever retracts an answer. */
  function Run(s: AppState, qs: seq<Question>, cats: seq<Category>, events: seq<Event>): (r: AppState)
    ensures AnswersExtend(s.progress, r.progress)
    decreases |events|
  {
    if |events| == 0 then s
    else
      var next := Step(s, qs, cats, events[0]);
      var r := Run(next, qs, cats, events[1..]);
      var a, b, c := s.progress.answeredQuestions, next.progress.answeredQuestions, r.progress.answeredQuestions;
      assert c[..|a|] == c[..|b|][..|a|];
      r
  }

  /**
   * The bookkeeping the design expects: no id answered twice, none saved twice, and none both
   * answered and saved.
   */
  predicate Consistent(p: UserProgress)
  {
    && NoDuplicates(p.answeredQuestions)
    && NoDuplicates(p.savedForLater)
    && forall id :: id in p.answeredQuestions ==> id !in p.savedForLater
  }

  lemma AppendKeepsNoDuplicates(s: seq<int>, x: int)
    requires NoDuplicates(s) && x !in s
    ensures NoDuplicates(s + [x])
  {
  }

  /** Every event keeps the bookkeeping consistent: a swipe only ever resolves a queued question. */
  lemma StepKeepsConsistent(s: AppState, qs: seq<Question>, cats: seq<Category>, e: Event)
    requires Consistent(s.progress)
    ensures Consistent(Step(s, qs, cats, e).progress)
  {
    var p := s.progress;
    match e
    case Drag(index, offsetX, velocityX) =>
      var r := DragEndAt(s, qs, cats, index, offsetX, velocityX);
      if r != s {
        var head := HomeQueue(qs, p)[0];
        assert head in HomeQueue(qs, p);
        AppendKeepsNoDuplicates(p.answeredQuestions, head.id);
        AppendKeepsNoDuplicates(p.savedForLater, head.id);
      }
    case MoveToTopClicked(id) =>
      RemoveAllNoDuplicates(p.savedForLater, id);
    case _ =>
  }

  lemma {:induction false} RunKeepsConsistent(s: AppState, qs: seq<Question>, cats: seq<Category>, events: seq<Event>)
    requires Consistent(s.progress)
    ensures Consistent(Run(s, qs, cats, events).progress)
    decreases |events|
  {
    if |events| > 0 {
      StepKeepsConsistent(s, qs, cats, events[0]);
      RunKeepsConsistent(Step(s, qs, cats, events[0]), qs, cats, events[1..]);
    }
  }

  /** No handler writes the shown counter: it is the same after any run of events. */
  lemma {:induction false} RunKeepsShownCounts(s: AppState, qs: seq<Question>, cats: seq<Category>, events: seq<Event>)
    ensures Run(s, qs, cats, events).progress.shownQuestionsPerCategory == s.progress.shownQuestionsPerCategory
    decreases |events|
  {
    if |events| > 0 {
      RunKeepsShownCounts(Step(s, qs, cats, events[0]), qs, cats, events[1..]);
    }
  }

  /**
   * Consequently, starting from the default progress the per-category cap never holds a question
   * back: after any run the queue is the filter, answered and saved tests alone.
   */
  lemma CapNeverBitesFromDefault(qs: seq<Question>, cats: seq<Category>, events: seq<Event>, tab: Nav.Tab)
    ensures var p := Run(AppState(DefaultProgress(), tab), qs, cats, events).progress;
            forall q :: q in HomeQueue(qs, p) <==>
              q in qs && q.categoryId in p.currentFilters
              && q.id !in p.answeredQuestions && q.id !in p.savedForLater
  {
    RunKeepsShownCounts(AppState(DefaultProgress(), tab), qs, cats, events);
  }

  /** The default progress is consistent, so every run from it is. */
  lemma DefaultRunsAreConsistent(qs: seq<Question>, cats: seq<Category>, events: seq<Event>, tab: Nav.Tab)
    ensures Consistent(Run(AppState(DefaultProgress(), tab), qs, cats, events).progress)
  {
    RunKeepsConsistent(AppState(DefaultProgress(), tab), qs, cats, events);
  }
}
