/**
 * The card stack (client/src/components/CardStack.tsx): which questions are queued, which of them
 * are drawn, and which card a swipe reports.
 */
module Selector {
  import opened Wrappers
  import opened Seqs
  import opened Catalog
  import opened Progress

  /** `maxQuestionsPerCategory` when the caller passes none (Home passes none). */
  const DefaultCap := 10

  /** How many queued cards are drawn on the stack. */
  const VisibleLimit := 4

  /** The filter callback, its guards taken in the order the code tests them. */
  predicate Keeps(q: Question, p: UserProgress, cap: int)
  {
    if q.categoryId !in p.currentFilters then false
    else if q.id in p.answeredQuestions then false
    else if q.id in p.savedForLater then false
    else if ShownCount(p, q.categoryId) >= cap && !q.isPremium then false
    else true
  }

  /**
   * `filteredQuestions`: the questions whose category is filtered in, that are neither answered nor
   * saved, and that are premium or whose category's shown count is below the cap, in input order.
   */
  function Queue(qs: seq<Question>, p: UserProgress, cap: int): (r: seq<Question>)
    ensures IsSubsequence(r, qs)
    ensures forall q :: q in r <==>
              && q in qs
              && q.categoryId in p.currentFilters
              && q.id !in p.answeredQuestions
              && q.id !in p.savedForLater
              && (q.isPremium || ShownCount(p, q.categoryId) < cap)
  {
    Filter(q => Keeps(q, p, cap), qs)
  }

  /** Premium questions are never held back by the cap, whatever it is. */
  lemma PremiumIgnoresCap(qs: seq<Question>, p: UserProgress, cap1: int, cap2: int, q: Question)
    requires q.isPremium
    ensures q in Queue(qs, p, cap1) <==> q in Queue(qs, p, cap2)
  {
  }

  /** No two questions share an id. */
  predicate UniqueIds(qs: seq<Question>)
  {
    forall i, j :: 0 <= i < j < |qs| ==> qs[i].id != qs[j].id
  }

  /** Filtering keeps ids unique. */
  lemma {:induction false} FilterKeepsUniqueIds(f: Question -> bool, qs: seq<Question>)
    requires UniqueIds(qs)
    ensures UniqueIds(Filter(f, qs))
    decreases |qs|
  {
    if |qs| > 0 {
      var rest := Filter(f, qs[1..]);
      FilterKeepsUniqueIds(f, qs[1..]);
      forall x | x in rest ensures x.id != qs[0].id {
        var k :| 0 <= k < |qs| - 1 && qs[1..][k] == x;
        assert qs[k + 1] == x;
      }
    }
  }

  /**
   * Appending a question id to `answeredQuestions` or `savedForLater` turns the queue into the old
   * queue with that id's questions removed.
   */
  lemma QueueAfterResolving(qs: seq<Question>, p: UserProgress, p': UserProgress, cap: int, id: int)
    requires p'.currentFilters == p.currentFilters
    requires p'.shownQuestionsPerCategory == p.shownQuestionsPerCategory
    requires || (p'.answeredQuestions == p.answeredQuestions + [id] && p'.savedForLater == p.savedForLater)
             || (p'.savedForLater == p.savedForLater + [id] && p'.answeredQuestions == p.answeredQuestions)
    ensures Queue(qs, p', cap) == Filter((q: Question) => q.id != id, Queue(qs, p, cap))
  {
    FilterNarrow(q => Keeps(q, p, cap), q => Keeps(q, p', cap), (q: Question) => q.id != id, qs);
  }

  /** When ids are unique, resolving the head of the queue leaves exactly its tail. */
  lemma QueueAfterResolvingHead(qs: seq<Question>, p: UserProgress, p': UserProgress, cap: int)
    requires UniqueIds(qs)
    requires |Queue(qs, p, cap)| > 0
    requires p'.currentFilters == p.currentFilters
    requires p'.shownQuestionsPerCategory == p.shownQuestionsPerCategory
    requires var id := Queue(qs, p, cap)[0].id;
             || (p'.answeredQuestions == p.answeredQuestions + [id] && p'.savedForLater == p.savedForLater)
             || (p'.savedForLater == p.savedForLater + [id] && p'.answeredQuestions == p.answeredQuestions)
    ensures Queue(qs, p', cap) == Queue(qs, p, cap)[1..]
  {
    var queue := Queue(qs, p, cap);
    var id := queue[0].id;
    QueueAfterResolving(qs, p, p', cap, id);
    FilterKeepsUniqueIds(q => Keeps(q, p, cap), qs);
    FilterKeepsAll((q: Question) => q.id != id, queue[1..]);
    assert queue == [queue[0]] + queue[1..];
  }

  /** `visibleCards`: the first min(4, |queue|) queued questions. */
  function VisibleCards(queue: seq<Question>): (v: seq<Question>)
    ensures |v| == if |queue| < VisibleLimit then |queue| else VisibleLimit
    ensures forall i :: 0 <= i < |v| ==> v[i] == queue[i]
  {
    if |queue| < VisibleLimit then queue else queue[..VisibleLimit]
  }

  /** `handleSwipeRight` / `handleSwipeLeft`: the id of the first visible card, if there is one. */
  function SwipeTarget(visible: seq<Question>): (r: Option<int>)
    ensures r.None? <==> |visible| == 0
    ensures r.Some? ==> r.value == visible[0].id
  {
    if |visible| > 0 then Some(visible[0].id) else None
  }

  /** The swipe target is the head of the whole queue. */
  lemma SwipeTargetIsQueueHead(queue: seq<Question>)
    ensures SwipeTarget(VisibleCards(queue)) == if |queue| == 0 then None else Some(queue[0].id)
  {
  }

  /** One drawn position of the stack: nothing (category not found) or a card with its flags. */
  datatype Slot = Hidden | Card(question: Question, category: Category, isTop: bool, interactive: bool)

  /**
   * The stack rendering: a card whose category is not in `cats` renders nothing but keeps its
   * position; only position 0 is the top card and only it gets swipe handlers.
   */
  function Render(visible: seq<Question>, cats: seq<Category>): (slots: seq<Slot>)
    ensures |slots| == |visible|
    ensures forall i :: 0 <= i < |slots| ==>
              (slots[i].Hidden? <==> FindCategory(cats, visible[i].categoryId).None?)
    ensures forall i :: 0 <= i < |slots| && slots[i].Card? ==>
              && slots[i].question == visible[i]
              && Some(slots[i].category) == FindCategory(cats, visible[i].categoryId)
              && (slots[i].isTop <==> i == 0)
              && slots[i].interactive == slots[i].isTop
  {
    seq(|visible|, i requires 0 <= i < |visible| =>
      match FindCategory(cats, visible[i].categoryId)
      case None => Hidden
      case Some(c) => Card(visible[i], c, i == 0, i == 0))
  }

  /**
   * As written, a queued question whose category is unknown renders nothing but still holds
   * position 0: then no drawn card is the top card and none can be swiped.
   */
  lemma OrphanHeadLeavesNoTopCard(queue: seq<Question>, cats: seq<Category>)
    requires |queue| > 0 && FindCategory(cats, queue[0].categoryId).None?
    ensures forall s :: s in Render(VisibleCards(queue), cats) ==> !(s.Card? && s.interactive)
  {
    var slots := Render(VisibleCards(queue), cats);
    forall s | s in slots ensures !(s.Card? && s.interactive) {
      var i :| 0 <= i < |slots| && slots[i] == s;
    }
  }

  /** The queue with questions of unknown category left out, as the design intends. */
  function RenderableQueue(qs: seq<Question>, cats: seq<Category>, p: UserProgress, cap: int): (r: seq<Question>)
    ensures IsSubsequence(r, qs)
    ensures forall q :: q in r <==> q in Queue(qs, p, cap) && FindCategory(cats, q.categoryId).Some?
  {
    Filter(q => Keeps(q, p, cap) && FindCategory(cats, q.categoryId).Some?, qs)
  }

  /** With the corrected queue, a non-empty stack always shows an interactive top card. */
  lemma RenderableHeadIsInteractive(qs: seq<Question>, cats: seq<Category>, p: UserProgress, cap: int)
    requires |RenderableQueue(qs, cats, p, cap)| > 0
    ensures var slots := Render(VisibleCards(RenderableQueue(qs, cats, p, cap)), cats);
            |slots| > 0 && slots[0].Card? && slots[0].isTop && slots[0].interactive
  {
    var queue := RenderableQueue(qs, cats, p, cap);
    assert queue[0] in queue;
  }
}
