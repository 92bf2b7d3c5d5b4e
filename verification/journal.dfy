/** The conversation journal (client/src/components/ConversationJournal.tsx). */
module Journal {
  import opened Seqs
  import opened Catalog
  import opened Progress
  import Selector
  import Home
  import Nav

  /** The loaded questions whose id is listed, in question-list order. */
  function ItemsWithIds(qs: seq<Question>, ids: seq<int>): (r: seq<Question>)
    ensures IsSubsequence(r, qs)
    ensures forall q :: q in r <==> q in qs && q.id in ids
  {
    Filter((q: Question) => q.id in ids, qs)
  }

  /** `savedItems`: the questions whose id is saved. */
  function SavedItems(qs: seq<Question>, savedQuestions: seq<int>): (r: seq<Question>)
    ensures IsSubsequence(r, qs)
    ensures forall q :: q in r <==> q in qs && q.id in savedQuestions
  {
    ItemsWithIds(qs, savedQuestions)
  }

  /** `answeredItems`: the questions whose id is answered. */
  function AnsweredItems(qs: seq<Question>, answeredQuestions: seq<int>): (r: seq<Question>)
    ensures IsSubsequence(r, qs)
    ensures forall q :: q in r <==> q in qs && q.id in answeredQuestions
  {
    ItemsWithIds(qs, answeredQuestions)
  }

  /** A saved or answered id that names no loaded question lists nothing. */
  lemma UnknownIdsAreNotListed(qs: seq<Question>, ids: seq<int>, id: int)
    requires forall q :: q in qs ==> q.id != id
    ensures forall q :: q in SavedItems(qs, ids) ==> q.id != id
    ensures forall q :: q in AnsweredItems(qs, ids) ==> q.id != id
  {
  }

  /**
   * `progressPercent`: `Math.round(answered / total * 100)` on exact reals (round half up),
   * and 0 when there are no questions at all.
   */
  function ProgressPercent(answeredCount: nat, totalQuestions: nat): (pct: int)
    ensures totalQuestions == 0 ==> pct == 0
    ensures totalQuestions > 0 ==>
              var exact := (answeredCount as real / totalQuestions as real) * 100.0;
              pct as real - 0.5 <= exact < pct as real + 0.5
  {
    if totalQuestions > 0 then ((answeredCount as real / totalQuestions as real) * 100.0 + 0.5).Floor
    else 0
  }

  /** The header numbers: the raw length of `answeredQuestions` over the number of questions. */
  datatype Summary = Summary(discussed: nat, total: nat, percent: int, savedBadge: nat, discussedCount: nat)

  function Summarize(qs: seq<Question>, savedQuestions: seq<int>, answeredQuestions: seq<int>): (s: Summary)
    ensures s.discussed == |answeredQuestions| && s.total == |qs|
    ensures s.percent == ProgressPercent(|answeredQuestions|, |qs|)
    ensures s.savedBadge == |SavedItems(qs, savedQuestions)| <= |qs|
    ensures s.discussedCount == |AnsweredItems(qs, answeredQuestions)| <= |qs|
  {
    Summary(|answeredQuestions|, |qs|, ProgressPercent(|answeredQuestions|, |qs|),
            |SavedItems(qs, savedQuestions)|, |AnsweredItems(qs, answeredQuestions)|)
  }

  /** The counter counts raw answers, so a repeated answer can push it past the question total. */
  lemma DiscussedCanExceedTotal()
    ensures Summarize([Question(1, "Q?", 1, false)], [], [1, 1]).discussed == 2
    ensures Summarize([Question(1, "Q?", 1, false)], [], [1, 1]).total == 1
  {
  }

  /**
   * Clicking a saved item dispatches move-to-top with that item's id: the item leaves the saved list,
   * every other saved question stays saved, answers are untouched and the home tab opens.
   */
  function ClickSavedItem(s: Home.AppState, item: Question): (r: Home.AppState)
    ensures item.id !in r.progress.savedForLater
    ensures forall id :: id in s.progress.savedForLater && id != item.id ==> id in r.progress.savedForLater
    ensures r.progress.answeredQuestions == s.progress.answeredQuestions
    ensures r.activeTab == Nav.HomeTab
  {
    Home.MoveToTop(s, item.id)
  }

  /**
   * Requeue: after clicking a saved item it is no longer saved (nor listed as saved), answers are
   * untouched, the home tab is open, and the question is queued again when its category is filtered
   * in, it is not answered, and it is premium or its category is under the cap.
   */
  lemma ClickRequeues(s: Home.AppState, qs: seq<Question>, item: Question, cap: int)
    requires item in SavedItems(qs, s.progress.savedForLater)
    ensures var r := ClickSavedItem(s, item);
            && item !in SavedItems(qs, r.progress.savedForLater)
            && r.progress.answeredQuestions == s.progress.answeredQuestions
            && r.activeTab == Nav.HomeTab
            && (item in Selector.Queue(qs, r.progress, cap) <==>
                  && item.categoryId in s.progress.currentFilters
                  && item.id !in s.progress.answeredQuestions
                  && (item.isPremium || ShownCount(s.progress, item.categoryId) < cap))
  {
  }
}
