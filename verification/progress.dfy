/** The per-device progress record (client/src/lib/useLocalStorage.ts). */
module Progress {
  import Catalog

  /**
   * Question ids swiped right and left, the active category filter, and the per-category
   * shown counter. The arrays are kept as lists: the source appends without deduplicating.
   */
  datatype UserProgress = UserProgress(
    answeredQuestions: seq<int>,
    savedForLater: seq<int>,
    currentFilters: seq<int>,
    shownQuestionsPerCategory: map<int, int>)

  /** `shownQuestionsPerCategory[cat] || 0`: a missing (or zero) count reads as 0. */
  function ShownCount(p: UserProgress, cat: int): (n: int)
    ensures cat !in p.shownQuestionsPerCategory ==> n == 0
    ensures cat in p.shownQuestionsPerCategory ==> n == p.shownQuestionsPerCategory[cat]
  {
    if cat in p.shownQuestionsPerCategory then p.shownQuestionsPerCategory[cat] else 0
  }

  /** `defaultProgress`: nothing answered or saved, filters 1..9, no counts. */
  function DefaultProgress(): (p: UserProgress)
    ensures p.answeredQuestions == [] && p.savedForLater == []
    ensures |p.currentFilters| == 9
    ensures forall i :: 0 <= i < 9 ==> p.currentFilters[i] == i + 1
    ensures p.shownQuestionsPerCategory == map[]
  {
    UserProgress([], [], [1, 2, 3, 4, 5, 6, 7, 8, 9], map[])
  }

  /** The default filter selects exactly the default categories, in their order. */
  lemma DefaultFiltersAreDefaultCategories()
    ensures DefaultProgress().currentFilters == Catalog.CategoryIds(Catalog.DefaultCategories())
  {
  }
}
