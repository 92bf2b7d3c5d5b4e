/** The bottom navigation bar (client/src/components/BottomNav.tsx). */
module Nav {
  import opened Wrappers
  import opened Seqs
  import Decimal

  datatype Tab = HomeTab | FilterTab | JournalTab

  /** The tab list, in display order. */
  const Tabs: seq<Tab> := [HomeTab, FilterTab, JournalTab]

  /** The tab's id as the source spells it. */
  function TabId(t: Tab): string
  {
    match t
    case HomeTab => "home"
    case FilterTab => "filter"
    case JournalTab => "journal"
  }

  /** `activeTab === tab.id`: tab ids are distinct, so a tab is active exactly when it is the active tab. */
  predicate IsActive(t: Tab, activeTab: Tab): (b: bool)
    ensures b <==> t == activeTab
  {
    TabId(t) == TabId(activeTab)
  }

  /** Every tab is listed once, and exactly one listed tab is active, the `activeTab` itself. */
  lemma {:induction false} ExactlyOneActive(activeTab: Tab)
    ensures Filter(t => IsActive(t, activeTab), Tabs) == [activeTab]
    ensures NoDuplicates(Tabs) && activeTab in Tabs
  {
    assert Tabs[1..] == [FilterTab, JournalTab] && Tabs[2..] == [JournalTab] && Tabs[3..] == [];
    var f := (t: Tab) => IsActive(t, activeTab);
    assert Filter(f, Tabs[3..]) == [];
    assert Filter(f, Tabs[2..]) == if activeTab == JournalTab then [JournalTab] else [];
    assert Filter(f, Tabs[1..]) == if activeTab == HomeTab then [] else [activeTab];
  }

  /** Clicking a tab hands that tab to `onTabChange`. */
  function Click(t: Tab): (next: Tab)
    ensures IsActive(next, t) && TabId(next) == TabId(t)
  {
    t
  }

  /** The badge on a tab: only the journal tab, only with saved items; "99+" past 99, else the count. */
  function Badge(t: Tab, savedCount: nat): (badge: Option<string>)
    ensures badge.Some? <==> t == JournalTab && savedCount > 0
    ensures badge.Some? ==> (badge.value == "99+" <==> savedCount > 99)
    ensures badge.Some? && savedCount <= 99 ==>
              && Decimal.AllDigits(badge.value)
              && (|badge.value| > 1 ==> badge.value[0] != '0')
              && Decimal.ParseInt(badge.value) == Some(savedCount as int)
  {
    if t == JournalTab && savedCount > 0 then
      Decimal.ParseIntRoundTrip(savedCount);
      var digits := Decimal.NatToString(savedCount);
      assert digits != "99+" by {
        if |digits| == 3 { assert Decimal.IsDigit(digits[2]); }
      }
      Some(if savedCount > 99 then "99+" else digits)
    else None
  }

  /** The badge never shows more than two digits. */
  lemma BadgeIsShort(t: Tab, savedCount: nat)
    requires Badge(t, savedCount).Some?
    ensures |Badge(t, savedCount).value| <= 3
  {
    if savedCount <= 99 {
      var s := Decimal.NatToString(savedCount);
      if savedCount >= 10 {
        assert Decimal.NatToString(savedCount / 10) == [Decimal.DigitChar(savedCount / 10)];
      }
    }
  }
}
