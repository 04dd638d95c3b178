/** How the store's flat result and the popup's grouped home screen relate when both are
    given the same collection: both apply the same search and the same stable sort by
    usage count. The program itself keeps the two collections apart; the popup never
    reads the store. */
module Projections {
  import opened PromptTypes
  import opened JsArray
  import PromptStore
  import App

  /** Restricting `getFilteredPrompts()` to one category gives exactly the records the
      home screen lists under that category's heading, in the same order. */
  lemma StoreViewByCategory(ps: seq<Prompt>, ft: FilterType, query: string, c: string)
    ensures Filter(PromptStore.FilteredView(ps, ft, query), App.InCategory(c))
      == App.SortedGroup(App.Visible(ps, ft, query), c)
  {
    PromptStore.KeepsFilterIsMatchesFilter(ps, ft, query);
    SortFilterCommute(Filter(ps, MatchesFor(ft, query)), App.InCategory(c), UsageOf);
  }
}
