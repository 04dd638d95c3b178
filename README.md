# prompt-pal, modelled in Dafny

prompt-pal is a browser-extension popup that keeps a list of saved prompt
snippets. Each snippet is a `Prompt` record with an id, a title, a content, a
category, a usage count and a creation timestamp. The popup lets the user add,
edit and delete snippets. It shows them on a home screen, filtered by a
case-insensitive search on one selected field, grouped by category, with the
groups ordered by total usage and each group ordered by usage count. A small
store module offers its own add, update and usage-increment actions (it has no
delete) and a flat, filtered and sorted view. Its add does not check the texts,
and its update spreads any field of a partial record. The popup does not use
it: the popup keeps its own collection, loaded from and saved to storage, and
never reads the store. The store's collection starts empty. In these files only
the add dialog, which the popup does not render, calls its `addPrompt`. A prompt card's copy calls its `incrementUsage` with a
record from the popup's collection (see "## Findings").

This project models that logic and proves properties of it:

- `types.dfy` (module `PromptTypes`) holds the record, the field selector and
  the search rule. It also holds the id-matching `map` that every update of the
  collection is built from.
- `js_string.dfy` (module `JsString`) holds the JavaScript string operations the
  popup relies on: `toLowerCase`, `includes` and `trim`.
- `js_array.dfy` (module `JsArray`) holds `filter` and the stable sort by a
  descending key. The stable sort is specified as an insertion sort on
  sequences. It is proved to equal every sorted, stable rearrangement, so it is
  the result of `Array.prototype.sort` whatever algorithm the engine uses. An
  in-place array version of it is proved equal to it.
- `prompt_store.dfy` (module `PromptStore`) models the store. It is a
  class `Store` whose methods replace the fields `prompts`, `filterType` and
  `searchQuery`. The new collections are pure functions with lemmas.
- `app.dfy` (module `App`) models the popup component:
  - a class `PromptPal` with the component's state slots and a ghost
    `persisted` copy of what was last written to storage;
  - the add, edit and delete handlers;
  - a prompt card's copy, as written and corrected (see "## Findings");
  - the home screen derivation. Its functions are the filter, the first-seen
    category keys, the groups, the aggregate usage and the sections. Its
    methods are the grouping `reduce`, the in-place group sort and the render
    loop.
- `projections.dfy` (module `Projections`) proves that the store's flat view
  and the popup's grouped view agree within each category when both are given
  the same collection. The program never gives them the same collection; the
  lemma compares the two rules, not two running states.
- `scenarios.dfy` (module `Scenarios`) works through two concrete situations:
  a tie between two categories, and a record moved to a new category.

Decisions on semantics:

- `Array.prototype.sort` is stable, so ties keep their input order. This
  applies both to the categories (first-seen order) and within a group.
- `Object.keys` of the grouping accumulator lists categories in first-seen
  order. `CategoryKeys` states this order explicitly.
- `"".includes("")` holds. So the component's filter, which has no early
  return, keeps everything for an empty term, just as the store's early return
  does. `PromptStore.KeepsIsMatches` proves the two filters agree on every
  record.
- `updatePrompt` takes a partial record. It is modelled as `Patch`, whose
  fields are `Option`s, and a supplied field overrides the record's.

Facts about the code that the model keeps:

- `updatePrompt`'s spread overwrites `id`, `usageCount` and `createdAt` when the
  partial record supplies them (`PromptStore.UpdatedAt`).
  `PromptStore.UpdatedKeepsIds` states what holds when no id is supplied.
- The store's `addPrompt` does not check its texts; only the component's handler
  does.
- Nothing in the code checks that ids are unique. Lemmas that need it take
  `UniqueIds` or a freshness condition.

## Model

| member | source | states |
|---|---|---|
| JsString.ToLowerCase | src/store/prompt-store.ts:52 | lower-casing keeps the length |
| JsString.ToLowerCaseEmpty | src/store/prompt-store.ts:52-56 | only the empty string lower-cases to the empty string, so testing the lower-cased query for emptiness tests the query |
| JsString.IncludesIffOccurs | src/store/prompt-store.ts:59-63 | `includes` holds exactly when the query occurs at some position of the string |
| JsString.IncludesEmpty | src/App.tsx:105-111 | every string includes the empty string |
| JsString.TrimStartSpec | src/App.tsx:62 | trimming the start keeps a suffix that does not start with white space and drops a white-space-only prefix |
| JsString.TrimEndSpec | src/App.tsx:62 | trimming the end keeps a prefix that does not end with white space and drops a white-space-only suffix |
| JsString.TrimSpec | src/App.tsx:62 | `trim()` returns a piece of the string with only white space on either side of it, and the piece neither starts nor ends with white space |
| JsString.TrimStartBlank | src/App.tsx:62 | a white-space-only string trims to nothing from the start |
| JsString.TrimEmptyIffBlank | src/App.tsx:62 | `s.trim()` is empty exactly when `s` is white space only |
| JsArray.Filter | src/App.tsx:105-111 | `filter` returns no more elements than it was given, each from the input (sub-multiset) |
| JsArray.FilterMembers | src/App.tsx:105-111 | every kept element is from the input and passes the predicate, and every input element that passes is kept |
| JsArray.SortedFilterMembers | src/store/prompt-store.ts:54-68 | every element of the sorted filter is an input element that passes the predicate |
| JsArray.SortedFilterKeeps | src/store/prompt-store.ts:54-68 | every input element that passes the predicate is in the sorted filter |
| JsArray.FilterConcat | src/App.tsx:113-120 | filtering distributes over concatenation |
| JsArray.FilterSingleton | src/App.tsx:113-120 | a one-element sequence keeps its element exactly when it passes |
| JsArray.FilterSplit | src/App.tsx:97-99 | filtering out one failing element joins what is kept on either side of it |
| JsArray.FilterAll | src/App.tsx:97-99 | a predicate that every element passes keeps the whole sequence |
| JsArray.FilterSameVerdict | src/store/prompt-store.ts:55-67 | two predicates that agree on every element filter alike |
| JsArray.FilterCommutes | src/App.tsx:105-120 | two filters can be applied in either order |
| JsArray.InsertDesc | src/store/prompt-store.ts:68 | one insertion step keeps every element and adds the inserted one (multiset) |
| JsArray.InsertDescSorted | src/store/prompt-store.ts:68 | inserting into a sequence in descending key order keeps it in descending key order |
| JsArray.SortDesc | src/store/prompt-store.ts:68 | the sort by descending key is a permutation of its input, in non-increasing key order |
| JsArray.SortDescStable | src/store/prompt-store.ts:68 | the sort is stable: for every key value, the elements with that key keep their input order |
| JsArray.SortedStableUnique | src/store/prompt-store.ts:68 | two sequences in descending key order that agree on the order of each key's elements are equal |
| JsArray.StableSortIsSortDesc | src/store/prompt-store.ts:68 | any sorted, stable rearrangement of the input is the modelled sort, so the result does not depend on the engine's algorithm |
| JsArray.SortDescOfSorted | src/App.tsx:213-216 | sorting a sequence already in descending key order leaves it as it is |
| JsArray.FilterKeepsSortedDesc | src/store/prompt-store.ts:54-68 | filtering a sequence in descending key order keeps that order |
| JsArray.SortFilterCommute | src/store/prompt-store.ts:54-68 | filtering the sorted sequence gives the sorted filtered sequence |
| JsArray.InsertDescAt | src/App.tsx:213-216 | inserting before the first strictly smaller key puts the element at that position and keeps both sides |
| JsArray.InsertInPlace | src/App.tsx:213-216 | one insertion step of the in-place sort: the first `i + 1` slots become the insertion of slot `i` into the sorted first `i`, and later slots are unchanged |
| JsArray.SortDescInPlace | src/App.tsx:213-216 | the in-place sort of an array by descending key leaves in the array exactly the stable sort of its old contents |
| PromptTypes.Ids | src/types/index.ts:1-8 | the id sequence has one id per record, in order |
| PromptTypes.AppendFreshKeepsUniqueIds | src/store/prompt-store.ts:24-31 | appending a record whose id is not in use keeps ids unique |
| PromptTypes.ReplaceById | src/store/prompt-store.ts:36-38 | the id-matching `map` keeps the length |
| PromptTypes.ReplaceByIdAt | src/store/prompt-store.ts:36-38 | the id-matching `map` rewrites a record exactly when its id matches and leaves the others as they were |
| PromptTypes.ReplaceByIdAbsent | src/store/prompt-store.ts:36-38 | the id-matching `map` with an id no record carries leaves the collection as it was |
| PromptTypes.ReplaceByIdKeepsIds | src/store/prompt-store.ts:36-38 | a rewrite that keeps ids keeps the id sequence, and so keeps ids unique |
| PromptStore.UpdatedAt | src/store/prompt-store.ts:34-40 | `updatePrompt` keeps the length; a matching record takes each supplied field and keeps each other field; a record with another id is unchanged |
| PromptStore.UpdatedUnknownId | src/store/prompt-store.ts:34-40 | `updatePrompt` with an unknown id leaves the collection unchanged |
| PromptStore.UpdatedKeepsIds | src/store/prompt-store.ts:34-40 | a partial record without an id keeps every id, so ids stay unique |
| PromptStore.IncrementedAt | src/store/prompt-store.ts:42-48 | `incrementUsage` keeps the length and raises a matching record's count by exactly one, changing nothing else about it; other records are unchanged |
| PromptStore.IncrementedUnknownId | src/store/prompt-store.ts:42-48 | `incrementUsage` with an unknown id leaves the collection unchanged |
| PromptStore.IncrementedKeepsIds | src/store/prompt-store.ts:42-48 | `incrementUsage` never changes an id, so ids stay unique |
| PromptStore.KeepsIsMatches | src/store/prompt-store.ts:55-66 | the store's filter callback, with its early return on an empty query, agrees on every record with the plain search rule |
| PromptStore.KeepsFilterIsMatchesFilter | src/store/prompt-store.ts:54-67 | the store's filter keeps the same records, in the same order, as the plain search rule |
| PromptStore.FilteredViewMembers | src/store/prompt-store.ts:50-68 | `getFilteredPrompts` returns a record exactly when the lower-cased selected field includes the lower-cased query |
| PromptStore.FilteredViewSpec | src/store/prompt-store.ts:50-68 | `getFilteredPrompts` is a permutation of the matching records, in non-increasing usage order, with ties in collection order |
| PromptStore.FilteredViewEmptyQuery | src/store/prompt-store.ts:52-56 | with an empty query, `getFilteredPrompts` returns every record (a permutation of the collection), whatever the field selector |
| PromptStore.Store.constructor | src/store/prompt-store.ts:16-19 | the store starts with no records, the title field selected and an empty query |
| PromptStore.Store.SetFilterType | src/store/prompt-store.ts:21 | `setFilterType` sets the field selector and leaves the records and the query as they were |
| PromptStore.Store.SetSearchQuery | src/store/prompt-store.ts:22 | `setSearchQuery` sets the query and leaves the records and the field selector as they were |
| PromptStore.Store.AddPrompt | src/store/prompt-store.ts:24-32 | `addPrompt` appends exactly one record with the given texts, a zero count, the given id and the given time, with no check on the texts; the old records stay as a prefix |
| PromptStore.Store.UpdatePrompt | src/store/prompt-store.ts:34-40 | `updatePrompt` replaces the records by their spread with the partial record, and nothing else |
| PromptStore.Store.IncrementUsage | src/store/prompt-store.ts:42-48 | `incrementUsage` replaces the records by their incremented version, and nothing else |
| PromptStore.Store.GetFilteredPrompts | src/store/prompt-store.ts:50-69 | `getFilteredPrompts` changes no field; it returns a stable sort by descending usage of the matching records, and every record when the query is empty |
| App.FilledIffNotBlank | src/App.tsx:62 | the handlers' guard `text.trim()` holds exactly when the text is not white space only |
| App.EditedAt | src/App.tsx:81-85 | an edit keeps the length; the edited record takes the new title, content and category and keeps its id, usage count and timestamp; other records are unchanged |
| App.EditedKeepsIds | src/App.tsx:81-85 | an edit never changes an id, so ids stay unique |
| App.RemainingSpec | src/App.tsx:97-99 | a delete drops every record with the id, keeps every other record, and a second delete of the same id changes nothing |
| App.RemainingRemovesOne | src/App.tsx:97-99 | with unique ids, deleting a present id removes exactly that record and keeps the others in order |
| App.RemainingKeepsUniqueIds | src/App.tsx:97-99 | a delete keeps ids unique |
| App.DeletedIdIsGone | src/App.tsx:95-103 | after a delete, any id-matching update of the same id (edit, `updatePrompt`, `incrementUsage`) is a no-op |
| App.VisibleSpec | src/App.tsx:105-111 | `filteredPrompts` keeps exactly the matching records, and an empty term keeps the whole collection whatever the field selector |
| App.VisibleMatches | src/App.tsx:105-111 | every record of `filteredPrompts` matches the search |
| App.FirstIndex | src/App.tsx:113-122 | the first position of a category: a record of that category, with none before it |
| App.CategoryKeysFirstSeen | src/App.tsx:113-122 | the accumulator's keys are exactly the categories of the filtered records, in the order of their first occurrence |
| App.CategoryKeysDistinct | src/App.tsx:113-122 | no key appears twice |
| App.GroupOfKey | src/App.tsx:113-120 | every key's group is non-empty, and all its members carry that exact category |
| App.GroupOfAbsent | src/App.tsx:113-120 | a category no record carries has an empty group |
| App.GroupOfNonKey | src/App.tsx:113-120 | a category that is not a key has no records |
| App.GroupAppend | src/App.tsx:115-116 | one more record extends its category's group by itself and leaves the other groups |
| App.GroupsPartition | src/App.tsx:113-120 | the groups, concatenated in key order, hold exactly the filtered records, each once |
| App.AggregateConcat | src/App.tsx:123-130 | the usage sum of two joined groups is the sum of their usage sums |
| App.AggregateOfSorted | src/App.tsx:123-130 | sorting a group does not change its usage sum |
| App.SortedCategoriesSpec | src/App.tsx:122-132 | `sortedCategories` is a permutation of the keys, in non-increasing aggregate usage, with ties in first-seen order |
| App.Sections | src/App.tsx:203-217 | one section per category |
| App.SectionsAt | src/App.tsx:203-217 | the section at index `i` is the `i`-th category with its sorted group |
| App.SortedCategoryIsKey | src/App.tsx:122-132 | every category heading is a key of the grouping |
| App.SortedGroupMembers | src/App.tsx:213-216 | a key's sorted group is non-empty, holds only matching records of that category, and keeps the group's usage sum |
| App.HomeViewSections | src/App.tsx:203-217 | every section is a non-empty group of one category whose records all match the search; it is in non-increasing usage order, a permutation of the group, and stable on ties |
| App.HomeViewOrdered | src/App.tsx:122-132 | sections come in non-increasing order of their aggregate usage |
| App.CategoryHasHeading | src/App.tsx:122-132 | every category of the filtered records gets a heading |
| App.InOwnSortedGroup | src/App.tsx:213-216 | a filtered record is in the sorted group of its category |
| App.HomeViewAt | src/App.tsx:203-217 | the home screen's section at index `i` is the `i`-th sorted category with its sorted group |
| App.HomeViewCovers | src/App.tsx:105-120 | every matching record is shown, in a section of its own category |
| App.GroupPrompts | src/App.tsx:113-120 | the grouping `reduce` returns the first-seen keys and, for each key and only for keys, the records of that category in filtered order |
| App.SortGroup | src/App.tsx:213-216 | the group array sorted in place is the stable sort of the group by descending usage |
| App.BuildSections | src/App.tsx:203-217 | the render loop builds one section per category, each holding the sorted group array of that category |
| App.PromptPal.constructor | src/App.tsx:36-54 | the initial slot values, then the load: an absent stored collection reads as empty, and storage mirrors the collection |
| App.PromptPal.SavePrompts | src/App.tsx:56-59 | `savePrompts` sets the collection and the stored copy to the new collection |
| App.PromptPal.HandleAddPrompt | src/App.tsx:61-77 | with filled title and content, appends one record with the untrimmed texts, the form's category and a zero count, saves it, and resets the form; otherwise changes nothing |
| App.PromptPal.HandleEditPrompt | src/App.tsx:79-93 | with a record being edited and filled texts, rewrites that record's title, content and category, saves, clears the edit and resets the form; otherwise changes nothing |
| App.PromptPal.HandleDeletePrompt | src/App.tsx:95-103 | with a record pending deletion, removes every record with its id, saves, and clears the pending slot; otherwise changes nothing |
| App.PromptPal.SaveForm | src/App.tsx:296-297 | the Save button runs the add handler on the add screen and the edit handler on any other screen, with each handler's full outcome: the new collection, the home screen, the cleared form and edit slot, and every other slot kept; on the edit screen with no record being edited, or with a text that is white space only, nothing changes |
| App.PromptPal.RequestDelete | src/App.tsx:227 | a card's delete button puts the record in the pending slot |
| App.PromptPal.CancelDelete | src/App.tsx:321-330 | closing or cancelling the dialog clears the pending slot |
| App.PromptPal.BeginEdit | src/App.tsx:220-226 | a card's edit button fills the form from the record and opens the edit screen |
| App.PromptPal.OpenAddPage | src/App.tsx:198 | the "Add New Prompt" button opens the add screen |
| App.PromptPal.CancelForm | src/App.tsx:303-309 | the form's cancel button returns home, clears the edit and resets the form |
| App.PromptPal.SetSearchTerm | src/App.tsx:178 | typing in the search box sets the term |
| App.PromptPal.SetFilterBy | src/App.tsx:183-185 | choosing a search field sets the selector |
| App.PromptPal.SetForm | src/App.tsx:261-290 | typing in the form sets its title, content and category |
| App.PopupHandlersKeepCounts | src/App.tsx:61-103 | no handler of the popup raises a usage count: an edit keeps every record's count and a delete keeps records as they were |
| App.CopyAsWrittenMissesCount | src/components/prompt/PromptCard.tsx:18-24 | the copy's increment on the store's initial empty collection matches nothing, while on the popup's collection it would raise the copied record's count by one |
| App.CopyCountsOnce | src/components/prompt/PromptCard.tsx:21-24 | with unique ids, the intended copy raises the copied record's count by exactly one, leaves every other record as it was and keeps ids unique |
| App.PromptPal.CopyAsWritten | src/components/prompt/PromptCard.tsx:18-24 | a card's click as written increments the store's collection and leaves the popup's collection and storage as they were |
| App.PromptPal.HandleCopy | src/components/prompt/PromptCard.tsx:21-24 | a card's click, corrected: the popup's collection becomes its increment for the copied id, and it is saved |
| App.PromptPal.Render | src/App.tsx:105-132 | the rendered list is the home screen of the current collection, field selector and term, and no slot changes |
| Projections.StoreViewByCategory | src/store/prompt-store.ts:50-68 | given the same collection and search, restricting `getFilteredPrompts()` to one category gives exactly the records the home screen lists under that category, in the same order |
| Scenarios.TiedCategoriesKeepFirstSeenOrder | src/App.tsx:122-132 | with an empty search, two records of one category (used, say, 3 and 7 times) followed by a record of another category used as much as both together give the first category first, since the tie keeps first-seen order, with its more used record first |
| Scenarios.RecategorizedRecordMovesGroup | src/App.tsx:79-93 | saving an edit that moves the only record of a category to a new category, with an empty search, removes the old heading and adds the new one |
| Scenarios.NoHeadingWithoutRecords | src/App.tsx:113-132 | a category that no filtered record carries gets no heading |

## Left out

- Rendering: the JSX, the animation variants and the `hasAnimated` flag. They are presentation and have no contract to check.
- Storage: `chrome.storage.local` reads and writes are platform I/O. The loaded value is the constructor's parameter, and what was written is the ghost field `persisted`.
- Ids and clocks: `crypto.randomUUID()` and `Date.now()` are foreign calls. They are the parameters `id` and `now`.
- PromptPal.HandleAddPrompt: the fresh id is a parameter, so its uniqueness is not promised. `AppendFreshKeepsUniqueIds` states what a fresh id preserves.
- PromptStore.Store.AddPrompt: the fresh id is a parameter here too, with the same consequence.
- JsString.LowerChar: it maps only the ASCII letters A-Z. The Unicode case mappings of `toLowerCase` (accented letters, special cases that change length) are not modelled.
- App.CategoryKeys: `Object.keys` lists integer-like keys such as `"42"` first, in numeric order. For a category that names an inherited member of `Object.prototype`, such as `"constructor"`, `"toString"` or `"__proto__"`, `acc[prompt.category] || []` (src/App.tsx:115) yields the inherited member, and `.push` (src/App.tsx:116) then throws a `TypeError`, so the home screen fails to render. The model assumes first-seen order for every category string and never fails.
- PromptStore.Patch: a partial record whose field is present but set to `undefined` is not modelled. A field is either supplied with a value or absent.
- Usage counts are unbounded naturals. The comparators' `usageB - usageA` on JavaScript numbers has no float or overflow behaviour here.
- App.GroupPrompts: the accumulator is a map of sequences that the loop reassigns. The source pushes into each group's array in place, each key getting its own fresh `[]` (src/App.tsx:115); the model reassigns a map of sequences instead.
- src/components/prompt/PromptCard.tsx: its clipboard write and timed reset are I/O and are not modelled. Its state change, the store's `incrementUsage` on a record of the popup's collection, is modelled as written (`App.PromptPal.CopyAsWritten`) and corrected (`App.PromptPal.HandleCopy`); see "## Findings".
- src/components/prompt/AddPromptDialog.tsx is not part of this model. It is a form that forwards to the store's `addPrompt`, and the popup does not render it.
- Persistence failures and the ordering of asynchronous writes are not modelled. Each save writes the whole collection synchronously.

## Findings

| source | as written | input that shows it | evidently intended | confidence | as-written member | corrected member |
|---|---|---|---|---|---|---|
| src/components/prompt/PromptCard.tsx:18-24 | copying a card raises the usage count in the store's collection. That collection starts as `[]` and the popup never adds to it; the popup keeps its own collection and never reads the store. | any loaded record copied from the home screen: the store's collection stays `[]`, and the popup's record keeps its count, so no record's usage count rises after the load, and both usage orders reflect only the loaded counts | the popup's own record of the copied prompt gains one use and the collection is saved, so the home screen's order follows the copies | not executed; medium, since the home screen is ordered by usage (src/App.tsx:122-132, 213-216) and nothing else ever raises a count | App.PromptPal.CopyAsWritten, App.CopyAsWrittenMissesCount, App.PopupHandlersKeepCounts | App.PromptPal.HandleCopy, App.CopyCountsOnce |
