/** The prompt store: a state holder with the collection, the search
    field selector and the search query, and the actions that replace them. */
module PromptStore {
  import opened PromptTypes
  import opened JsString
  import opened JsArray

  /** The argument of `addPrompt`: a record without its id, usage count and timestamp. */
  datatype Draft = Draft(title: string, content: string, category: string)

  /** The argument of `updatePrompt`, a partial record: `None` is a field the object does not carry. */
  datatype Patch = Patch(
    id: Option<string>,
    title: Option<string>,
    content: Option<string>,
    category: Option<string>,
    usageCount: Option<nat>,
    createdAt: Option<int>)

  /** The supplied value if there is one, otherwise the current one. */
  function Pick<T>(supplied: Option<T>, current: T): T
  {
    match supplied
    case Some(v) => v
    case None => current
  }

  /** `{ ...p, ...u }`: every field `u` carries overrides the one of `p`. */
  function Spread(p: Prompt, u: Patch): Prompt
  {
    Prompt(
      Pick(u.id, p.id),
      Pick(u.title, p.title),
      Pick(u.content, p.content),
      Pick(u.category, p.category),
      Pick(u.usageCount, p.usageCount),
      Pick(u.createdAt, p.createdAt))
  }

  function SpreadWith(u: Patch): Prompt -> Prompt
  {
    p => Spread(p, u)
  }

  /** The collection after `updatePrompt(id, u)`. */
  function Updated(ps: seq<Prompt>, id: string, u: Patch): seq<Prompt>
  {
    ReplaceById(ps, id, SpreadWith(u))
  }

  /** `{ ...p, usageCount: p.usageCount + 1 }`. */
  function Bump(p: Prompt): Prompt
  {
    p.(usageCount := p.usageCount + 1)
  }

  /** The collection after `incrementUsage(id)`. */
  function Incremented(ps: seq<Prompt>, id: string): seq<Prompt>
  {
    ReplaceById(ps, id, Bump)
  }

  /** The store's filter callback: an empty lower-cased query keeps everything,
      otherwise the lower-cased selected field must include it. */
  predicate Keeps(p: Prompt, ft: FilterType, searchQuery: string)
  {
    var query := ToLowerCase(searchQuery);
    if query == "" then true
    else Includes(ToLowerCase(SearchField(p, ft)), query)
  }

  function KeepsFor(ft: FilterType, searchQuery: string): Prompt -> bool
  {
    p => Keeps(p, ft, searchQuery)
  }

  /** `getFilteredPrompts()`: filter, then stable sort by descending usage count. */
  function FilteredView(ps: seq<Prompt>, ft: FilterType, searchQuery: string): seq<Prompt>
  {
    SortDesc(Filter(ps, KeepsFor(ft, searchQuery)), UsageOf)
  }

  /** `updatePrompt` keeps the length; a matching record takes every supplied field and
      keeps every other one; a record with another id is left as it was. */
  lemma UpdatedAt(ps: seq<Prompt>, id: string, u: Patch, i: nat)
    requires i < |ps|
    ensures |Updated(ps, id, u)| == |ps|
    ensures ps[i].id == id ==>
      var r := Updated(ps, id, u)[i];
      && (if u.id.Some? then r.id == u.id.value else r.id == ps[i].id)
      && (if u.title.Some? then r.title == u.title.value else r.title == ps[i].title)
      && (if u.content.Some? then r.content == u.content.value else r.content == ps[i].content)
      && (if u.category.Some? then r.category == u.category.value else r.category == ps[i].category)
      && (if u.usageCount.Some? then r.usageCount == u.usageCount.value else r.usageCount == ps[i].usageCount)
      && (if u.createdAt.Some? then r.createdAt == u.createdAt.value else r.createdAt == ps[i].createdAt)
    ensures ps[i].id != id ==> Updated(ps, id, u)[i] == ps[i]
  {
    ReplaceByIdAt(ps, id, SpreadWith(u), i);
  }

  /** `updatePrompt` with an id no record carries leaves the collection unchanged. */
  lemma UpdatedUnknownId(ps: seq<Prompt>, id: string, u: Patch)
    requires forall i :: 0 <= i < |ps| ==> ps[i].id != id
    ensures Updated(ps, id, u) == ps
  {
    ReplaceByIdAbsent(ps, id, SpreadWith(u));
  }

  /** A patch that does not carry an id keeps every id, so ids stay unique. */
  lemma UpdatedKeepsIds(ps: seq<Prompt>, id: string, u: Patch)
    requires u.id.None?
    ensures Ids(Updated(ps, id, u)) == Ids(ps)
    ensures UniqueIds(ps) ==> UniqueIds(Updated(ps, id, u))
  {
    ReplaceByIdKeepsIds(ps, id, SpreadWith(u));
  }

  /** `incrementUsage` raises the count of a matching record by exactly one and changes
      nothing else about it; every other record is left as it was. */
  lemma IncrementedAt(ps: seq<Prompt>, id: string, i: nat)
    requires i < |ps|
    ensures |Incremented(ps, id)| == |ps|
    ensures ps[i].id == id ==>
      Incremented(ps, id)[i].usageCount == ps[i].usageCount + 1 &&
      Incremented(ps, id)[i] == ps[i].(usageCount := Incremented(ps, id)[i].usageCount)
    ensures ps[i].id != id ==> Incremented(ps, id)[i] == ps[i]
  {
    ReplaceByIdAt(ps, id, Bump, i);
  }

  /** `incrementUsage` with an id no record carries leaves the collection unchanged;
      it never changes an id. */
  lemma IncrementedUnknownId(ps: seq<Prompt>, id: string)
    requires forall i :: 0 <= i < |ps| ==> ps[i].id != id
    ensures Incremented(ps, id) == ps
  {
    ReplaceByIdAbsent(ps, id, Bump);
  }

  lemma IncrementedKeepsIds(ps: seq<Prompt>, id: string)
    ensures Ids(Incremented(ps, id)) == Ids(ps)
    ensures UniqueIds(ps) ==> UniqueIds(Incremented(ps, id))
  {
    ReplaceByIdKeepsIds(ps, id, Bump);
  }

  /** The store's early return for an empty query changes nothing: its filter
      callback agrees everywhere with the plain search rule. */
  lemma KeepsIsMatches(p: Prompt, ft: FilterType, searchQuery: string)
    ensures Keeps(p, ft, searchQuery) == Matches(p, ft, searchQuery)
  {
    ToLowerCaseEmpty(searchQuery);
    IncludesEmpty(ToLowerCase(SearchField(p, ft)));
  }

  lemma KeepsFilterIsMatchesFilter(ps: seq<Prompt>, ft: FilterType, searchQuery: string)
    ensures Filter(ps, KeepsFor(ft, searchQuery)) == Filter(ps, MatchesFor(ft, searchQuery))
  {
    forall i | 0 <= i < |ps|
      ensures KeepsFor(ft, searchQuery)(ps[i]) == MatchesFor(ft, searchQuery)(ps[i])
    {
      KeepsIsMatches(ps[i], ft, searchQuery);
    }
    FilterSameVerdict(ps, KeepsFor(ft, searchQuery), MatchesFor(ft, searchQuery));
  }

  /** `getFilteredPrompts` keeps a record exactly when it matches the search. */
  lemma FilteredViewMembers(ps: seq<Prompt>, ft: FilterType, searchQuery: string)
    ensures var r := FilteredView(ps, ft, searchQuery);
      && (forall i :: 0 <= i < |r| ==> r[i] in ps && Matches(r[i], ft, searchQuery))
      && (forall i :: 0 <= i < |ps| && Matches(ps[i], ft, searchQuery) ==> ps[i] in r)
  {
    var f := MatchesFor(ft, searchQuery);
    KeepsFilterIsMatchesFilter(ps, ft, searchQuery);
    SortedFilterMembers(ps, f, UsageOf);
    SortedFilterKeeps(ps, f, UsageOf);
    var r := FilteredView(ps, ft, searchQuery);
    forall i | 0 <= i < |r| ensures r[i] in ps && f(r[i]) {
      assert r[i] in r;
    }
    forall i | 0 <= i < |ps| && f(ps[i]) ensures ps[i] in r {
      assert ps[i] in ps;
    }
  }

  /** `getFilteredPrompts` puts the matching records in non-increasing usage order and
      leaves records of equal usage in their collection order: it is a stable sort of
      the matching subsequence. */
  lemma FilteredViewSpec(ps: seq<Prompt>, ft: FilterType, searchQuery: string)
    ensures var r := FilteredView(ps, ft, searchQuery);
      && multiset(r) == multiset(Filter(ps, MatchesFor(ft, searchQuery)))
      && SortedDesc(r, UsageOf)
      && StableFor(r, Filter(ps, MatchesFor(ft, searchQuery)), UsageOf)
  {
    KeepsFilterIsMatchesFilter(ps, ft, searchQuery);
    SortDescStable(Filter(ps, MatchesFor(ft, searchQuery)), UsageOf);
  }

  /** With an empty query, `getFilteredPrompts` returns every record, whatever the
      field selector: the whole collection, stable sorted. */
  lemma FilteredViewEmptyQuery(ps: seq<Prompt>, ft: FilterType)
    ensures FilteredView(ps, ft, "") == SortDesc(ps, UsageOf)
    ensures multiset(FilteredView(ps, ft, "")) == multiset(ps)
  {
    forall i | 0 <= i < |ps| ensures KeepsFor(ft, "")(ps[i]) {
    }
    FilterAll(ps, KeepsFor(ft, ""));
  }

  /** The store. */
  class Store {
    var prompts: seq<Prompt>
    var filterType: FilterType
    var searchQuery: string

    constructor()
      ensures prompts == [] && filterType == ByTitle && searchQuery == ""
    {
      prompts := [];
      filterType := ByTitle;
      searchQuery := "";
    }

    /** `setFilterType(type)`. */
    method SetFilterType(t: FilterType)
      modifies this
      ensures filterType == t
      ensures prompts == old(prompts) && searchQuery == old(searchQuery)
    {
      filterType := t;
    }

    /** `setSearchQuery(query)`. */
    method SetSearchQuery(query: string)
      modifies this
      ensures searchQuery == query
      ensures prompts == old(prompts) && filterType == old(filterType)
    {
      searchQuery := query;
    }

    /** `addPrompt(draft)`: appends, without looking at the texts. The generated id and
        the clock reading are the parameters `id` and `now`. */
    method AddPrompt(draft: Draft, id: string, now: int)
      modifies this
      ensures prompts == old(prompts) + [Prompt(id, draft.title, draft.content, draft.category, 0, now)]
      ensures filterType == old(filterType) && searchQuery == old(searchQuery)
    {
      prompts := prompts + [Prompt(id, draft.title, draft.content, draft.category, 0, now)];
    }

    /** `updatePrompt(id, u)`. */
    method UpdatePrompt(id: string, u: Patch)
      modifies this
      ensures prompts == Updated(old(prompts), id, u)
      ensures filterType == old(filterType) && searchQuery == old(searchQuery)
    {
      prompts := Updated(prompts, id, u);
    }

    /** `incrementUsage(id)`. */
    method IncrementUsage(id: string)
      modifies this
      ensures prompts == Incremented(old(prompts), id)
      ensures filterType == old(filterType) && searchQuery == old(searchQuery)
    {
      prompts := Incremented(prompts, id);
    }

    /** `getFilteredPrompts()`: reads the store and changes none of it. */
    method GetFilteredPrompts() returns (r: seq<Prompt>)
      ensures r == FilteredView(prompts, filterType, searchQuery)
      ensures multiset(r) == multiset(Filter(prompts, MatchesFor(filterType, searchQuery)))
      ensures SortedDesc(r, UsageOf)
      ensures StableFor(r, Filter(prompts, MatchesFor(filterType, searchQuery)), UsageOf)
      ensures searchQuery == "" ==> multiset(r) == multiset(prompts)
    {
      r := FilteredView(prompts, filterType, searchQuery);
      FilteredViewSpec(prompts, filterType, searchQuery);
      if searchQuery == "" {
        FilteredViewEmptyQuery(prompts, filterType);
      }
    }
  }
}
