/** The record a saved snippet is kept as, the search-field selector, and the
    id-matching `map` that every in-place edit of the collection is built from. */
module PromptTypes {
  import opened JsString

  datatype Option<T> = None | Some(value: T)

  /** A saved snippet. `createdAt` is a millisecond timestamp. */
  datatype Prompt = Prompt(
    id: string,
    title: string,
    content: string,
    category: string,
    usageCount: nat,
    createdAt: int)

  /** Which field a search is matched against; `ByPrompt` is the `"prompt"` option. */
  datatype FilterType = ByTitle | ByPrompt | ByCategory

  /** The field of `p` that `ft` selects: `"prompt"` selects the content. */
  function SearchField(p: Prompt, ft: FilterType): string
  {
    match ft
    case ByTitle => p.title
    case ByPrompt => p.content
    case ByCategory => p.category
  }

  /** The search rule: the lower-cased selected field includes the lower-cased query.
      An empty query is included in every field, so it keeps every record. */
  predicate Matches(p: Prompt, ft: FilterType, query: string)
  {
    Includes(ToLowerCase(SearchField(p, ft)), ToLowerCase(query))
  }

  /** `Matches` as a predicate value, for `filter`. */
  function MatchesFor(ft: FilterType, query: string): Prompt -> bool
  {
    p => Matches(p, ft, query)
  }

  /** The display-order key. */
  function UsageOf(p: Prompt): nat
  {
    p.usageCount
  }

  /** The ids of `ps`, in order. */
  function Ids(ps: seq<Prompt>): (r: seq<string>)
    ensures |r| == |ps|
    ensures forall i :: 0 <= i < |ps| ==> r[i] == ps[i].id
  {
    if ps == [] then [] else Ids(ps[..|ps| - 1]) + [ps[|ps| - 1].id]
  }

  /** No two records of `ps` share an id. */
  ghost predicate UniqueIds(ps: seq<Prompt>)
  {
    forall i, j :: 0 <= i < j < |ps| ==> ps[i].id != ps[j].id
  }

  /** Appending a record whose id is not yet in use keeps ids unique. */
  lemma AppendFreshKeepsUniqueIds(ps: seq<Prompt>, p: Prompt)
    requires UniqueIds(ps) && p.id !in Ids(ps)
    ensures UniqueIds(ps + [p])
  {
    forall i | 0 <= i < |ps| ensures ps[i].id != p.id {
      assert Ids(ps)[i] == ps[i].id;
    }
  }

  /** `ps.map(p => p.id === id ? f(p) : p)`. */
  function ReplaceById(ps: seq<Prompt>, id: string, f: Prompt -> Prompt): (r: seq<Prompt>)
    ensures |r| == |ps|
  {
    if ps == [] then []
    else
      var p := ps[|ps| - 1];
      ReplaceById(ps[..|ps| - 1], id, f) + [if p.id == id then f(p) else p]
  }

  /** Each record is rewritten by `f` exactly when its id matches; the others stay as they were. */
  lemma {:induction false} ReplaceByIdAt(ps: seq<Prompt>, id: string, f: Prompt -> Prompt, i: nat)
    requires i < |ps|
    ensures ReplaceById(ps, id, f)[i] == if ps[i].id == id then f(ps[i]) else ps[i]
  {
    if i < |ps| - 1 {
      ReplaceByIdAt(ps[..|ps| - 1], id, f, i);
    }
  }

  /** An id that no record carries leaves the collection as it was. */
  lemma {:induction false} ReplaceByIdAbsent(ps: seq<Prompt>, id: string, f: Prompt -> Prompt)
    requires forall i :: 0 <= i < |ps| ==> ps[i].id != id
    ensures ReplaceById(ps, id, f) == ps
  {
    if ps != [] {
      ReplaceByIdAbsent(ps[..|ps| - 1], id, f);
      assert ps == ps[..|ps| - 1] + [ps[|ps| - 1]];
    }
  }

  /** A rewrite that keeps ids keeps the id sequence, hence the uniqueness of ids. */
  lemma ReplaceByIdKeepsIds(ps: seq<Prompt>, id: string, f: Prompt -> Prompt)
    requires forall i :: 0 <= i < |ps| ==> f(ps[i]).id == ps[i].id
    ensures Ids(ReplaceById(ps, id, f)) == Ids(ps)
    ensures UniqueIds(ps) ==> UniqueIds(ReplaceById(ps, id, f))
  {
    var r := ReplaceById(ps, id, f);
    forall i | 0 <= i < |ps| ensures r[i].id == ps[i].id {
      ReplaceByIdAt(ps, id, f, i);
    }
  }
}
