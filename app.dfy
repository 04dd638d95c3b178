/** The popup component: its state slots, the add/edit/delete handlers that
    write the collection through to storage, and the derivation of the home
    screen (search filter, grouping by category, ordering of the groups and
    of each group's members). */
module App {
  import opened PromptTypes
  import opened JsString
  import opened JsArray
  import PromptStore

  /** The categories the form offers; the first one is the form's default. */
  const CategoryChoices: seq<string> := ["General", "Creative", "Technical", "Productivity", "Fun"]

  /** Which screen is shown. */
  datatype Page = Home | AddPage | EditPage

  /** A text the add and edit handlers accept: `text.trim()` is non-empty. */
  predicate Filled(text: string)
  {
    Trim(text) != ""
  }

  /** The handlers refuse exactly the texts made of white space only. */
  lemma FilledIffNotBlank(text: string)
    ensures Filled(text) <==> !Blank(text)
  {
    TrimEmptyIffBlank(text);
  }

  // ---------------------------------------------------------------------------
  // The collection edits of the handlers

  /** `{ ...p, title, content, category }`. */
  function WithTexts(title: string, content: string, category: string): Prompt -> Prompt
  {
    (p: Prompt) => p.(title := title, content := content, category := category)
  }

  /** The collection after a successful edit of the record with id `id`. */
  function Edited(ps: seq<Prompt>, id: string, title: string, content: string, category: string): seq<Prompt>
  {
    ReplaceById(ps, id, WithTexts(title, content, category))
  }

  /** An edit keeps the length; the edited record takes the new title, content and
      category and keeps its id, usage count and timestamp; the others are left as they were. */
  lemma EditedAt(ps: seq<Prompt>, id: string, title: string, content: string, category: string, i: nat)
    requires i < |ps|
    ensures |Edited(ps, id, title, content, category)| == |ps|
    ensures ps[i].id == id ==>
      var r := Edited(ps, id, title, content, category)[i];
      && r.title == title && r.content == content && r.category == category
      && r.id == ps[i].id && r.usageCount == ps[i].usageCount && r.createdAt == ps[i].createdAt
    ensures ps[i].id != id ==> Edited(ps, id, title, content, category)[i] == ps[i]
  {
    ReplaceByIdAt(ps, id, WithTexts(title, content, category), i);
  }

  /** An edit never changes an id. */
  lemma EditedKeepsIds(ps: seq<Prompt>, id: string, title: string, content: string, category: string)
    ensures Ids(Edited(ps, id, title, content, category)) == Ids(ps)
    ensures UniqueIds(ps) ==> UniqueIds(Edited(ps, id, title, content, category))
  {
    ReplaceByIdKeepsIds(ps, id, WithTexts(title, content, category));
  }

  function IdIsNot(id: string): Prompt -> bool
  {
    (p: Prompt) => p.id != id
  }

  /** `ps.filter(p => p.id !== id)`: the collection after deleting `id`. */
  function Remaining(ps: seq<Prompt>, id: string): seq<Prompt>
  {
    Filter(ps, IdIsNot(id))
  }

  /** Deleting removes every record with the id, keeps every other one, and a second
      delete of the same id changes nothing. */
  lemma RemainingSpec(ps: seq<Prompt>, id: string)
    ensures var r := Remaining(ps, id);
      && (forall i :: 0 <= i < |r| ==> r[i].id != id && r[i] in ps)
      && (forall i :: 0 <= i < |ps| && ps[i].id != id ==> ps[i] in r)
      && Remaining(r, id) == r
  {
    var r := Remaining(ps, id);
    FilterMembers(ps, IdIsNot(id));
    FilterAll(r, IdIsNot(id));
  }

  /** With unique ids, deleting an id that is present removes exactly that one record
      and keeps the others in their order. */
  lemma RemainingRemovesOne(ps: seq<Prompt>, id: string, i: nat)
    requires UniqueIds(ps) && i < |ps| && ps[i].id == id
    ensures Remaining(ps, id) == ps[..i] + ps[i + 1..]
  {
    var f := IdIsNot(id);
    var before, after := ps[..i], ps[i + 1..];
    assert ps == before + [ps[i]] + after;
    forall j | 0 <= j < |before| ensures f(before[j]) {
      assert before[j] == ps[j];
    }
    forall j | 0 <= j < |after| ensures f(after[j]) {
      assert after[j] == ps[i + 1 + j];
    }
    FilterAll(before, f);
    FilterAll(after, f);
    FilterSplit(before, ps[i], after, f);
  }

  /** Deleting keeps ids unique. */
  lemma {:induction false} RemainingKeepsUniqueIds(ps: seq<Prompt>, id: string)
    requires UniqueIds(ps)
    ensures UniqueIds(Remaining(ps, id))
  {
    if ps != [] {
      var ps', p := ps[..|ps| - 1], ps[|ps| - 1];
      assert UniqueIds(ps') by {
        forall i, j | 0 <= i < j < |ps'| ensures ps'[i].id != ps'[j].id {
          assert ps'[i] == ps[i] && ps'[j] == ps[j];
        }
      }
      RemainingKeepsUniqueIds(ps', id);
      LastIdNotRemaining(ps, id);
      AppendFreshKeepsUniqueIds(Remaining(ps', id), p);
      FilterDropLast(ps, IdIsNot(id));
    }
  }

  /** With unique ids, the last record's id is not among the records the delete keeps
      from the ones before it. */
  lemma LastIdNotRemaining(ps: seq<Prompt>, id: string)
    requires UniqueIds(ps) && ps != []
    ensures ps[|ps| - 1].id !in Ids(Remaining(ps[..|ps| - 1], id))
  {
    var ps', p := ps[..|ps| - 1], ps[|ps| - 1];
    var r' := Remaining(ps', id);
    FilterMembers(ps', IdIsNot(id));
    forall j | 0 <= j < |r'| ensures Ids(r')[j] != p.id {
      var k :| 0 <= k < |ps'| && ps'[k] == r'[j];
      assert ps[k] == ps'[k];
    }
  }

  /** After a delete, any edit of the same id (edit, `updatePrompt`, `incrementUsage`) is a no-op. */
  lemma DeletedIdIsGone(ps: seq<Prompt>, id: string, f: Prompt -> Prompt)
    ensures ReplaceById(Remaining(ps, id), id, f) == Remaining(ps, id)
  {
    RemainingSpec(ps, id);
    ReplaceByIdAbsent(Remaining(ps, id), id, f);
  }

  /** No handler of the popup raises a count: an edit keeps every record's count, a
      delete keeps records as they were, and an add appends a record with count 0
      (`HandleAddPrompt`). */
  lemma PopupHandlersKeepCounts(ps: seq<Prompt>, id: string, title: string, content: string, category: string)
    ensures forall i :: 0 <= i < |ps| ==> Edited(ps, id, title, content, category)[i].usageCount == ps[i].usageCount
    ensures forall r :: r in Remaining(ps, id) ==> r in ps
  {
    forall i | 0 <= i < |ps| ensures Edited(ps, id, title, content, category)[i].usageCount == ps[i].usageCount {
      EditedAt(ps, id, title, content, category, i);
    }
    RemainingSpec(ps, id);
  }

  /** A card's copy as written raises the count in the store's collection, which starts
      as `[]` and which the popup never adds to: there the increment matches nothing. The
      same increment applied to the popup's collection would raise the copied record's
      count by one. */
  lemma CopyAsWrittenMissesCount(ps: seq<Prompt>, i: nat)
    requires i < |ps|
    ensures PromptStore.Incremented([], ps[i].id) == []
    ensures PromptStore.Incremented(ps, ps[i].id)[i].usageCount == ps[i].usageCount + 1
  {
    PromptStore.IncrementedUnknownId([], ps[i].id);
    PromptStore.IncrementedAt(ps, ps[i].id, i);
  }

  /** With unique ids, copying a record raises its count by one and leaves every other
      record, and the uniqueness of ids, as they were. */
  lemma CopyCountsOnce(ps: seq<Prompt>, i: nat)
    requires UniqueIds(ps) && i < |ps|
    ensures var r := PromptStore.Incremented(ps, ps[i].id);
      && |r| == |ps|
      && r[i] == ps[i].(usageCount := ps[i].usageCount + 1)
      && (forall j :: 0 <= j < |ps| && j != i ==> r[j] == ps[j])
      && UniqueIds(r)
  {
    var r := PromptStore.Incremented(ps, ps[i].id);
    PromptStore.IncrementedAt(ps, ps[i].id, i);
    forall j | 0 <= j < |ps| && j != i ensures r[j] == ps[j] {
      PromptStore.IncrementedAt(ps, ps[i].id, j);
    }
    PromptStore.IncrementedKeepsIds(ps, ps[i].id);
  }

  // ---------------------------------------------------------------------------
  // The home screen derivation

  /** `filteredPrompts`: the records matching the search term, in collection order. */
  function Visible(ps: seq<Prompt>, ft: FilterType, term: string): seq<Prompt>
  {
    Filter(ps, MatchesFor(ft, term))
  }

  /** The search keeps exactly the matching records, and an empty term keeps the whole
      collection, whatever the field selector. */
  lemma VisibleSpec(ps: seq<Prompt>, ft: FilterType, term: string)
    ensures var fs := Visible(ps, ft, term);
      && (forall i :: 0 <= i < |fs| ==> fs[i] in ps && Matches(fs[i], ft, term))
      && (forall i :: 0 <= i < |ps| && Matches(ps[i], ft, term) ==> ps[i] in fs)
    ensures Visible(ps, ft, "") == ps
  {
    FilterMembers(ps, MatchesFor(ft, term));
    forall i | 0 <= i < |ps| ensures MatchesFor(ft, "")(ps[i]) {
      IncludesEmpty(ToLowerCase(SearchField(ps[i], ft)));
    }
    FilterAll(ps, MatchesFor(ft, ""));
  }

  function InCategory(c: string): Prompt -> bool
  {
    (p: Prompt) => p.category == c
  }

  /** `groupedPrompts[c]` before it is sorted: the records of category `c`, in filtered order. */
  function Group(fs: seq<Prompt>, c: string): seq<Prompt>
  {
    Filter(fs, InCategory(c))
  }

  /** The position of the first record of category `c`, or `|fs|` when there is none. */
  function FirstIndex(fs: seq<Prompt>, c: string): (k: nat)
    ensures k <= |fs|
    ensures k < |fs| ==> fs[k].category == c
    ensures forall j :: 0 <= j < k && j < |fs| ==> fs[j].category != c
  {
    if fs == [] then 0
    else
      var k := FirstIndex(fs[..|fs| - 1], c);
      if k < |fs| - 1 then k
      else if fs[|fs| - 1].category == c then |fs| - 1
      else |fs|
  }

  /** Every category of `fs` is a key. */
  ghost predicate KeysCover(fs: seq<Prompt>, keys: seq<string>)
  {
    forall j :: 0 <= j < |fs| ==> fs[j].category in keys
  }

  /** Every key is the category of some record of `fs`. */
  ghost predicate KeysOccur(fs: seq<Prompt>, keys: seq<string>)
  {
    forall i :: 0 <= i < |keys| ==> FirstIndex(fs, keys[i]) < |fs|
  }

  /** Keys are ordered by the position of their first record. */
  ghost predicate KeysInFirstOrder(fs: seq<Prompt>, keys: seq<string>)
  {
    forall i, j :: 0 <= i < j < |keys| ==> FirstIndex(fs, keys[i]) < FirstIndex(fs, keys[j])
  }

  /** The three facts that pin down the first-seen key order of `fs`. */
  ghost predicate FirstSeenKeys(fs: seq<Prompt>, keys: seq<string>)
  {
    KeysCover(fs, keys) && KeysOccur(fs, keys) && KeysInFirstOrder(fs, keys)
  }

  /** The keys after the accumulator has seen category `c`. */
  function AddKey(keys: seq<string>, c: string): seq<string>
  {
    if c in keys then keys else keys + [c]
  }

  /** A category already seen keeps its first index when a record is appended. */
  lemma FirstIndexKept(fs: seq<Prompt>, c: string)
    requires fs != [] && FirstIndex(fs[..|fs| - 1], c) < |fs| - 1
    ensures FirstIndex(fs, c) == FirstIndex(fs[..|fs| - 1], c)
  {
  }

  lemma FirstIndicesKept(fs: seq<Prompt>, keys: seq<string>)
    requires fs != [] && KeysOccur(fs[..|fs| - 1], keys)
    ensures forall i :: 0 <= i < |keys| ==> FirstIndex(fs, keys[i]) == FirstIndex(fs[..|fs| - 1], keys[i])
  {
    forall i | 0 <= i < |keys| ensures FirstIndex(fs, keys[i]) == FirstIndex(fs[..|fs| - 1], keys[i]) {
      FirstIndexKept(fs, keys[i]);
    }
  }

  /** A category not yet among the keys first occurs at the appended record. */
  lemma NewKeyIndex(fs: seq<Prompt>, keys: seq<string>)
    requires fs != [] && KeysCover(fs[..|fs| - 1], keys) && fs[|fs| - 1].category !in keys
    ensures FirstIndex(fs, fs[|fs| - 1].category) == |fs| - 1
  {
    var fs', c := fs[..|fs| - 1], fs[|fs| - 1].category;
    forall j | 0 <= j < |fs'| ensures fs'[j].category != c {
      assert fs'[j].category in keys;
    }
  }

  lemma CoverStep(fs: seq<Prompt>, keys: seq<string>)
    requires fs != [] && KeysCover(fs[..|fs| - 1], keys)
    ensures KeysCover(fs, AddKey(keys, fs[|fs| - 1].category))
  {
    var fs', keys2 := fs[..|fs| - 1], AddKey(keys, fs[|fs| - 1].category);
    forall j | 0 <= j < |fs| ensures fs[j].category in keys2 {
      if j < |fs'| {
        assert fs'[j] == fs[j];
        assert fs'[j].category in keys;
      }
    }
  }

  lemma OccurStep(fs: seq<Prompt>, keys: seq<string>)
    requires fs != [] && KeysCover(fs[..|fs| - 1], keys) && KeysOccur(fs[..|fs| - 1], keys)
    ensures KeysOccur(fs, AddKey(keys, fs[|fs| - 1].category))
  {
    var c := fs[|fs| - 1].category;
    var keys2 := AddKey(keys, c);
    FirstIndicesKept(fs, keys);
    if c !in keys {
      NewKeyIndex(fs, keys);
      forall i | 0 <= i < |keys2| ensures FirstIndex(fs, keys2[i]) < |fs| {
        if i < |keys| {
          assert keys2[i] == keys[i];
        }
      }
    }
  }

  lemma OrderStep(fs: seq<Prompt>, keys: seq<string>)
    requires fs != [] && FirstSeenKeys(fs[..|fs| - 1], keys)
    ensures KeysInFirstOrder(fs, AddKey(keys, fs[|fs| - 1].category))
  {
    var c := fs[|fs| - 1].category;
    var keys2 := AddKey(keys, c);
    FirstIndicesKept(fs, keys);
    if c !in keys {
      NewKeyIndex(fs, keys);
      forall i, j | 0 <= i < j < |keys2| ensures FirstIndex(fs, keys2[i]) < FirstIndex(fs, keys2[j]) {
        assert keys2[i] == keys[i];
        if j < |keys| {
          assert keys2[j] == keys[j];
        }
      }
    }
  }

  /** One step of the grouping `reduce` keeps the keys in first-seen order. */
  lemma FirstSeenKeysStep(fs: seq<Prompt>, keys: seq<string>)
    requires fs != [] && FirstSeenKeys(fs[..|fs| - 1], keys)
    ensures FirstSeenKeys(fs, AddKey(keys, fs[|fs| - 1].category))
  {
    CoverStep(fs, keys);
    OccurStep(fs, keys);
    OrderStep(fs, keys);
  }

  /** `Object.keys(groupedPrompts)`: the categories of `fs`, each once, in the order the
      accumulator first saw them. */
  function CategoryKeys(fs: seq<Prompt>): seq<string>
  {
    if fs == [] then []
    else
      AddKey(CategoryKeys(fs[..|fs| - 1]), fs[|fs| - 1].category)
  }

  /** The keys are exactly the categories of `fs`, in the order of their first occurrence. */
  lemma {:induction false} CategoryKeysFirstSeen(fs: seq<Prompt>)
    ensures FirstSeenKeys(fs, CategoryKeys(fs))
  {
    if fs != [] {
      CategoryKeysFirstSeen(fs[..|fs| - 1]);
      FirstSeenKeysStep(fs, CategoryKeys(fs[..|fs| - 1]));
    }
  }

  /** The keys are pairwise distinct. */
  lemma CategoryKeysDistinct(fs: seq<Prompt>)
    ensures Distinct(CategoryKeys(fs))
  {
    CategoryKeysFirstSeen(fs);
  }

  /** Every key has a non-empty group, all of whose members carry that category. */
  lemma GroupOfKey(fs: seq<Prompt>, c: string)
    requires c in CategoryKeys(fs)
    ensures Group(fs, c) != []
    ensures forall j :: 0 <= j < |Group(fs, c)| ==> Group(fs, c)[j].category == c
  {
    CategoryKeysFirstSeen(fs);
    var i :| 0 <= i < |CategoryKeys(fs)| && CategoryKeys(fs)[i] == c;
    var k := FirstIndex(fs, c);
    FilterMembers(fs, InCategory(c));
    assert InCategory(c)(fs[k]);
    assert fs[k] in Group(fs, c);
    forall j | 0 <= j < |Group(fs, c)| ensures Group(fs, c)[j].category == c {
      assert InCategory(c)(Group(fs, c)[j]);
    }
  }

  /** A category no record carries has an empty group. */
  lemma {:induction false} GroupOfAbsent(fs: seq<Prompt>, c: string)
    requires forall j :: 0 <= j < |fs| ==> fs[j].category != c
    ensures Group(fs, c) == []
  {
    if fs != [] {
      var fs' := fs[..|fs| - 1];
      assert forall j :: 0 <= j < |fs'| ==> fs'[j] == fs[j];
      GroupOfAbsent(fs', c);
      FilterDropLast(fs, InCategory(c));
    }
  }

  /** One more record seen by the grouping `reduce`. */
  lemma CategoryKeysStep(fs: seq<Prompt>, i: nat)
    requires i < |fs|
    ensures CategoryKeys(fs[..i + 1]) == AddKey(CategoryKeys(fs[..i]), fs[i].category)
  {
    assert fs[..i + 1][..i] == fs[..i];
  }

  lemma GroupStep(fs: seq<Prompt>, i: nat, c: string)
    requires i < |fs|
    ensures Group(fs[..i + 1], c) == Group(fs[..i], c) + if fs[i].category == c then [fs[i]] else []
  {
    assert fs[..i + 1] == fs[..i] + [fs[i]];
    GroupAppend(fs[..i], fs[i], c);
  }

  /** A category that is not a key has no records. */
  lemma GroupOfNonKey(fs: seq<Prompt>, c: string)
    requires c !in CategoryKeys(fs)
    ensures Group(fs, c) == []
  {
    CategoryKeysFirstSeen(fs);
    forall j | 0 <= j < |fs| ensures fs[j].category != c {
      assert fs[j].category in CategoryKeys(fs);
    }
    GroupOfAbsent(fs, c);
  }

  /** The groups of `keys`, concatenated in key order. */
  function Concat(fs: seq<Prompt>, keys: seq<string>): seq<Prompt>
  {
    if keys == [] then [] else Concat(fs, keys[..|keys| - 1]) + Group(fs, keys[|keys| - 1])
  }

  /** No key occurs twice. */
  predicate Distinct(keys: seq<string>)
  {
    forall i, j :: 0 <= i < j < |keys| ==> keys[i] != keys[j]
  }

  /** Dropping the last of distinct keys leaves distinct keys, none of them the dropped one. */
  lemma DistinctInit(keys: seq<string>)
    requires keys != [] && Distinct(keys)
    ensures Distinct(keys[..|keys| - 1])
    ensures keys[|keys| - 1] !in keys[..|keys| - 1]
    ensures forall x :: x in keys <==> x in keys[..|keys| - 1] || x == keys[|keys| - 1]
  {
    assert keys == keys[..|keys| - 1] + [keys[|keys| - 1]];
  }

  /** Appending a record extends the group of its category by it and leaves the others. */
  lemma GroupAppend(fs: seq<Prompt>, p: Prompt, c: string)
    ensures Group(fs + [p], c) == Group(fs, c) + if p.category == c then [p] else []
  {
    FilterConcat(fs, [p], InCategory(c));
    FilterSingleton(p, InCategory(c));
  }

  /** Adding one record to the input adds it to the concatenation once if its category
      is among the (distinct) keys, and not at all otherwise. */
  lemma {:induction false} ConcatAppend(fs: seq<Prompt>, p: Prompt, keys: seq<string>)
    requires Distinct(keys)
    ensures multiset(Concat(fs + [p], keys)) ==
      multiset(Concat(fs, keys)) + if p.category in keys then multiset{p} else multiset{}
  {
    if keys != [] {
      var keys', c := keys[..|keys| - 1], keys[|keys| - 1];
      DistinctInit(keys);
      ConcatAppend(fs, p, keys');
      GroupAppend(fs, p, c);
    }
  }

  /** Grouping partitions the filtered records: concatenating the groups in key order
      gives back exactly the filtered records, each once. */
  lemma {:induction false} GroupsPartition(fs: seq<Prompt>)
    ensures multiset(Concat(fs, CategoryKeys(fs))) == multiset(fs)
  {
    if fs != [] {
      var fs', p := fs[..|fs| - 1], fs[|fs| - 1];
      assert fs == fs' + [p];
      var keys' := CategoryKeys(fs');
      GroupsPartition(fs');
      CategoryKeysDistinct(fs');
      ConcatAppend(fs', p, keys');
      if p.category !in keys' {
        CategoryKeysFirstSeen(fs');
        ConcatNewKey(fs', p, keys');
      }
    }
  }

  /** A record whose category is new forms a group of its own, after the others. */
  lemma ConcatNewKey(fs: seq<Prompt>, p: Prompt, keys: seq<string>)
    requires KeysCover(fs, keys) && p.category !in keys
    ensures Concat(fs + [p], keys + [p.category]) == Concat(fs + [p], keys) + [p]
  {
    var c := p.category;
    forall j | 0 <= j < |fs| ensures fs[j].category != c {
      assert fs[j].category in keys;
    }
    assert Group(fs + [p], c) == [p] by {
      GroupOfAbsent(fs, c);
      GroupAppend(fs, p, c);
    }
    assert (keys + [c])[..|keys|] == keys;
    assert Concat(fs + [p], keys + [c]) == Concat(fs + [p], keys) + Group(fs + [p], c);
  }

  /** `groupedPrompts[c].reduce((sum, p) => sum + p.usageCount, 0)`. */
  function Aggregate(g: seq<Prompt>): nat
  {
    if g == [] then 0 else Aggregate(g[..|g| - 1]) + g[|g| - 1].usageCount
  }

  lemma {:induction false} AggregateConcat(a: seq<Prompt>, b: seq<Prompt>)
    ensures Aggregate(a + b) == Aggregate(a) + Aggregate(b)
  {
    if b == [] {
      assert a + b == a;
    } else {
      AggregateConcat(a, b[..|b| - 1]);
      assert (a + b)[..|a + b| - 1] == a + b[..|b| - 1];
    }
  }

  lemma {:induction false} AggregateInsert(t: seq<Prompt>, x: Prompt, key: Prompt -> nat)
    ensures Aggregate(InsertDesc(t, x, key)) == Aggregate(t) + x.usageCount
  {
    if !(t == [] || key(t[|t| - 1]) >= key(x)) {
      var t' := t[..|t| - 1];
      AggregateInsert(t', x, key);
      assert t == t' + [t[|t| - 1]];
    }
  }

  /** A group's aggregate usage does not depend on the order of its members, so sorting
      a group in place (as the render does) does not change the category order. */
  lemma {:induction false} AggregateOfSorted(g: seq<Prompt>, key: Prompt -> nat)
    ensures Aggregate(SortDesc(g, key)) == Aggregate(g)
  {
    if g != [] {
      AggregateOfSorted(g[..|g| - 1], key);
      AggregateInsert(SortDesc(g[..|g| - 1], key), g[|g| - 1], key);
    }
  }

  /** The comparator key of `sortedCategories`: a category's aggregate usage. */
  function GroupUsage(fs: seq<Prompt>): string -> nat
  {
    c => Aggregate(Group(fs, c))
  }

  /** `sortedCategories`. */
  function SortedCategories(fs: seq<Prompt>): seq<string>
  {
    SortDesc(CategoryKeys(fs), GroupUsage(fs))
  }

  /** The category order is a permutation of the keys by non-increasing aggregate usage,
      and categories of equal aggregate usage keep their first-seen order. */
  lemma SortedCategoriesSpec(fs: seq<Prompt>)
    ensures multiset(SortedCategories(fs)) == multiset(CategoryKeys(fs))
    ensures SortedDesc(SortedCategories(fs), GroupUsage(fs))
    ensures StableFor(SortedCategories(fs), CategoryKeys(fs), GroupUsage(fs))
  {
    SortDescStable(CategoryKeys(fs), GroupUsage(fs));
  }

  /** One category heading of the home screen with the records shown under it. */
  datatype Section = Section(category: string, prompts: seq<Prompt>)

  /** `groupedPrompts[c]` after the render's in-place sort by descending usage count. */
  function SortedGroup(fs: seq<Prompt>, c: string): seq<Prompt>
  {
    SortDesc(Group(fs, c), UsageOf)
  }

  /** One section per category of `cats`, in that order, each holding its sorted group. */
  function Sections(fs: seq<Prompt>, cats: seq<string>): (v: seq<Section>)
    ensures |v| == |cats|
  {
    if cats == [] then []
    else
      var c := cats[|cats| - 1];
      Sections(fs, cats[..|cats| - 1]) + [Section(c, SortedGroup(fs, c))]
  }

  /** The section at index `i` is the one of the `i`-th category. */
  lemma {:induction false} SectionsAt(fs: seq<Prompt>, cats: seq<string>, i: nat)
    requires i < |cats|
    ensures Sections(fs, cats)[i] == Section(cats[i], SortedGroup(fs, cats[i]))
  {
    if i < |cats| - 1 {
      SectionsAt(fs, cats[..|cats| - 1], i);
    }
  }

  /** One more category handled by the render loop. */
  lemma SectionsStep(fs: seq<Prompt>, cats: seq<string>, i: nat)
    requires i < |cats|
    ensures Sections(fs, cats[..i + 1]) == Sections(fs, cats[..i]) + [Section(cats[i], SortedGroup(fs, cats[i]))]
  {
    assert cats[..i + 1][..i] == cats[..i];
  }

  /** The home screen: one section per category in `sortedCategories` order, each
      group sorted by descending usage count. */
  function HomeView(ps: seq<Prompt>, ft: FilterType, term: string): seq<Section>
  {
    var fs := Visible(ps, ft, term);
    Sections(fs, SortedCategories(fs))
  }

  /** Every category heading is a key of the grouping. */
  lemma SortedCategoryIsKey(fs: seq<Prompt>, i: nat)
    requires i < |SortedCategories(fs)|
    ensures SortedCategories(fs)[i] in CategoryKeys(fs)
  {
    assert SortedCategories(fs)[i] in multiset(CategoryKeys(fs));
  }

  /** Every record of the filtered view matches the search. */
  lemma VisibleMatches(ps: seq<Prompt>, ft: FilterType, term: string)
    ensures forall x :: x in Visible(ps, ft, term) ==> Matches(x, ft, term)
  {
    var fs := Visible(ps, ft, term);
    FilterMembers(ps, MatchesFor(ft, term));
    forall x | x in fs ensures Matches(x, ft, term) {
      var j :| 0 <= j < |fs| && fs[j] == x;
      assert MatchesFor(ft, term)(fs[j]);
    }
  }

  /** The sorted group of a key is non-empty, holds only matching records of that
      category, and has the same aggregate usage as the unsorted group. */
  lemma SortedGroupMembers(ps: seq<Prompt>, ft: FilterType, term: string, c: string)
    requires c in CategoryKeys(Visible(ps, ft, term))
    ensures var s := SortedGroup(Visible(ps, ft, term), c);
      && s != []
      && (forall j :: 0 <= j < |s| ==> s[j].category == c && Matches(s[j], ft, term))
      && Aggregate(s) == Aggregate(Group(Visible(ps, ft, term), c))
  {
    var fs := Visible(ps, ft, term);
    var s := SortedGroup(fs, c);
    GroupOfKey(fs, c);
    AggregateOfSorted(Group(fs, c), UsageOf);
    SortedFilterMembers(fs, InCategory(c), UsageOf);
    VisibleMatches(ps, ft, term);
    forall j | 0 <= j < |s| ensures s[j].category == c && Matches(s[j], ft, term) {
      assert s[j] in s;
    }
  }

  /** Every section is a non-empty group of one category, all of whose records match the
      search; it is ordered by non-increasing usage, a permutation of that group, and
      stable on ties. */
  lemma HomeViewSections(ps: seq<Prompt>, ft: FilterType, term: string, i: nat)
    requires i < |HomeView(ps, ft, term)|
    ensures var fs, v := Visible(ps, ft, term), HomeView(ps, ft, term);
      && v[i].category in CategoryKeys(fs)
      && v[i].prompts != []
      && (forall j :: 0 <= j < |v[i].prompts| ==>
            v[i].prompts[j].category == v[i].category && Matches(v[i].prompts[j], ft, term))
      && SortedDesc(v[i].prompts, UsageOf)
      && multiset(v[i].prompts) == multiset(Group(fs, v[i].category))
      && StableFor(v[i].prompts, Group(fs, v[i].category), UsageOf)
  {
    var fs := Visible(ps, ft, term);
    var c := SortedCategories(fs)[i];
    HomeViewAt(ps, ft, term, i);
    SortedCategoryIsKey(fs, i);
    SortedGroupMembers(ps, ft, term, c);
    SortDescStable(Group(fs, c), UsageOf);
  }

  /** Sections come in non-increasing order of their aggregate usage. */
  lemma HomeViewOrdered(ps: seq<Prompt>, ft: FilterType, term: string)
    ensures var v := HomeView(ps, ft, term);
      forall i, j :: 0 <= i < j < |v| ==> Aggregate(v[i].prompts) >= Aggregate(v[j].prompts)
  {
    var fs, v := Visible(ps, ft, term), HomeView(ps, ft, term);
    var cats := SortedCategories(fs);
    forall i | 0 <= i < |v| ensures Aggregate(v[i].prompts) == GroupUsage(fs)(cats[i]) {
      HomeViewAt(ps, ft, term, i);
      SortedCategoryIsKey(fs, i);
      SortedGroupMembers(ps, ft, term, cats[i]);
    }
    assert SortedDesc(cats, GroupUsage(fs));
  }

  /** Every category of the filtered records gets a heading. */
  lemma CategoryHasHeading(fs: seq<Prompt>, k: nat)
    requires k < |fs|
    ensures fs[k].category in SortedCategories(fs)
  {
    CategoryKeysFirstSeen(fs);
    assert fs[k].category in multiset(CategoryKeys(fs));
  }

  /** A filtered record is in the sorted group of its category. */
  lemma InOwnSortedGroup(fs: seq<Prompt>, k: nat)
    requires k < |fs|
    ensures fs[k] in SortedGroup(fs, fs[k].category)
  {
    SortedFilterKeeps(fs, InCategory(fs[k].category), UsageOf);
    assert InCategory(fs[k].category)(fs[k]);
  }

  /** The section at index `i` of the home screen. */
  lemma HomeViewAt(ps: seq<Prompt>, ft: FilterType, term: string, i: nat)
    requires i < |SortedCategories(Visible(ps, ft, term))|
    ensures var fs := Visible(ps, ft, term); var c := SortedCategories(fs)[i];
      i < |HomeView(ps, ft, term)| && HomeView(ps, ft, term)[i] == Section(c, SortedGroup(fs, c))
  {
    var fs := Visible(ps, ft, term);
    SectionsAt(fs, SortedCategories(fs), i);
  }

  /** Every matching record is shown, in the section of its category. */
  lemma HomeViewCovers(ps: seq<Prompt>, ft: FilterType, term: string, k: nat)
    requires k < |Visible(ps, ft, term)|
    ensures var fs, v := Visible(ps, ft, term), HomeView(ps, ft, term);
      exists i :: 0 <= i < |v| && v[i].category == fs[k].category && fs[k] in v[i].prompts
  {
    var fs := Visible(ps, ft, term);
    var cats := SortedCategories(fs);
    CategoryHasHeading(fs, k);
    var i :| 0 <= i < |cats| && cats[i] == fs[k].category;
    InOwnSortedGroup(fs, k);
    HomeViewAt(ps, ft, term, i);
  }

  /** The `reduce` that builds `groupedPrompts`, with the accumulator's key order made
      explicit: `keys` is what `Object.keys` returns. */
  method GroupPrompts(fs: seq<Prompt>) returns (keys: seq<string>, groups: map<string, seq<Prompt>>)
    ensures keys == CategoryKeys(fs)
    ensures forall c :: c in groups <==> c in keys
    ensures forall c :: c in groups ==> groups[c] == Group(fs, c)
  {
    keys, groups := [], map[];
    for i := 0 to |fs|
      invariant keys == CategoryKeys(fs[..i])
      invariant forall c :: c in groups <==> c in keys
      invariant forall c :: c in groups ==> groups[c] == Group(fs[..i], c)
    {
      var p := fs[i];
      CategoryKeysStep(fs, i);
      if p.category !in groups {
        GroupOfNonKey(fs[..i], p.category);
        keys := keys + [p.category];
        groups := groups[p.category := []];
      }
      groups := groups[p.category := groups[p.category] + [p]];
      forall c | c in groups ensures groups[c] == Group(fs[..i + 1], c) {
        GroupStep(fs, i, c);
      }
    }
    assert fs[..|fs|] == fs;
  }

  /** `groupedPrompts[category].sort((a, b) => b.usageCount - a.usageCount)`: the group's
      array sorted in place by descending usage count. */
  method SortGroup(g: seq<Prompt>) returns (sorted: seq<Prompt>)
    ensures sorted == SortDesc(g, UsageOf)
  {
    var members := new Prompt[|g|](k requires 0 <= k < |g| => g[k]);
    assert members[..] == g;
    SortDescInPlace(members, UsageOf);
    sorted := members[..];
  }

  /** The render's `sortedCategories.map(...)`: a section per category, whose records are
      the category's group array, sorted in place by descending usage count. */
  method BuildSections(fs: seq<Prompt>, cats: seq<string>, groups: map<string, seq<Prompt>>)
    returns (view: seq<Section>)
    requires forall c :: c in cats ==> c in groups && groups[c] == Group(fs, c)
    ensures view == Sections(fs, cats)
  {
    view := [];
    for i := 0 to |cats|
      invariant view == Sections(fs, cats[..i])
    {
      var c := cats[i];
      SectionsStep(fs, cats, i);
      var members := SortGroup(groups[c]);
      view := view + [Section(c, members)];
    }
    assert cats[..|cats|] == cats;
  }

  /** The component's state slots. `persisted` is the collection last written to storage. */
  class PromptPal {
    var page: Page
    var searchTerm: string
    var filterBy: FilterType
    var title: string
    var promptContent: string
    var category: string
    var deletePrompt: Option<Prompt>
    var prompts: seq<Prompt>
    var editingPrompt: Option<Prompt>
    ghost var persisted: seq<Prompt>

    /** Storage mirrors the collection. */
    ghost predicate Valid()
      reads this
    {
      persisted == prompts
    }

    /** The initial slot values, followed by the load from storage at mount: an absent
        stored collection reads as empty. */
    constructor(stored: Option<seq<Prompt>>)
      ensures Valid()
      ensures prompts == (if stored.Some? then stored.value else [])
      ensures page == Home && searchTerm == "" && filterBy == ByTitle
      ensures title == "" && promptContent == "" && category == CategoryChoices[0]
      ensures deletePrompt == None && editingPrompt == None
    {
      page := Home;
      searchTerm := "";
      filterBy := ByTitle;
      title := "";
      promptContent := "";
      category := CategoryChoices[0];
      deletePrompt := None;
      editingPrompt := None;
      prompts := if stored.Some? then stored.value else [];
      persisted := prompts;
    }

    /** `savePrompts`: replaces the collection and writes it to storage. */
    method SavePrompts(newPrompts: seq<Prompt>)
      modifies this`prompts, this`persisted
      ensures Valid() && prompts == newPrompts
    {
      prompts := newPrompts;
      persisted := newPrompts;
    }

    /** Clears the form and returns to the home screen. */
    method ResetForm()
      modifies this`page, this`title, this`promptContent, this`category
      ensures page == Home && title == "" && promptContent == "" && category == CategoryChoices[0]
    {
      page := Home;
      title := "";
      promptContent := "";
      category := CategoryChoices[0];
    }

    /** `handleAddPrompt`: with a title and a content that are not white space only,
        appends a fresh record with the untrimmed texts and a zero count, saves, and resets
        the form; otherwise does nothing. The new id and the clock are parameters. */
    method HandleAddPrompt(id: string, now: int)
      requires Valid()
      modifies this
      ensures Valid()
      ensures Filled(old(title)) && Filled(old(promptContent)) ==>
        && prompts == old(prompts) + [Prompt(id, old(title), old(promptContent), old(category), 0, now)]
        && page == Home && title == "" && promptContent == "" && category == CategoryChoices[0]
        && searchTerm == old(searchTerm) && filterBy == old(filterBy)
        && deletePrompt == old(deletePrompt) && editingPrompt == old(editingPrompt)
      ensures !Filled(old(title)) || !Filled(old(promptContent)) ==> unchanged(this)
    {
      if Filled(title) && Filled(promptContent) {
        var newPrompt := Prompt(id, title, promptContent, category, 0, now);
        SavePrompts(prompts + [newPrompt]);
        ResetForm();
      }
    }

    /** `handleEditPrompt`: with a record being edited and texts that are not white space
        only, rewrites that record's title, content and category, saves, and resets the
        form; otherwise does nothing. */
    method HandleEditPrompt()
      requires Valid()
      modifies this
      ensures Valid()
      ensures old(editingPrompt).Some? && Filled(old(title)) && Filled(old(promptContent)) ==>
        && prompts == Edited(old(prompts), old(editingPrompt).value.id, old(title), old(promptContent), old(category))
        && page == Home && editingPrompt == None
        && title == "" && promptContent == "" && category == CategoryChoices[0]
        && searchTerm == old(searchTerm) && filterBy == old(filterBy) && deletePrompt == old(deletePrompt)
      ensures old(editingPrompt).None? || !Filled(old(title)) || !Filled(old(promptContent)) ==> unchanged(this)
    {
      if editingPrompt.Some? && Filled(title) && Filled(promptContent) {
        SavePrompts(Edited(prompts, editingPrompt.value.id, title, promptContent, category));
        ResetForm();
        editingPrompt := None;
      }
    }

    /** `handleDeletePrompt`: removes every record with the pending record's id, saves,
        and clears the pending slot; with nothing pending it does nothing. */
    method HandleDeletePrompt()
      requires Valid()
      modifies this
      ensures Valid()
      ensures old(deletePrompt).Some? ==>
        && prompts == Remaining(old(prompts), old(deletePrompt).value.id)
        && deletePrompt == None
        && page == old(page) && searchTerm == old(searchTerm) && filterBy == old(filterBy)
        && title == old(title) && promptContent == old(promptContent) && category == old(category)
        && editingPrompt == old(editingPrompt)
      ensures old(deletePrompt).None? ==> unchanged(this)
    {
      if deletePrompt.Some? {
        SavePrompts(Remaining(prompts, deletePrompt.value.id));
        deletePrompt := None;
      }
    }

    /** The form's Save button: the add handler on the add screen, the edit handler otherwise. */
    method SaveForm(id: string, now: int)
      requires Valid()
      modifies this
      ensures Valid()
      ensures old(page) == AddPage && Filled(old(title)) && Filled(old(promptContent)) ==>
        && prompts == old(prompts) + [Prompt(id, old(title), old(promptContent), old(category), 0, now)]
        && page == Home && title == "" && promptContent == "" && category == CategoryChoices[0]
        && searchTerm == old(searchTerm) && filterBy == old(filterBy)
        && deletePrompt == old(deletePrompt) && editingPrompt == old(editingPrompt)
      ensures old(page) != AddPage && old(editingPrompt).Some? && Filled(old(title)) && Filled(old(promptContent)) ==>
        && prompts == Edited(old(prompts), old(editingPrompt).value.id, old(title), old(promptContent), old(category))
        && page == Home && editingPrompt == None
        && title == "" && promptContent == "" && category == CategoryChoices[0]
        && searchTerm == old(searchTerm) && filterBy == old(filterBy) && deletePrompt == old(deletePrompt)
      ensures old(page) != AddPage && old(editingPrompt).None? ==> unchanged(this)
      ensures !Filled(old(title)) || !Filled(old(promptContent)) ==> unchanged(this)
    {
      if page == AddPage {
        HandleAddPrompt(id, now);
      } else {
        HandleEditPrompt();
      }
    }

    /** A card's click, as written: after the clipboard write the count is raised in the
        store's collection. The popup's own collection and storage are left as they were. */
    method CopyAsWritten(store: PromptStore.Store, p: Prompt)
      modifies store
      ensures store.prompts == PromptStore.Incremented(old(store.prompts), p.id)
      ensures store.filterType == old(store.filterType) && store.searchQuery == old(store.searchQuery)
      ensures prompts == old(prompts) && persisted == old(persisted)
    {
      store.IncrementUsage(p.id);
    }

    /** A card's click, corrected: the popup's own record of the copied prompt gains one
        use and the collection is saved; no other slot changes. */
    method HandleCopy(p: Prompt)
      requires Valid()
      modifies this`prompts, this`persisted
      ensures Valid()
      ensures prompts == PromptStore.Incremented(old(prompts), p.id)
    {
      SavePrompts(PromptStore.Incremented(prompts, p.id));
    }

    /** A card's delete button: the record waits for confirmation. */
    method RequestDelete(p: Prompt)
      modifies this`deletePrompt
      ensures deletePrompt == Some(p)
    {
      deletePrompt := Some(p);
    }

    /** The dialog's cancel button, or closing the dialog. */
    method CancelDelete()
      modifies this`deletePrompt
      ensures deletePrompt == None
    {
      deletePrompt := None;
    }

    /** A card's edit button: the form is filled from the record. */
    method BeginEdit(p: Prompt)
      modifies this`editingPrompt, this`title, this`promptContent, this`category, this`page
      ensures editingPrompt == Some(p) && page == EditPage
      ensures title == p.title && promptContent == p.content && category == p.category
    {
      editingPrompt := Some(p);
      title := p.title;
      promptContent := p.content;
      category := p.category;
      page := EditPage;
    }

    /** The "Add New Prompt" button. */
    method OpenAddPage()
      modifies this`page
      ensures page == AddPage
    {
      page := AddPage;
    }

    /** The form's cancel button. */
    method CancelForm()
      modifies this`page, this`editingPrompt, this`title, this`promptContent, this`category
      ensures page == Home && editingPrompt == None
      ensures title == "" && promptContent == "" && category == CategoryChoices[0]
    {
      ResetForm();
      editingPrompt := None;
    }

    /** Typing in the search box. */
    method SetSearchTerm(term: string)
      modifies this`searchTerm
      ensures searchTerm == term
    {
      searchTerm := term;
    }

    /** Choosing the search field. */
    method SetFilterBy(ft: FilterType)
      modifies this`filterBy
      ensures filterBy == ft
    {
      filterBy := ft;
    }

    /** Typing in the form's fields. */
    method SetForm(newTitle: string, newContent: string, newCategory: string)
      modifies this`title, this`promptContent, this`category
      ensures title == newTitle && promptContent == newContent && category == newCategory
    {
      title, promptContent, category := newTitle, newContent, newCategory;
    }

    /** The home screen's list, derived from the current state and changing none of it:
        the filter, the grouping `reduce`, the category sort, and the per-group sort. */
    method Render() returns (view: seq<Section>)
      ensures view == HomeView(prompts, filterBy, searchTerm)
    {
      var fs := Visible(prompts, filterBy, searchTerm);
      var keys, groups := GroupPrompts(fs);
      var cats := SortDesc(keys, GroupUsage(fs));
      forall c | c in cats ensures c in groups && groups[c] == Group(fs, c) {
        assert c in multiset(keys);
      }
      view := BuildSections(fs, cats, groups);
    }
  }
}
