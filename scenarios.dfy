/** Worked instances of the home screen derivation: a tie between two categories, and a
    record moved to a new category by the popup's edit handler. */
module Scenarios {
  import opened PromptTypes
  import opened JsArray
  import opened App

  /** Three records: two of one category, the first used less than the second, then one
      of another category used as much as the first two together. */
  ghost predicate TieSetup(ps: seq<Prompt>)
  {
    |ps| == 3 &&
    ps[0].category == ps[1].category && ps[0].category != ps[2].category &&
    ps[0].usageCount < ps[1].usageCount && ps[0].usageCount + ps[1].usageCount == ps[2].usageCount
  }

  lemma TieKeys(ps: seq<Prompt>)
    requires TieSetup(ps)
    ensures CategoryKeys(ps) == [ps[0].category, ps[2].category]
  {
    var c, d := ps[0].category, ps[2].category;
    assert CategoryKeys(ps[..0]) == [] by {
      assert ps[..0] == [];
    }
    CategoryKeysStep(ps, 0);
    assert CategoryKeys(ps[..1]) == [c];
    CategoryKeysStep(ps, 1);
    assert CategoryKeys(ps[..2]) == [c];
    CategoryKeysStep(ps, 2);
    assert ps[..3] == ps;
  }

  /** The group of `c` among the three records, one record at a time. */
  lemma GroupOfThree(ps: seq<Prompt>, c: string)
    requires |ps| == 3
    ensures Group(ps, c) ==
      (if ps[0].category == c then [ps[0]] else []) +
      (if ps[1].category == c then [ps[1]] else []) +
      (if ps[2].category == c then [ps[2]] else [])
  {
    GroupOfFirstTwo(ps, c);
    GroupStep(ps, 2, c);
    assert ps[..3] == ps;
  }

  lemma GroupOfFirstTwo(ps: seq<Prompt>, c: string)
    requires |ps| == 3
    ensures Group(ps[..2], c) ==
      (if ps[0].category == c then [ps[0]] else []) + (if ps[1].category == c then [ps[1]] else [])
  {
    assert Group(ps[..1], c) == if ps[0].category == c then [ps[0]] else [] by {
      assert ps[..0] == [];
      GroupStep(ps, 0, c);
    }
    GroupStep(ps, 1, c);
  }

  lemma TieGroups(ps: seq<Prompt>)
    requires TieSetup(ps)
    ensures Group(ps, ps[0].category) == [ps[0], ps[1]]
    ensures Group(ps, ps[2].category) == [ps[2]]
  {
    assert Group(ps, ps[0].category) == [ps[0], ps[1]] by {
      GroupOfThree(ps, ps[0].category);
      assert [ps[0]] + [ps[1]] + [] == [ps[0], ps[1]];
    }
    assert Group(ps, ps[2].category) == [ps[2]] by {
      GroupOfThree(ps, ps[2].category);
      assert [] + [] + [ps[2]] == [ps[2]];
    }
  }

  /** The usage sum of one record, and of two. */
  lemma AggregateOfTwo(a: Prompt, b: Prompt)
    ensures Aggregate([a]) == a.usageCount
    ensures Aggregate([a, b]) == a.usageCount + b.usageCount
  {
    assert [a, b][..1] == [a] && [a][..0] == [];
  }

  lemma TieUsage(ps: seq<Prompt>)
    requires TieSetup(ps)
    ensures GroupUsage(ps)(ps[0].category) == GroupUsage(ps)(ps[2].category)
  {
    TieGroups(ps);
    AggregateOfTwo(ps[0], ps[1]);
    AggregateOfTwo(ps[2], ps[2]);
  }

  lemma TieOrder(ps: seq<Prompt>)
    requires TieSetup(ps)
    ensures SortedCategories(ps) == [ps[0].category, ps[2].category]
  {
    TieKeys(ps);
    var cats, usage := [ps[0].category, ps[2].category], GroupUsage(ps);
    assert SortedDesc(cats, usage) by {
      TieUsage(ps);
      forall i, j | 0 <= i < j < |cats| ensures usage(cats[i]) >= usage(cats[j]) {
        assert i == 0 && j == 1;
      }
    }
    SortDescOfSorted(cats, usage);
  }

  lemma TieSortedGroups(ps: seq<Prompt>)
    requires TieSetup(ps)
    ensures SortedGroup(ps, ps[0].category) == [ps[1], ps[0]]
    ensures SortedGroup(ps, ps[2].category) == [ps[2]]
  {
    TieGroups(ps);
    SortOne([ps[2]], UsageOf);
    SortTwo([ps[0], ps[1]], UsageOf);
  }

  lemma SortOne<T>(s: seq<T>, key: T -> nat)
    requires |s| == 1
    ensures SortDesc(s, key) == s
  {
    assert s[..0] == [];
  }

  lemma SortTwo<T>(s: seq<T>, key: T -> nat)
    requires |s| == 2 && key(s[0]) < key(s[1])
    ensures SortDesc(s, key) == [s[1], s[0]]
  {
    SortTwoStep(s, key);
    InsertAfterOne(s[0], s[1], key);
  }

  /** Sorting two elements inserts the second into the sorted first. */
  lemma SortTwoStep<T>(s: seq<T>, key: T -> nat)
    requires |s| == 2
    ensures SortDesc(s, key) == InsertDesc([s[0]], s[1], key)
  {
    SortOne(s[..1], key);
    SortDescSnoc(s, 1, key);
    assert s[..2] == s && s[..1] == [s[0]];
  }

  lemma InsertAfterOne<T>(x: T, y: T, key: T -> nat)
    requires key(x) < key(y)
    ensures InsertDesc([x], y, key) == [y, x]
  {
    assert [x][..0] == [];
  }

  /** With an empty search both categories have the same total usage, so the stable
      category sort keeps them in first-seen order, and within the first category the
      more used second record comes first. */
  lemma TiedCategoriesKeepFirstSeenOrder(ps: seq<Prompt>, ft: FilterType)
    requires TieSetup(ps)
    ensures HomeView(ps, ft, "") == [Section(ps[0].category, [ps[1], ps[0]]), Section(ps[2].category, [ps[2]])]
  {
    VisibleSpec(ps, ft, "");
    TieOrder(ps);
    TwoSections(ps, ps[0].category, ps[2].category);
    TieSortedGroups(ps);
  }

  lemma TwoSections(fs: seq<Prompt>, c: string, d: string)
    ensures Sections(fs, [c, d]) == [Section(c, SortedGroup(fs, c)), Section(d, SortedGroup(fs, d))]
  {
    assert [c, d][..1] == [c] && [c][..0] == [];
  }

  /** The popup's edit handler saving the only record of its category with a new
      category `n` and its texts unchanged, with an empty search: the old category
      loses its heading and `n` gets one. */
  lemma RecategorizedRecordMovesGroup(ps: seq<Prompt>, i: nat, n: string, ft: FilterType)
    requires i < |ps| && n != ps[i].category
    requires forall j :: 0 <= j < |ps| && j != i ==> ps[j].id != ps[i].id && ps[j].category != ps[i].category
    ensures var cats := SortedCategories(Visible(Edited(ps, ps[i].id, ps[i].title, ps[i].content, n), ft, ""));
      n in cats && ps[i].category !in cats
  {
    var was, id := ps[i].category, ps[i].id;
    var ps' := Edited(ps, id, ps[i].title, ps[i].content, n);
    assert n in SortedCategories(ps') by {
      EditedAt(ps, id, ps[i].title, ps[i].content, n, i);
      CategoryHasHeading(ps', i);
    }
    assert was !in SortedCategories(ps') by {
      forall j | 0 <= j < |ps'| ensures ps'[j].category != was {
        EditedAt(ps, id, ps[i].title, ps[i].content, n, j);
      }
      NoHeadingWithoutRecords(ps', was);
    }
    VisibleSpec(ps', ft, "");
  }

  /** A category that no filtered record carries gets no heading. */
  lemma NoHeadingWithoutRecords(fs: seq<Prompt>, c: string)
    requires forall j :: 0 <= j < |fs| ==> fs[j].category != c
    ensures c !in SortedCategories(fs)
  {
    assert c !in CategoryKeys(fs) by {
      assert c in CategoryKeys(fs) ==> Group(fs, c) != [] by {
        if c in CategoryKeys(fs) {
          GroupOfKey(fs, c);
        }
      }
      GroupOfAbsent(fs, c);
    }
    SortedCategoriesSpec(fs);
    assert c !in multiset(CategoryKeys(fs));
  }
}
