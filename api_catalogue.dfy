/**
 * The second half of `parse_api_data.py`: the parsed entries grouped by category (the
 * loop that builds a dictionary of lists) and listed under sorted headings.
 */
module ApiCatalogue {
  import opened Text
  import opened ApiParse

  /** The heading an entry is listed under. */
  function CategoryKey(a: ApiEntry): (r: string)
    ensures r != ""
  {
    if a.category == "" then "기타" else a.category
  }

  /** The entries of one category, in input order. */
  function InCategory(apis: seq<ApiEntry>, k: string): (r: seq<ApiEntry>)
    ensures |r| <= |apis|
  {
    if apis == [] then []
    else
      var r := InCategory(apis[..|apis| - 1], k);
      var x := apis[|apis| - 1];
      if CategoryKey(x) == k then r + [x] else r
  }

  /** Filtering is compatible with concatenation, so the input order is kept within a category. */
  lemma {:induction false} InCategoryAppend(a: seq<ApiEntry>, b: seq<ApiEntry>, k: string)
    ensures InCategory(a + b, k) == InCategory(a, k) + InCategory(b, k)
    decreases |b|
  {
    if b == [] {
      assert a + b == a;
    } else {
      var b' := b[..|b| - 1];
      assert (a + b)[..|a + b| - 1] == a + b';
      InCategoryAppend(a, b', k);
    }
  }

  /** The category of every entry, in input order. */
  function Keys(apis: seq<ApiEntry>): (r: seq<string>)
    ensures |r| == |apis| && forall i :: 0 <= i < |apis| ==> r[i] == CategoryKey(apis[i])
  {
    if apis == [] then [] else Keys(apis[..|apis| - 1]) + [CategoryKey(apis[|apis| - 1])]
  }

  /** `order` and `groups` have as keys exactly the categories of `apis`. */
  ghost predicate SameKeys(apis: seq<ApiEntry>, order: seq<string>, groups: map<string, seq<ApiEntry>>) {
    && (forall k :: k in order <==> k in groups)
    && (forall k :: k in groups <==> k in Keys(apis))
  }

  /** `groups` holds the entries of `apis` by category and `order` lists its keys. */
  ghost predicate Grouped(apis: seq<ApiEntry>, order: seq<string>, groups: map<string, seq<ApiEntry>>) {
    && SameKeys(apis, order, groups)
    && forall k :: k in groups ==> groups[k] == InCategory(apis, k)
  }

  /**
   * The grouping loop: `groups` maps each category to its entries; `order` lists the
   * categories in the order they were first seen, as the dictionary keeps them.
   */
  method GroupByCategory(apis: seq<ApiEntry>) returns (order: seq<string>, groups: map<string, seq<ApiEntry>>)
    ensures Grouped(apis, order, groups)
  {
    order := [];
    groups := map[];
    var i := 0;
    while i < |apis|
      invariant 0 <= i <= |apis|
      invariant Grouped(apis[..i], order, groups)
    {
      var cat := CategoryKey(apis[i]);
      ghost var order0, groups0 := order, groups;
      var entries := [];
      if cat in groups {
        entries := groups[cat];
      } else {
        order := order + [cat];
      }
      groups := groups[cat := entries + [apis[i]]];
      GroupAdd(apis, i, order0, groups0, order, groups);
      i := i + 1;
    }
    assert apis[..|apis|] == apis;
  }

  /** One more entry adds its category if new and joins the end of that category's entries. */
  lemma GroupAdd(apis: seq<ApiEntry>, i: nat, order: seq<string>, groups: map<string, seq<ApiEntry>>,
                 order': seq<string>, groups': map<string, seq<ApiEntry>>)
    requires i < |apis| && Grouped(apis[..i], order, groups)
    requires var cat := CategoryKey(apis[i]);
             && order' == (if cat in groups then order else order + [cat])
             && groups' == groups[cat := (if cat in groups then groups[cat] else []) + [apis[i]]]
    ensures Grouped(apis[..i + 1], order', groups')
  {
    var cat := CategoryKey(apis[i]);
    GroupKeysStep(apis, i, order, groups, order', groups');
    if cat !in groups {
      InCategoryAbsent(apis[..i], cat);
    }
    GroupEntriesStep(apis, i, groups, groups');
  }

  lemma GroupKeysStep(apis: seq<ApiEntry>, i: nat, order: seq<string>, groups: map<string, seq<ApiEntry>>,
                      order': seq<string>, groups': map<string, seq<ApiEntry>>)
    requires i < |apis| && SameKeys(apis[..i], order, groups)
    requires var cat := CategoryKey(apis[i]);
             && order' == (if cat in groups then order else order + [cat])
             && groups'.Keys == groups.Keys + {cat}
    ensures SameKeys(apis[..i + 1], order', groups')
  {
    PrefixStep(apis, i);
  }

  lemma GroupEntriesStep(apis: seq<ApiEntry>, i: nat, groups: map<string, seq<ApiEntry>>, groups': map<string, seq<ApiEntry>>)
    requires i < |apis| && forall k :: k in groups ==> groups[k] == InCategory(apis[..i], k)
    requires CategoryKey(apis[i]) !in groups ==> InCategory(apis[..i], CategoryKey(apis[i])) == []
    requires var cat := CategoryKey(apis[i]);
             groups' == groups[cat := (if cat in groups then groups[cat] else []) + [apis[i]]]
    ensures forall k :: k in groups' ==> groups'[k] == InCategory(apis[..i + 1], k)
  {
    var cat := CategoryKey(apis[i]);
    PrefixStep(apis, i);
    forall k | k in groups' ensures groups'[k] == InCategory(apis[..i + 1], k) {
      if k != cat { assert groups'[k] == groups[k]; }
    }
  }

  lemma PrefixStep(apis: seq<ApiEntry>, i: nat)
    requires i < |apis|
    ensures Keys(apis[..i + 1]) == Keys(apis[..i]) + [CategoryKey(apis[i])]
    ensures forall k :: InCategory(apis[..i + 1], k)
                        == InCategory(apis[..i], k) + (if CategoryKey(apis[i]) == k then [apis[i]] else [])
  {
    assert apis[..i + 1][..i] == apis[..i];
  }

  /** A category no entry has has no entries. */
  lemma {:induction false} InCategoryAbsent(apis: seq<ApiEntry>, k: string)
    requires k !in Keys(apis)
    ensures InCategory(apis, k) == []
  {
    if apis != [] {
      var init := apis[..|apis| - 1];
      assert Keys(apis) == Keys(init) + [CategoryKey(apis[|apis| - 1])];
      InCategoryAbsent(init, k);
    }
  }

  /** The Markdown listing: the categories in sorted order, each with its entries. */
  function Sections(keys: seq<string>, apis: seq<ApiEntry>): seq<ApiEntry> {
    if keys == [] then [] else InCategory(apis, keys[0]) + Sections(keys[1..], apis)
  }

  function Listing(apis: seq<ApiEntry>): seq<ApiEntry> {
    Sections(SortedUnique(Keys(apis)), apis)
  }

  /** The sorted headings are those of the loop's dictionary, whatever order it saw them in. */
  lemma ListingHeadings(apis: seq<ApiEntry>, order: seq<string>)
    requires forall k :: k in order <==> k in Keys(apis)
    ensures SortedUnique(order) == SortedUnique(Keys(apis))
  {
    assert Elems(order) == Elems(Keys(apis));
    SortedDetermined(SortedUnique(order), SortedUnique(Keys(apis)));
  }

  predicate Distinct(keys: seq<string>) {
    forall i, j :: 0 <= i < j < |keys| ==> keys[i] != keys[j]
  }

  lemma DistinctTail(keys: seq<string>)
    requires Distinct(keys) && keys != []
    ensures Distinct(keys[1..]) && keys[0] !in keys[1..]
  {
    forall i, j | 0 <= i < j < |keys[1..]| ensures keys[1..][i] != keys[1..][j] {
      assert keys[1..][i] == keys[i + 1] && keys[1..][j] == keys[j + 1];
    }
    forall j | 0 <= j < |keys[1..]| ensures keys[1..][j] != keys[0] { assert keys[1..][j] == keys[j + 1]; }
  }

  lemma InCategoryLast(apis: seq<ApiEntry>, x: ApiEntry, k: string)
    ensures InCategory(apis + [x], k) == InCategory(apis, k) + (if CategoryKey(x) == k then [x] else [])
  {
    assert (apis + [x])[..|apis + [x]| - 1] == apis;
  }

  lemma {:induction false} SectionsAppend(keys: seq<string>, apis: seq<ApiEntry>, x: ApiEntry)
    requires Distinct(keys)
    ensures CategoryKey(x) !in keys ==> Sections(keys, apis + [x]) == Sections(keys, apis)
    ensures CategoryKey(x) in keys ==> multiset(Sections(keys, apis + [x])) == multiset(Sections(keys, apis)) + multiset{x}
    decreases |keys|
  {
    if keys != [] {
      var k0, tail := keys[0], keys[1..];
      DistinctTail(keys);
      SectionsAppend(tail, apis, x);
      InCategoryLast(apis, x, k0);
      var head, head' := InCategory(apis, k0), InCategory(apis + [x], k0);
      var rest, rest' := Sections(tail, apis), Sections(tail, apis + [x]);
      assert Sections(keys, apis) == head + rest;
      assert Sections(keys, apis + [x]) == head' + rest';
      if CategoryKey(x) == k0 {
        assert rest' == rest && head' == head + [x];
        assert multiset(head + [x]) == multiset(head) + multiset{x};
      } else {
        assert head' == head;
        assert CategoryKey(x) in keys <==> CategoryKey(x) in tail;
      }
    }
  }

  lemma {:induction false} SectionsEmpty(keys: seq<string>)
    ensures Sections(keys, []) == []
  {
    if keys != [] { SectionsEmpty(keys[1..]); }
  }

  /** Listing the entries under headings that cover every category lists each entry exactly once. */
  lemma {:induction false} SectionsPermutation(keys: seq<string>, apis: seq<ApiEntry>)
    requires Distinct(keys)
    requires forall i :: 0 <= i < |apis| ==> CategoryKey(apis[i]) in keys
    ensures multiset(Sections(keys, apis)) == multiset(apis)
    decreases |apis|
  {
    if apis == [] {
      SectionsEmpty(keys);
    } else {
      var init := apis[..|apis| - 1];
      var x := apis[|apis| - 1];
      assert init + [x] == apis;
      SectionsPermutation(keys, init);
      SectionsAppend(keys, init, x);
      assert multiset(init + [x]) == multiset(init) + multiset{x};
    }
  }

  /** The listing is a permutation of the entries, under strictly ascending headings. */
  lemma ListingPermutation(apis: seq<ApiEntry>)
    ensures multiset(Listing(apis)) == multiset(apis)
    ensures StrictlySorted(SortedUnique(Keys(apis)))
  {
    var keys := SortedUnique(Keys(apis));
    assert Distinct(keys) by {
      forall i, j | 0 <= i < j < |keys| ensures keys[i] != keys[j] {
        if keys[i] == keys[j] { LtIrreflexive(keys[i]); }
      }
    }
    forall i | 0 <= i < |apis| ensures CategoryKey(apis[i]) in keys {
      assert Keys(apis)[i] in Elems(Keys(apis));
    }
    SectionsPermutation(keys, apis);
  }
}
