/**
 * The tag and category lists of the blog (`getTagList`, `getCategoryList`
 * in src/utils/content-utils.ts): a dictionary from name to number of
 * occurrences, filled one listed post at a time, then read out in the
 * order of the lower-cased names.
 *
 * The dictionary is a `map` together with the list of its keys in the
 * order they were first added, which is the order `Object.keys` reports
 * them before the sort.
 */
module Taxonomy {
  import opened Collections
  import opened Text
  import opened Posts

  /** `Tag`: a tag name and the number of times listed posts carry it. */
  datatype Tag = Tag(name: string, count: nat)

  /** `Category`: a category name, its number of listed posts and its page. */
  datatype Category = Category(name: string, count: nat, url: string)

  /** The comparator `a.toLowerCase().localeCompare(b.toLowerCase())`. */
  predicate LowerFirst(a: string, b: string) {
    LexLe(Lower(a), Lower(b))
  }

  lemma LowerFirstIsTotalPreorder()
    ensures TotalPreorder(LowerFirst)
  {
    forall x, y ensures LowerFirst(x, y) || LowerFirst(y, x) {
      LexLeTotal(Lower(x), Lower(y));
    }
    forall x, y, z | LowerFirst(x, y) && LowerFirst(y, z) ensures LowerFirst(x, z) {
      LexLeTransitive(Lower(x), Lower(y), Lower(z));
    }
  }

  /** Sorting the names by that comparator orders them by their lower-cased form. */
  lemma SortByName(names: seq<string>)
    ensures SortedBy(SortBy(names, LowerFirst), LowerFirst)
  {
    LowerFirstIsTotalPreorder();
    SortBySorted(names, LowerFirst);
  }

  /**
   * Reading a finished dictionary out in name order: the names are its
   * keys, each once, sorted; their counts still add up to the number of
   * occurrences counted.
   */
  lemma SortedKeys(m: map<string, nat>, keys: seq<string>, seen: seq<string>)
    requires Tally(m, keys, seen)
    ensures forall k :: k in SortBy(keys, LowerFirst) <==> k in m
    ensures Distinct(SortBy(keys, LowerFirst))
    ensures SortedBy(SortBy(keys, LowerFirst), LowerFirst)
    ensures SumOver(SortBy(keys, LowerFirst), m) == |seen|
  {
    var names := SortBy(keys, LowerFirst);
    SortByName(keys);
    DistinctPermutation(keys, names);
    SumOverPermutation(keys, names, m);
    forall k ensures k in names <==> k in keys {
      assert k in names <==> k in multiset(names);
      assert k in keys <==> k in multiset(keys);
    }
  }

  // ---------------------------------------------------------------------
  // Tags
  // ---------------------------------------------------------------------

  /** Every tag the posts carry, post after post, repeats included. */
  function AllTags(posts: seq<Post>): seq<string> {
    if posts == [] then [] else AllTags(posts[..|posts| - 1]) + posts[|posts| - 1].data.tags
  }

  /** Writing a key twice leaves only the second value. */
  lemma Overwrite(m: map<string, nat>, k: string, a: nat, b: nat)
    ensures m[k := a][k := b] == m[k := b]
  {
  }

  lemma AllTagsExtend(posts: seq<Post>, i: nat)
    requires i < |posts|
    ensures AllTags(posts[..i + 1]) == AllTags(posts[..i]) + posts[i].data.tags
  {
    assert posts[..i + 1][..i] == posts[..i];
  }

  function TagTotal(tags: seq<Tag>): nat {
    if tags == [] then 0 else tags[0].count + TagTotal(tags[1..])
  }

  /** `keys.map(key => ({ name: key, count: countMap[key] }))`: the counts add up to the sum over the keys. */
  function TagEntries(names: seq<string>, countMap: map<string, nat>): (r: seq<Tag>)
    requires forall k :: k in names ==> k in countMap
    ensures |r| == |names|
    ensures forall i :: 0 <= i < |r| ==> r[i].name == names[i] && r[i].count == countMap[names[i]]
    ensures TagTotal(r) == SumOver(names, countMap)
  {
    if names == [] then [] else [Tag(names[0], countMap[names[0]])] + TagEntries(names[1..], countMap)
  }

  /**
   * The inner `forEach` of `getTagList`, over one post's tags: each tag
   * is counted once more, and a tag met for the first time becomes a
   * new key.
   */
  method CountPostTags(countMap0: map<string, nat>, keys0: seq<string>, ghost seen: seq<string>, postTags: seq<string>)
    returns (countMap: map<string, nat>, keys: seq<string>)
    requires countMap0 == Counts(seen) && keys0 == FirstSeen(seen)
    ensures countMap == Counts(seen + postTags) && keys == FirstSeen(seen + postTags)
  {
    countMap, keys := countMap0, keys0;
    ghost var counted := seen;
    var j := 0;
    while j < |postTags|
      invariant 0 <= j <= |postTags|
      invariant counted == seen + postTags[..j]
      invariant countMap == Counts(counted) && keys == FirstSeen(counted)
    {
      var tag := postTags[j];
      CountsStep(counted, tag);
      ghost var m0 := countMap;
      // `if (!countMap[tag]) countMap[tag] = 0; countMap[tag]++;` (a count present is never 0)
      if tag !in countMap {
        countMap := countMap[tag := 0];
        keys := keys + [tag];
      }
      countMap := countMap[tag := countMap[tag] + 1];
      if tag !in m0 {
        Overwrite(m0, tag, 0, 1);
      }
      counted := counted + [tag];
      PrefixStep(postTags, j);
      j := j + 1;
    }
    assert postTags[..j] == postTags;
  }

  /**
   * The outer `forEach` of `getTagList`: afterwards the dictionary and its
   * keys are those of counting every tag of every post, in order.
   */
  method CountTags(posts: seq<Post>) returns (countMap: map<string, nat>, keys: seq<string>)
    ensures countMap == Counts(AllTags(posts)) && keys == FirstSeen(AllTags(posts))
  {
    countMap := map[];
    keys := [];
    var i := 0;
    while i < |posts|
      invariant 0 <= i <= |posts|
      invariant countMap == Counts(AllTags(posts[..i])) && keys == FirstSeen(AllTags(posts[..i]))
    {
      AllTagsExtend(posts, i);
      countMap, keys := CountPostTags(countMap, keys, AllTags(posts[..i]), posts[i].data.tags);
      i := i + 1;
    }
    assert posts[..i] == posts;
  }

  /**
   * `getTagList`: one entry per distinct tag of the listed posts, whose
   * count is its number of occurrences (a tag repeated within one post
   * counts each time), so that every count is at least 1 and the counts
   * add up to the number of tag occurrences; entries are ordered by
   * lower-cased name.
   */
  method GetTagList(all: seq<Post>, mode: Mode, now: int) returns (tags: seq<Tag>)
    ensures forall i, j :: 0 <= i < j < |tags| ==> tags[i].name != tags[j].name
    ensures forall i :: 0 <= i < |tags| ==>
      tags[i].count == multiset(AllTags(VisiblePosts(all, mode, now)))[tags[i].name] && tags[i].count >= 1
    ensures forall t :: t in AllTags(VisiblePosts(all, mode, now)) <==> exists i :: 0 <= i < |tags| && tags[i].name == t
    ensures TagTotal(tags) == |AllTags(VisiblePosts(all, mode, now))|
    ensures forall i, j :: 0 <= i < j < |tags| ==> LowerFirst(tags[i].name, tags[j].name)
  {
    var posts := VisiblePosts(all, mode, now);
    var countMap, keys := CountTags(posts);
    CountsTally(AllTags(posts));
    var names := SortBy(keys, LowerFirst);
    SortedKeys(countMap, keys, AllTags(posts));
    tags := TagEntries(names, countMap);
    TagReadout(countMap, AllTags(posts), names, tags);
  }

  /** The entries read out of a finished tag dictionary, in name order, describe exactly what was counted. */
  lemma TagReadout(m: map<string, nat>, seen: seq<string>, names: seq<string>, tags: seq<Tag>)
    requires forall k :: k in m <==> k in seen
    requires forall k :: k in m ==> m[k] == multiset(seen)[k]
    requires forall k :: k in names <==> k in m
    requires Distinct(names) && SortedBy(names, LowerFirst) && SumOver(names, m) == |seen|
    requires |tags| == |names|
    requires forall k :: 0 <= k < |tags| ==> tags[k].name == names[k] && tags[k].count == m[names[k]]
    requires TagTotal(tags) == SumOver(names, m)
    ensures forall i, j :: 0 <= i < j < |tags| ==> tags[i].name != tags[j].name
    ensures forall i :: 0 <= i < |tags| ==> tags[i].count == multiset(seen)[tags[i].name] && tags[i].count >= 1
    ensures forall t :: t in seen <==> exists i :: 0 <= i < |tags| && tags[i].name == t
    ensures TagTotal(tags) == |seen|
    ensures forall i, j :: 0 <= i < j < |tags| ==> LowerFirst(tags[i].name, tags[j].name)
  {
    NamesReadout(m, seen, names);
    forall t | t in seen ensures exists k :: 0 <= k < |tags| && tags[k].name == t {
      var k :| 0 <= k < |names| && names[k] == t;
      assert tags[k].name == t;
    }
  }

  /**
   * The names read out of a finished dictionary: each counts at least
   * once, with its number of occurrences, and every name counted is
   * among them.
   */
  lemma NamesReadout(m: map<string, nat>, seen: seq<string>, names: seq<string>)
    requires forall k :: k in m <==> k in seen
    requires forall k :: k in m ==> m[k] == multiset(seen)[k]
    requires forall k :: k in names <==> k in m
    ensures forall i :: 0 <= i < |names| ==> m[names[i]] == multiset(seen)[names[i]] && m[names[i]] >= 1
    ensures forall t :: t in seen <==> exists i :: 0 <= i < |names| && names[i] == t
  {
    forall i | 0 <= i < |names| ensures m[names[i]] >= 1 {
      assert names[i] in seen;
      assert names[i] in multiset(seen);
    }
  }

  // ---------------------------------------------------------------------
  // Categories
  // ---------------------------------------------------------------------

  /**
   * The name a post is counted under: the `uncategorized` label when its
   * category is missing or empty, and otherwise the category trimmed of
   * surrounding white space.
   */
  function CategoryKey(p: Post, uncategorized: string): string {
    match p.data.category
    case None => uncategorized
    case Some(c) => if c == "" then uncategorized else Trim(c)
  }

  /** The names the posts are counted under, one per post. */
  function CategoryKeys(posts: seq<Post>, uncategorized: string): (r: seq<string>)
    ensures |r| == |posts|
  {
    if posts == [] then []
    else CategoryKeys(posts[..|posts| - 1], uncategorized) + [CategoryKey(posts[|posts| - 1], uncategorized)]
  }

  lemma CategoryKeysExtend(posts: seq<Post>, i: nat, uncategorized: string)
    requires i < |posts|
    ensures CategoryKeys(posts[..i + 1], uncategorized) == CategoryKeys(posts[..i], uncategorized) + [CategoryKey(posts[i], uncategorized)]
  {
    assert posts[..i + 1][..i] == posts[..i];
  }

  /** Category names that differ only in surrounding white space share one bucket. */
  lemma TrimmedCategoriesShareBucket(p: Post, q: Post, uncategorized: string)
    requires p.data.category.Some? && q.data.category.Some?
    requires p.data.category.value != "" && q.data.category.value != ""
    requires Trim(p.data.category.value) == Trim(q.data.category.value)
    ensures CategoryKey(p, uncategorized) == CategoryKey(q, uncategorized)
  {
  }

  /**
   * A category made only of white space is not missing: it is counted
   * under the empty name, apart from the uncategorized label when that
   * label is not empty.
   */
  lemma BlankCategoryKey(p: Post, uncategorized: string)
    requires p.data.category.Some? && p.data.category.value != ""
    requires forall i :: 0 <= i < |p.data.category.value| ==> IsSpace(p.data.category.value[i])
    ensures CategoryKey(p, uncategorized) == ""
  {
  }

  function CategoryTotal(categories: seq<Category>): nat {
    if categories == [] then 0 else CategoryTotal(categories[..|categories| - 1]) + categories[|categories| - 1].count
  }

  /**
   * `count[key] = count[key] ? count[key] + 1 : 1`: the key is counted
   * once more, and becomes a new key when met for the first time (a count
   * present is never 0).
   */
  method CountKey(count0: map<string, nat>, keys0: seq<string>, ghost seen: seq<string>, key: string)
    returns (count: map<string, nat>, keys: seq<string>)
    requires count0 == Counts(seen) && keys0 == FirstSeen(seen)
    ensures count == Counts(seen + [key]) && keys == FirstSeen(seen + [key])
  {
    CountsStep(seen, key);
    if key in count0 {
      count, keys := count0[key := count0[key] + 1], keys0;
    } else {
      count, keys := count0[key := 1], keys0 + [key];
    }
  }

  /**
   * The `forEach` loop of `getCategoryList`: afterwards the dictionary
   * holds, for every name the posts are counted under, its number of
   * posts, and its keys in the order they were first met.
   */
  method CountCategories(posts: seq<Post>, uncategorized: string) returns (count: map<string, nat>, keys: seq<string>)
    ensures count == Counts(CategoryKeys(posts, uncategorized)) && keys == FirstSeen(CategoryKeys(posts, uncategorized))
  {
    count := map[];
    keys := [];
    var i := 0;
    while i < |posts|
      invariant 0 <= i <= |posts|
      invariant count == Counts(CategoryKeys(posts[..i], uncategorized))
      invariant keys == FirstSeen(CategoryKeys(posts[..i], uncategorized))
    {
      var key := CategoryKey(posts[i], uncategorized);
      CategoryKeysExtend(posts, i, uncategorized);
      count, keys := CountKey(count, keys, CategoryKeys(posts[..i], uncategorized), key);
      i := i + 1;
    }
    assert posts[..i] == posts;
  }

  /**
   * The `for ... of` loop of `getCategoryList`: one entry per name, in
   * the order given, with its count and its page; the counts add up to
   * the sum over the names.
   */
  method CategoryEntries(lst: seq<string>, count: map<string, nat>, categoryUrl: string -> string)
    returns (ret: seq<Category>)
    requires forall k :: k in lst ==> k in count
    ensures |ret| == |lst|
    ensures forall k :: 0 <= k < |ret| ==>
      ret[k].name == lst[k] && ret[k].count == count[lst[k]] && ret[k].url == categoryUrl(lst[k])
    ensures CategoryTotal(ret) == SumOver(lst, count)
  {
    ret := [];
    for c := 0 to |lst|
      invariant |ret| == c
      invariant forall k :: 0 <= k < c ==>
        ret[k].name == lst[k] && ret[k].count == count[lst[k]] && ret[k].url == categoryUrl(lst[k])
      invariant CategoryTotal(ret) == SumOver(lst[..c], count)
    {
      SumOverAppend(lst[..c], lst[c], count);
      assert lst[..c + 1] == lst[..c] + [lst[c]];
      ret := ret + [Category(lst[c], count[lst[c]], categoryUrl(lst[c]))];
      assert ret[..c] == ret[..|ret| - 1];
    }
    assert lst[..|lst|] == lst;
  }

  /** The category entries read out of a finished dictionary, in name order, describe exactly what was counted. */
  lemma CategoryReadout(m: map<string, nat>, seen: seq<string>, names: seq<string>, categories: seq<Category>)
    requires forall k :: k in m <==> k in seen
    requires forall k :: k in m ==> m[k] == multiset(seen)[k]
    requires forall k :: k in names <==> k in m
    requires Distinct(names) && SortedBy(names, LowerFirst) && SumOver(names, m) == |seen|
    requires |categories| == |names|
    requires forall k :: 0 <= k < |categories| ==> categories[k].name == names[k] && categories[k].count == m[names[k]]
    requires CategoryTotal(categories) == SumOver(names, m)
    ensures forall i, j :: 0 <= i < j < |categories| ==> categories[i].name != categories[j].name
    ensures forall i :: 0 <= i < |categories| ==>
      categories[i].count == multiset(seen)[categories[i].name] && categories[i].count >= 1
    ensures forall c :: c in seen <==> exists i :: 0 <= i < |categories| && categories[i].name == c
    ensures CategoryTotal(categories) == |seen|
    ensures forall i, j :: 0 <= i < j < |categories| ==> LowerFirst(categories[i].name, categories[j].name)
  {
    NamesReadout(m, seen, names);
    forall n | n in seen ensures exists k :: 0 <= k < |categories| && categories[k].name == n {
      var k :| 0 <= k < |names| && names[k] == n;
      assert categories[k].name == n;
    }
    forall i, j | 0 <= i < j < |categories| ensures LowerFirst(categories[i].name, categories[j].name) {
      assert LowerFirst(names[i], names[j]);
    }
    forall i, j | 0 <= i < j < |categories| ensures categories[i].name != categories[j].name {
      assert names[i] != names[j];
    }
  }


  /**
   * `getCategoryList`: one entry per name the listed posts are counted
   * under, whose count is its number of posts (at least 1), so that the
   * counts add up to the number of listed posts; entries are ordered by
   * lower-cased name and each links to `getCategoryUrl(name)`.
   */
  method GetCategoryList(all: seq<Post>, mode: Mode, now: int, uncategorized: string,
                         categoryUrl: string -> string) returns (categories: seq<Category>)
    ensures forall i, j :: 0 <= i < j < |categories| ==> categories[i].name != categories[j].name
    ensures forall i :: 0 <= i < |categories| ==>
      categories[i].count == multiset(CategoryKeys(VisiblePosts(all, mode, now), uncategorized))[categories[i].name] &&
      categories[i].count >= 1
    ensures forall c :: c in CategoryKeys(VisiblePosts(all, mode, now), uncategorized) <==>
      exists i :: 0 <= i < |categories| && categories[i].name == c
    ensures CategoryTotal(categories) == |VisiblePosts(all, mode, now)|
    ensures forall i, j :: 0 <= i < j < |categories| ==> LowerFirst(categories[i].name, categories[j].name)
    ensures forall i :: 0 <= i < |categories| ==> categories[i].url == categoryUrl(categories[i].name)
  {
    var posts := VisiblePosts(all, mode, now);
    var count, keys := CountCategories(posts, uncategorized);
    ghost var seen := CategoryKeys(posts, uncategorized);
    CountsTally(seen);
    var lst := SortBy(keys, LowerFirst);
    SortedKeys(count, keys, seen);
    categories := CategoryEntries(lst, count, categoryUrl);
    CategoryReadout(count, seen, lst, categories);
  }
}
