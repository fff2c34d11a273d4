# Blog post utilities, modelled in Dafny

This project models the post-list utilities of a static blog built on Astro
(`src/utils/content-utils.ts`). These utilities:

- decide which posts are listed: drafts and posts scheduled for later are
  hidden in a production build;
- order the listed posts newest first, by `publishAt` when it is set and by
  `published` otherwise;
- write previous/next navigation links into each listed post;
- produce a summary list without post bodies;
- count tags and categories into dictionaries and read them out sorted by
  lower-cased name;
- pick the featured posts;
- pick the posts related to a given post by the number of tags they share.

Modules:

- `Collections` (collections.dfy): the generic pieces.
  - `Filter` stands for JavaScript's `filter`.
  - `SortBy` is a comparator sort, specified only by what every correct sort
    guarantees.
  - `Take` is `slice(0, end)`, including a negative `end`.
  - `Counts` and `FirstSeen` give the dictionary that counting strings one
    at a time produces, and the order of its keys.
  - The predicate `Tally` says what such a dictionary means.
- `Text` (text.dfy): `toLowerCase`, the comparison used for
  `localeCompare`, and ECMAScript `trim`.
- `Posts` (posts.dfy): the post record, visibility, the newest-first order,
  the navigation links, the summary list, and the featured and related
  selections.
  - `getSortedPosts` is a method. It writes the links into an array in
    place with the source's two loops.
- `Taxonomy` (taxonomy.dfy): `getTagList` and `getCategoryList`. Each is a
  method whose loops fill a `map` plus the list of its keys in insertion
  order.
  - The loop methods are proved against `Counts`/`FirstSeen`.
  - A read-out lemma turns those into what the lists promise: distinct
    names, exact counts of at least 1, totals, and name order.
- `PlainObjects` (plain_objects.dfy): the dictionaries as written, as plain
  JavaScript objects that inherit `Object.prototype`. See "## Findings".

The build mode (`import.meta.env.PROD`) becomes the parameter `mode`. The
clock (`new Date()`) becomes the parameter `now`. The content collection
becomes the input sequence `all`.

## Order and links as the code writes them

- **Date order.** The comparator `dateA > dateB ? -1 : 1` gives a
  non-increasing order by date, not a strictly descending one. It leaves
  the order of posts with equal dates to the sort. `NewestFirst` and every
  ordering contract state "not older than".
- **Navigation links.** The loops of `getSortedPosts` set the next fields
  (`nextSlug`/`nextTitle`, the newer neighbour) on every post but the
  first. They set the previous fields (`prevSlug`/`prevTitle`, the older
  neighbour) on every post but the last. The first post's next fields and
  the last post's previous fields keep whatever they held before.
  `Posts.NeighbourLinks` states exactly that.

## Model

| member | source | states |
|---|---|---|
| Posts.VisiblePostsSpec | src/utils/content-utils.ts:8-21 | in production a post is listed iff it is no draft and its `publishAt`, if set, is not after now; each listed post keeps its multiplicity; in preview every post is listed, in order |
| Collections.Filter | src/utils/content-utils.ts:200-201 | the kept elements are exactly those of the input passing the test, each with its multiplicity, never more than the input |
| Collections.FilterKeepsAll | src/utils/content-utils.ts:9-12 | a test every element passes returns the whole list unchanged |
| Posts.NewerOrSameIsTotalPreorder | src/utils/content-utils.ts:25-27 | the date comparator orders any two posts and is transitive, ordering by `publishAt` when set, else `published` |
| Collections.SortBy | src/utils/content-utils.ts:23-28 | the sorted list is a permutation of the input |
| Collections.InsertSorted | src/utils/content-utils.ts:23-28 | inserting into a sorted list under a total preorder keeps it sorted |
| Collections.SortBySorted | src/utils/content-utils.ts:23-28 | under a total preorder the result is sorted: every element may precede every later one |
| Posts.SortNewestFirst | src/utils/content-utils.ts:23-28 | sorting by the date comparator yields a list in which no post is older than a later one |
| Posts.RawSortedPosts | src/utils/content-utils.ts:7-30 | `getRawSortedPosts` returns exactly the listed posts, each as often as listed, newest first |
| Posts.LinkNeighbours | src/utils/content-utils.ts:35-42 | the two in-place loops leave the array equal to `WithNeighbours` of its old contents |
| Posts.NeighbourLinks | src/utils/content-utils.ts:35-42 | linking keeps length, order and every non-link field; every post but the first gets the slug and title of the one before it as next, every post but the last those of the one after it as previous; the untouched link fields keep their values |
| Posts.NeighboursKeepOrder | src/utils/content-utils.ts:32-45 | writing links does not disturb the newest-first order |
| Posts.GetSortedPosts | src/utils/content-utils.ts:32-45 | a fresh array holding the listed posts newest first with their links written in |
| Posts.ListViewAt | src/utils/content-utils.ts:54-57 | each summary carries the slug and front matter of the post at the same position |
| Posts.ListViewAppend | src/utils/content-utils.ts:54-57 | summarising distributes over concatenation |
| Posts.ListViewPermutation | src/utils/content-utils.ts:54-57 | summaries of a reordered list are a reordering of the summaries |
| Posts.SortedPostsList | src/utils/content-utils.ts:50-60 | one summary per listed post, in the newest-first order, slug and front matter unchanged, together the summaries of the listed posts |
| Collections.SliceEnd | src/utils/content-utils.ts:167 | the end index of `slice(0, end)` never exceeds the length |
| Collections.Take | src/utils/content-utils.ts:167 | `slice(0, end)` is the prefix of length `end` (capped at the length), or the length plus `end` (at least 0) for a negative `end`; it is a sub-multiset of the input |
| Collections.TakeOfSortedIsTop | src/utils/content-utils.ts:161-167 | a prefix of a sorted permutation stays sorted, and every element left out may come after every element taken |
| Collections.PermutationMembers | src/utils/content-utils.ts:161-167 | a sorted copy has the same members as the list sorted |
| Posts.NewestTop | src/utils/content-utils.ts:161-167 | the newest `limit` posts are a sub-multiset of the candidates, newest first, and none left out is newer than one taken |
| Posts.FeaturedPosts | src/utils/content-utils.ts:146-168 | `getFeaturedPosts`: `limit` of the listed flagged-or-tagged posts (fewer if there are fewer; a negative limit drops from the end), each at most as often as it is a candidate, all listed and featured, newest first, none left out newer than one returned |
| Posts.ScoreSpec | src/utils/content-utils.ts:189-196 | the score is positive iff the posts share a tag, at most the current post's tag count, and counts a repeated tag of the current post once per repetition |
| Posts.ScoringSpec | src/utils/content-utils.ts:189-201 | the scored items kept are exactly the candidates with a positive score, each paired with its own score |
| Posts.RanksBeforeIsTotalPreorder | src/utils/content-utils.ts:202-210 | higher score first, then newer first, is a total preorder |
| Posts.RankedSorted | src/utils/content-utils.ts:202-210 | sorting scored items by that comparator orders them |
| Posts.RankedSpec | src/utils/content-utils.ts:200-210 | the ranked list is sorted by score then date and holds exactly the scoring candidates with their scores |
| Posts.TopPostsMembers | src/utils/content-utils.ts:212 | the posts of items drawn from the scoring candidates are scoring candidates |
| Posts.TopPostsOrder | src/utils/content-utils.ts:202-212 | items in rank order, each with its own score, give posts in rank order |
| Posts.TopPostsRankFirst | src/utils/content-utils.ts:211-212 | a scoring candidate whose post was not taken ranks no higher than any post taken |
| Posts.RelatedFromTop | src/utils/content-utils.ts:211-212 | dropping the scores keeps membership, order and the top-`limit` property on the posts |
| Posts.PostsOfAppend | src/utils/content-utils.ts:212 | `map(item => item.post)` distributes over concatenation |
| Posts.PostsOfSubMultiset | src/utils/content-utils.ts:212 | the posts of a sub-multiset of scored items are a sub-multiset of their posts |
| Posts.ScoredPostsFromCandidates | src/utils/content-utils.ts:189-212 | the posts of scored items drawn from the scoring candidates are drawn from the candidates, each at most as often |
| Posts.ScoringLength | src/utils/content-utils.ts:189-201 | as many scored items are kept as there are candidates sharing a tag with the current post |
| Posts.RelatedPosts | src/utils/content-utils.ts:176-213 | `getRelatedPosts`: `limit` posts (fewer if fewer candidates share a tag; a negative limit drops from the end), a sub-multiset of the listed posts other than the current one, each sharing a tag, by score then newest first, none left out ranking above one returned |
| Collections.CountsStep | src/utils/content-utils.ts:79-80 | counting one more string adds it with count 1 or increments its count, and appends it to the keys only when new |
| Collections.CountsPositive | src/utils/content-utils.ts:79-80 | every count stored is at least 1 |
| Collections.TallyNew | src/utils/content-utils.ts:79-80 | a new key with count 1 keeps the dictionary an exact tally |
| Collections.TallyAgain | src/utils/content-utils.ts:79-80 | incrementing an existing key keeps the dictionary an exact tally |
| Collections.CountsTally | src/utils/content-utils.ts:76-82 | counting strings one at a time yields distinct keys that are exactly the strings seen, each mapped to its number of occurrences, summing to the number of strings |
| Collections.SumOverAppend | src/utils/content-utils.ts:76-82 | the sum over keys grows by the count of an appended key |
| Collections.SumOverIncrement | src/utils/content-utils.ts:79-80 | incrementing one key's count raises the sum over distinct keys by 1 |
| Collections.SumOverPermutation | src/utils/content-utils.ts:85-87 | reordering the keys keeps the sum of their counts |
| Collections.DistinctPermutation | src/utils/content-utils.ts:85-87 | sorting keys without repeats leaves none |
| Taxonomy.CountPostTags | src/utils/content-utils.ts:78-81 | the inner loop over one post's tags leaves the dictionary and key list of counting those tags after the ones before |
| Taxonomy.CountTags | src/utils/content-utils.ts:76-82 | the outer loop leaves the dictionary and key list of counting every tag of every listed post in order |
| Text.LexLeTotal | src/utils/content-utils.ts:86 | any two strings are comparable |
| Text.LexLeTransitive | src/utils/content-utils.ts:86 | the comparison is transitive |
| Taxonomy.LowerFirstIsTotalPreorder | src/utils/content-utils.ts:85-87 | comparing lower-cased names is a total preorder |
| Taxonomy.SortByName | src/utils/content-utils.ts:85-87 | the keys come out ordered by lower-cased name |
| Taxonomy.SortedKeys | src/utils/content-utils.ts:85-87 | the sorted keys are the dictionary's keys, each once, in name order, with counts summing to the occurrences |
| Taxonomy.TagEntries | src/utils/content-utils.ts:89 | one entry per name, in order, with the name's count; the counts add up to the sum over the names |
| Taxonomy.NamesReadout | src/utils/content-utils.ts:85-89 | each key read out has its number of occurrences (at least 1), and every string counted is among the keys |
| Taxonomy.TagReadout | src/utils/content-utils.ts:85-89 | the entries have distinct names, exact counts of at least 1, cover every tag counted, total the occurrences and are in name order |
| Taxonomy.GetTagList | src/utils/content-utils.ts:66-90 | `getTagList`: one entry per distinct tag of the listed posts, its count the number of occurrences (repeats within a post included, so at least 1), counts totalling all tag occurrences, ordered by lower-cased name |
| Text.TrimStart | src/utils/content-utils.ts:117 | leading white space removed, the rest a suffix of the input starting with a non-space |
| Text.TrimEnd | src/utils/content-utils.ts:117 | trailing white space removed, the rest a prefix of the input ending in a non-space |
| Text.Trim | src/utils/content-utils.ts:117 | the trimmed name neither starts nor ends with white space and is no longer than the input |
| Text.TrimKeepsInfix | src/utils/content-utils.ts:117 | the trimmed name is a contiguous run of the input with only white space around it |
| Text.TrimIdempotent | src/utils/content-utils.ts:117 | trimming twice equals trimming once |
| Taxonomy.TrimmedCategoriesShareBucket | src/utils/content-utils.ts:115-120 | two non-empty categories equal after trimming are counted under the same name |
| Taxonomy.BlankCategoryKey | src/utils/content-utils.ts:109-120 | a non-empty category made only of white space is truthy, so it is counted under the empty name after trimming, not under the uncategorized label |
| Taxonomy.CountKey | src/utils/content-utils.ts:111 | counting one more key leaves the dictionary and key list of the keys counted so far plus that one |
| Taxonomy.CountCategories | src/utils/content-utils.ts:107-121 | the loop leaves the dictionary and key list of counting each listed post under its trimmed category, or the uncategorized label when the category is missing or empty |
| Taxonomy.CategoryEntries | src/utils/content-utils.ts:128-135 | one entry per name, in order, with its count and `getCategoryUrl(name)`; the counts add up to the sum over the names |
| Taxonomy.CategoryReadout | src/utils/content-utils.ts:124-135 | the entries have distinct names, exact counts of at least 1, cover every name counted, total the posts and are in name order |
| Taxonomy.GetCategoryList | src/utils/content-utils.ts:98-138 | `getCategoryList`: one entry per category name of the listed posts, its count the number of those posts (at least 1), counts totalling the listed posts, ordered by lower-cased name, each with its category URL |
| PlainObjects.Get | src/utils/content-utils.ts:79 | reading a missing key that is not inherited gives `undefined`; an own key gives its value |
| PlainObjects.Put | src/utils/content-utils.ts:80 | a write stores the value under the key, appending a new key to the key order, except for `__proto__`, which leaves the object as it was; every other key keeps its presence and value |
| PlainObjects.Increment | src/utils/content-utils.ts:80 | `++` on a number adds 1 |
| PlainObjects.PlusOne | src/utils/content-utils.ts:111 | `+ 1` on a number adds 1 |
| PlainObjects.ConstructorTagCountsNaN | src/utils/content-utils.ts:76-82 | a tag named `constructor` used once is listed with count `NaN` |
| PlainObjects.ConstructorTagUndercounted | src/utils/content-utils.ts:76-82 | a tag named `constructor` used twice is listed with count 1 |
| PlainObjects.ProtoTagDropped | src/utils/content-utils.ts:76-82 | a tag named `__proto__` leaves the dictionary empty |
| PlainObjects.CountTagStep | src/utils/content-utils.ts:79-80 | for a name not inherited, one step of the object as written matches one step of the map |
| PlainObjects.TagCountsAgree | src/utils/content-utils.ts:76-82 | for tags none of which is an inherited name, the object as written holds exactly the map's keys, order and counts |
| PlainObjects.ToStringCategoryCountIsText | src/utils/content-utils.ts:107-121 | a category named `toString` is listed with a text count, the printed function with "1" appended |
| PlainObjects.ProtoCategoryDropped | src/utils/content-utils.ts:107-121 | a category named `__proto__` leaves the dictionary empty |
| PlainObjects.CountCategoryStep | src/utils/content-utils.ts:111 | for a name not inherited, one step of the object as written matches one step of the map |
| PlainObjects.CategoryCountsAgree | src/utils/content-utils.ts:107-121 | for category names none of which is an inherited name, the object as written holds exactly the map's keys, order and counts |

## Left out

- The content source (`getCollection`) is an input sequence of posts. The
  model takes the order in which the source returns entries as given.
- The build-mode flag and the clock are the parameters `mode` and `now`.
  Dates are integer timestamps. Parsing date strings, and the `NaN` of an
  invalid date (which would make comparisons false), are not modelled.
- The i18n lookup of the uncategorized label is a string parameter.
  `getCategoryUrl` is a function parameter and its URL format is not
  modelled.
- An empty category goes under the uncategorized label, but a category
  made only of white space is truthy. It is trimmed to `""` and listed
  under an entry named `""`; `Taxonomy.BlankCategoryKey` states this.
- A non-string category converted with `String(...)` is not modelled:
  categories are strings or absent.
- `toLowerCase` is modelled for ASCII letters only. `localeCompare` is
  modelled as code-point order, not a locale collation. Only the facts the
  sort needs (totality and transitivity) are used.
- `Array.prototype.sort` is modelled by an insertion sort. Only "a
  permutation, in order" is claimed, so the order of posts with equal
  dates, equal scores or equal lower-cased names is left open.
- Posts.GetSortedPosts: the sort's in-place reordering of the array the
  content source hands back is modelled by filling a fresh array. The link
  loops are modelled in place. The source writes the links into records
  that the content layer may cache and share between calls; that aliasing
  is not modelled.
- `Object.keys` lists integer-like keys (such as a tag named "2024") before
  the others. The key list in insertion order models only the other keys.
  The key order is sorted afterwards, so only the order of ties is
  affected.
- The date comparator `dateA > dateB ? -1 : 1` and the tie-break of the
  related-posts comparator never answer 0, not even for a post compared
  with itself. ECMAScript therefore does not count them as consistent
  comparators. For such a comparator the standard leaves the sort order
  implementation-defined and guarantees only that the result is a
  permutation. Every ordering contract here assumes an engine whose sort
  decides only on `comparefn(a, b) < 0`, as V8's TimSort does.
- The default arguments `limit = 3` and `featuredTag = "Featured"` are
  supplied by the caller.
- Absent `tags` count as an empty list and absent `draft`/`featured` as
  false, as `data.tags?.includes` and `=== true` treat them. Two places
  throw a TypeError on absent `tags` instead, and the model does not
  capture either:
  - `getRelatedPosts` throws when the current post has no `tags`.
  - `getTagList` throws when a listed post has no `tags`, since it calls
    `post.data.tags.forEach` without `?.`. `Taxonomy.GetTagList` counts
    such a post as having no tags.
- PlainObjects.FunctionText: the text of a built-in function follows V8's
  `function name() { [native code] }`; other engines print it differently.

## Findings

| source | as written | input that shows it | evidently intended | confidence | as-written member | corrected member |
|---|---|---|---|---|---|---|
| src/utils/content-utils.ts:76-82 | `countMap` is a plain `{}`. `!countMap[tag]` and `countMap[tag]++` see the members every object inherits from `Object.prototype`, and an assignment to `__proto__` creates no key | tags `["constructor"]` give the entry `{name: "constructor", count: NaN}`; `["constructor", "constructor"]` give count 1; `["__proto__"]` give no entry at all | a dictionary without inherited members (`Object.create(null)` or a `Map`): every tag listed with its number of occurrences | not executed | PlainObjects.ConstructorTagCountsNaN, PlainObjects.ConstructorTagUndercounted, PlainObjects.ProtoTagDropped | Taxonomy.GetTagList |
| src/utils/content-utils.ts:107-121 | `count` is a plain `{}`. `count[key] ? count[key] + 1 : 1` finds an inherited function for `toString` and friends and appends "1" to its text, and a write to `__proto__` creates no key | category `"toString"` gives the count `"function toString() { [native code] }1"`; category `"__proto__"` gives no entry | every category listed with its number of posts | not executed | PlainObjects.ToStringCategoryCountIsText, PlainObjects.ProtoCategoryDropped | Taxonomy.GetCategoryList |
