/**
 * The post list of the blog: which posts are listed, their newest-first
 * order, the previous/next links written into each listed post, the
 * summary list, and the featured and related selections
 * (src/utils/content-utils.ts).
 *
 * Dates are integer timestamps; the clock (`new Date()`) is the parameter
 * `now` and the build mode (`import.meta.env.PROD`) the parameter `mode`.
 * The content collection is the input list `all`, in the order the content
 * source returns it.
 */
module Posts {
  import opened Collections

  datatype Option<T> = None | Some(value: T)

  /** A production build hides drafts and scheduled posts; a development build lists everything. */
  datatype Mode = Production | Preview

  /**
   * The front matter of a post. An absent `draft` or `featured` flag is
   * `false` and absent `tags` are empty. The last four fields are the
   * navigation links `GetSortedPosts` writes.
   */
  datatype PostData = PostData(
    title: string,
    published: int,
    publishAt: Option<int>,
    draft: bool,
    featured: bool,
    tags: seq<string>,
    category: Option<string>,
    prevSlug: Option<string>,
    prevTitle: Option<string>,
    nextSlug: Option<string>,
    nextTitle: Option<string>)

  /** A collection entry: its slug, its body and its front matter. */
  datatype Post = Post(slug: string, body: string, data: PostData)

  /** `PostForList`: an entry without its body. */
  datatype PostForList = PostForList(slug: string, data: PostData)

  /**
   * The filter handed to the content source: in production a post is
   * listed when it is not a draft and its `publishAt`, if any, has been
   * reached; otherwise every post is listed.
   */
  predicate Visible(p: Post, mode: Mode, now: int) {
    mode == Preview || (!p.data.draft && (p.data.publishAt.None? || p.data.publishAt.value <= now))
  }

  /** The entries the content source returns for that filter. */
  function VisiblePosts(all: seq<Post>, mode: Mode, now: int): seq<Post> {
    Filter(all, p => Visible(p, mode, now))
  }

  /**
   * A post is listed in production exactly when it is no draft and not
   * scheduled for later, and every post is listed in a development build;
   * no entry is duplicated or lost on the way.
   */
  lemma VisiblePostsSpec(all: seq<Post>, now: int)
    ensures forall p :: p in VisiblePosts(all, Production, now) <==>
      p in all && !p.data.draft && (p.data.publishAt.None? || p.data.publishAt.value <= now)
    ensures forall p :: Visible(p, Production, now) ==>
      multiset(VisiblePosts(all, Production, now))[p] == multiset(all)[p]
    ensures VisiblePosts(all, Preview, now) == all
  {
    FilterKeepsAll(all, p => Visible(p, Preview, now));
  }

  /** The date a post is ordered by: `publishAt || published`. */
  function EffectiveDate(d: PostData): int {
    if d.publishAt.Some? then d.publishAt.value else d.published
  }

  /**
   * The comparator `dateA > dateB ? -1 : 1`: a may precede b when it is not
   * older. It answers 1 for equal dates in both directions, so the order of
   * posts of the same date is left to the sort.
   */
  predicate NewerOrSame(a: Post, b: Post) {
    EffectiveDate(a.data) >= EffectiveDate(b.data)
  }

  lemma NewerOrSameIsTotalPreorder()
    ensures TotalPreorder(NewerOrSame)
  {
  }

  ghost predicate NewestFirst(s: seq<Post>) {
    SortedBy(s, NewerOrSame)
  }

  lemma SortNewestFirst(s: seq<Post>)
    ensures NewestFirst(SortBy(s, NewerOrSame))
  {
    NewerOrSameIsTotalPreorder();
    SortBySorted(s, NewerOrSame);
  }

  /** `getRawSortedPosts`: the listed posts, newest first. */
  function RawSortedPosts(all: seq<Post>, mode: Mode, now: int): (r: seq<Post>)
    ensures multiset(r) == multiset(VisiblePosts(all, mode, now))
    ensures NewestFirst(r)
  {
    SortNewestFirst(VisiblePosts(all, mode, now));
    SortBy(VisiblePosts(all, mode, now), NewerOrSame)
  }

  // ---------------------------------------------------------------------
  // Previous/next links
  // ---------------------------------------------------------------------

  /** Points the next link of `p` at the newer post `newer`. */
  function WithNext(p: Post, newer: Post): Post {
    p.(data := p.data.(nextSlug := Some(newer.slug), nextTitle := Some(newer.data.title)))
  }

  /** Points the previous link of `p` at the older post `older`. */
  function WithPrev(p: Post, older: Post): Post {
    p.(data := p.data.(prevSlug := Some(older.slug), prevTitle := Some(older.data.title)))
  }

  /** Position k after the first loop of `getSortedPosts`: linked forward unless it is the first. */
  function NextLinked(s: seq<Post>, k: nat): Post
    requires k < |s|
  {
    if 1 <= k then WithNext(s[k], s[k - 1]) else s[k]
  }

  /** Position k after both loops: also linked back unless it is the last. */
  function Linked(s: seq<Post>, k: nat): Post
    requires k < |s|
  {
    if k < |s| - 1 then WithPrev(NextLinked(s, k), s[k + 1]) else NextLinked(s, k)
  }

  /** The list after both loops of `getSortedPosts`. */
  function WithNeighbours(s: seq<Post>): seq<Post> {
    seq(|s|, k requires 0 <= k < |s| => Linked(s, k))
  }

  /** Everything but the four navigation fields. */
  function WithoutLinks(p: Post): Post {
    p.(data := p.data.(prevSlug := None, prevTitle := None, nextSlug := None, nextTitle := None))
  }

  /**
   * Linking keeps the length and order of the list and every other field;
   * each post but the first links forward to the one before it, each post
   * but the last links back to the one after it; the next fields of the
   * first post and the previous fields of the last are left as they were.
   */
  lemma NeighbourLinks(s: seq<Post>)
    ensures |WithNeighbours(s)| == |s|
    ensures forall k :: 0 <= k < |s| ==> WithoutLinks(WithNeighbours(s)[k]) == WithoutLinks(s[k])
    ensures forall k :: 1 <= k < |s| ==>
      WithNeighbours(s)[k].data.nextSlug == Some(s[k - 1].slug) &&
      WithNeighbours(s)[k].data.nextTitle == Some(s[k - 1].data.title)
    ensures forall k :: 0 <= k < |s| - 1 ==>
      WithNeighbours(s)[k].data.prevSlug == Some(s[k + 1].slug) &&
      WithNeighbours(s)[k].data.prevTitle == Some(s[k + 1].data.title)
    ensures |s| > 0 ==>
      WithNeighbours(s)[0].data.nextSlug == s[0].data.nextSlug &&
      WithNeighbours(s)[0].data.nextTitle == s[0].data.nextTitle
    ensures |s| > 0 ==>
      WithNeighbours(s)[|s| - 1].data.prevSlug == s[|s| - 1].data.prevSlug &&
      WithNeighbours(s)[|s| - 1].data.prevTitle == s[|s| - 1].data.prevTitle
  {
  }

  /** Linking does not change the dates, so a newest-first list stays newest first. */
  lemma NeighboursKeepOrder(s: seq<Post>)
    requires NewestFirst(s)
    ensures NewestFirst(WithNeighbours(s))
  {
    var r := WithNeighbours(s);
    forall i, j | 0 <= i < j < |r| ensures NewerOrSame(r[i], r[j]) {
      assert NewerOrSame(s[i], s[j]);
    }
  }

  /** The two loops of `getSortedPosts`, writing the links into the array in place. */
  method LinkNeighbours(a: array<Post>)
    modifies a
    ensures a[..] == WithNeighbours(old(a[..]))
  {
    ghost var s := a[..];
    var i := 1;
    while i < a.Length
      invariant 1 <= i && (a.Length == 0 || i <= a.Length)
      invariant forall k :: 0 <= k < a.Length ==> a[k] == if k < i then NextLinked(s, k) else s[k]
    {
      a[i] := WithNext(a[i], a[i - 1]);
      i := i + 1;
    }
    i := 0;
    while i < a.Length - 1
      invariant 0 <= i && (a.Length == 0 || i <= a.Length - 1)
      invariant forall k :: 0 <= k < a.Length ==> a[k] == if k < i then Linked(s, k) else NextLinked(s, k)
    {
      a[i] := WithPrev(a[i], a[i + 1]);
      i := i + 1;
    }
  }

  /** `getSortedPosts`: the listed posts, newest first, with their links written in. */
  method GetSortedPosts(all: seq<Post>, mode: Mode, now: int) returns (sorted: array<Post>)
    ensures fresh(sorted)
    ensures sorted[..] == WithNeighbours(RawSortedPosts(all, mode, now))
  {
    var raw := RawSortedPosts(all, mode, now);
    sorted := new Post[|raw|](k requires 0 <= k < |raw| => raw[k]);
    assert forall k :: 0 <= k < |raw| ==> sorted[k] == raw[k];
    assert sorted[..] == raw;
    LinkNeighbours(sorted);
  }

  // ---------------------------------------------------------------------
  // Summary list
  // ---------------------------------------------------------------------

  /** `map(post => ({ slug, data }))`. */
  function ListView(s: seq<Post>): (r: seq<PostForList>)
    ensures |r| == |s|
  {
    if s == [] then [] else [PostForList(s[0].slug, s[0].data)] + ListView(s[1..])
  }

  /** Each summary keeps the slug and front matter of its post. */
  lemma {:induction false} ListViewAt(s: seq<Post>)
    ensures forall i :: 0 <= i < |s| ==> ListView(s)[i].slug == s[i].slug && ListView(s)[i].data == s[i].data
  {
    if s != [] {
      ListViewAt(s[1..]);
    }
  }

  lemma {:induction false} ListViewAppend(a: seq<Post>, b: seq<Post>)
    ensures ListView(a + b) == ListView(a) + ListView(b)
  {
    if a != [] {
      var head := [PostForList(a[0].slug, a[0].data)];
      assert (a + b)[0] == a[0] && (a + b)[1..] == a[1..] + b;
      ListViewAppend(a[1..], b);
      assert ListView(a + b) == head + ListView(a[1..] + b);
      assert ListView(a) == head + ListView(a[1..]);
      assert head + (ListView(a[1..]) + ListView(b)) == (head + ListView(a[1..])) + ListView(b);
    } else {
      assert a + b == b;
    }
  }

  /** Summaries of a reordered list are a reordering of the summaries. */
  lemma {:induction false} ListViewPermutation(a: seq<Post>, b: seq<Post>)
    requires multiset(a) == multiset(b)
    ensures multiset(ListView(a)) == multiset(ListView(b))
  {
    if a == [] {
      assert |b| == |multiset(b)| == 0;
    } else {
      var i := PermutationHead(a, b);
      ListViewPermutation(a[1..], b[..i] + b[i + 1..]);
      assert b == b[..i] + [b[i]] + b[i + 1..];
      assert a == [a[0]] + a[1..];
      ListViewAppend([a[0]], a[1..]);
      ListViewAppend(b[..i] + [b[i]], b[i + 1..]);
      ListViewAppend(b[..i], [b[i]]);
      ListViewAppend(b[..i], b[i + 1..]);
    }
  }

  /**
   * `getSortedPostsList`: one summary per listed post, newest first, with
   * slug and front matter unchanged; together they are the summaries of the
   * listed posts.
   */
  function SortedPostsList(all: seq<Post>, mode: Mode, now: int): (r: seq<PostForList>)
    ensures |r| == |RawSortedPosts(all, mode, now)| == |VisiblePosts(all, mode, now)|
    ensures forall i :: 0 <= i < |r| ==>
      r[i].slug == RawSortedPosts(all, mode, now)[i].slug && r[i].data == RawSortedPosts(all, mode, now)[i].data
    ensures forall i, j :: 0 <= i < j < |r| ==> EffectiveDate(r[i].data) >= EffectiveDate(r[j].data)
    ensures multiset(r) == multiset(ListView(VisiblePosts(all, mode, now)))
  {
    var raw := RawSortedPosts(all, mode, now);
    ListViewPermutation(raw, VisiblePosts(all, mode, now));
    assert |raw| == |multiset(raw)|;
    var r := ListView(raw);
    ListViewAt(raw);
    assert forall i, j :: 0 <= i < j < |r| ==> NewerOrSame(raw[i], raw[j]);
    r
  }

  // ---------------------------------------------------------------------
  // Featured posts
  // ---------------------------------------------------------------------

  /** `featured === true || tags.includes(featuredTag)`. */
  predicate IsFeatured(p: Post, featuredTag: string) {
    p.data.featured || featuredTag in p.data.tags
  }

  function FeaturedCandidates(all: seq<Post>, mode: Mode, now: int, featuredTag: string): seq<Post> {
    Filter(all, p => Visible(p, mode, now) && IsFeatured(p, featuredTag))
  }

  /**
   * `getFeaturedPosts(limit, featuredTag)`: the newest `limit` of the
   * listed posts that are flagged or carry the featured tag (a negative
   * `limit` drops that many from the end, as `slice` does). Every featured
   * post left out is no newer than every one returned.
   */
  function FeaturedPosts(all: seq<Post>, mode: Mode, now: int, limit: int, featuredTag: string): (r: seq<Post>)
    ensures var n := |FeaturedCandidates(all, mode, now, featuredTag)|;
      && (0 <= limit ==> |r| == if limit < n then limit else n)
      && (limit < 0 ==> |r| == if n + limit < 0 then 0 else n + limit)
    ensures forall p :: p in r ==> p in all && Visible(p, mode, now) && IsFeatured(p, featuredTag)
    ensures multiset(r) <= multiset(FeaturedCandidates(all, mode, now, featuredTag))
    ensures NewestFirst(r)
    ensures forall p, x :: p in FeaturedCandidates(all, mode, now, featuredTag) && p !in r && x in r ==>
      EffectiveDate(x.data) >= EffectiveDate(p.data)
  {
    var q := FeaturedCandidates(all, mode, now, featuredTag);
    NewestTop(q, limit);
    Take(SortBy(q, NewerOrSame), limit)
  }

  /**
   * The newest `limit` of a list of posts: a newest-first prefix of the
   * sorted list, drawn from the list, with nothing left out newer than
   * anything taken.
   */
  lemma NewestTop(q: seq<Post>, limit: int)
    ensures forall p :: p in Take(SortBy(q, NewerOrSame), limit) ==> p in q
    ensures multiset(Take(SortBy(q, NewerOrSame), limit)) <= multiset(q)
    ensures NewestFirst(Take(SortBy(q, NewerOrSame), limit))
    ensures forall p, x :: p in q && p !in Take(SortBy(q, NewerOrSame), limit) && x in Take(SortBy(q, NewerOrSame), limit) ==>
      EffectiveDate(x.data) >= EffectiveDate(p.data)
  {
    var sorted := SortBy(q, NewerOrSame);
    SortNewestFirst(q);
    TakeOfSortedIsTop(q, sorted, limit, NewerOrSame);
    PermutationMembers(sorted, q);
  }

  // ---------------------------------------------------------------------
  // Related posts
  // ---------------------------------------------------------------------

  /** The tags of the current post, repeats included, that the candidate also carries. */
  function SharedTags(current: seq<string>, candidate: seq<string>): seq<string> {
    Filter(current, t => t in candidate)
  }

  /** The similarity score: `currentPost.data.tags.filter(tag => post.data.tags.includes(tag)).length`. */
  function Score(current: Post, candidate: Post): nat {
    |SharedTags(current.data.tags, candidate.data.tags)|
  }

  /**
   * A candidate scores when it shares at least one tag with the current
   * post, and never more than the current post has tags; a tag repeated in
   * the current post is counted once per repetition.
   */
  lemma ScoreSpec(current: Post, candidate: Post)
    ensures Score(current, candidate) > 0 <==>
      exists t :: t in current.data.tags && t in candidate.data.tags
    ensures Score(current, candidate) <= |current.data.tags|
    ensures forall t :: t in candidate.data.tags ==>
      multiset(SharedTags(current.data.tags, candidate.data.tags))[t] == multiset(current.data.tags)[t]
  {
    var s := SharedTags(current.data.tags, candidate.data.tags);
    if s != [] {
      assert s[0] in s;
    }
  }

  /** `{ post, score }`. */
  datatype Scored = Scored(post: Post, score: nat)

  /** The comparator: higher score first, then newer first. */
  predicate RanksBefore(a: Scored, b: Scored) {
    a.score > b.score || (a.score == b.score && NewerOrSame(a.post, b.post))
  }

  lemma RanksBeforeIsTotalPreorder()
    ensures TotalPreorder(RanksBefore)
  {
  }

  lemma RankedSorted(items: seq<Scored>)
    ensures SortedBy(SortBy(items, RanksBefore), RanksBefore)
  {
    RanksBeforeIsTotalPreorder();
    SortBySorted(items, RanksBefore);
  }

  /** The listed posts other than the current one. */
  function RelatedCandidates(all: seq<Post>, mode: Mode, now: int, currentSlug: string): seq<Post> {
    Filter(all, p => Visible(p, mode, now) && p.slug != currentSlug)
  }

  function WithScores(posts: seq<Post>, current: Post): (r: seq<Scored>)
    ensures |r| == |posts|
  {
    seq(|posts|, i requires 0 <= i < |posts| => Scored(posts[i], Score(current, posts[i])))
  }

  function PostsOf(items: seq<Scored>): (r: seq<Post>)
    ensures |r| == |items|
  {
    seq(|items|, i requires 0 <= i < |items| => items[i].post)
  }

  lemma PostsOfAppend(a: seq<Scored>, b: seq<Scored>)
    ensures PostsOf(a + b) == PostsOf(a) + PostsOf(b)
  {
    assert forall i :: 0 <= i < |a + b| ==> PostsOf(a + b)[i] == (PostsOf(a) + PostsOf(b))[i];
  }

  /** Taking the item at index i out of a list takes its post out of the posts. */
  lemma PostsOfRemove(b: seq<Scored>, i: nat)
    requires i < |b|
    ensures multiset(PostsOf(b)) == multiset{b[i].post} + multiset(PostsOf(b[..i] + b[i + 1..]))
  {
    assert b == b[..i] + [b[i]] + b[i + 1..];
    PostsOfAppend(b[..i] + [b[i]], b[i + 1..]);
    PostsOfAppend(b[..i], [b[i]]);
    PostsOfAppend(b[..i], b[i + 1..]);
    assert PostsOf([b[i]]) == [b[i].post];
  }

  /** Dropping the scores of a sub-multiset of scored items gives a sub-multiset of their posts. */
  lemma {:induction false} PostsOfSubMultiset(a: seq<Scored>, b: seq<Scored>)
    requires multiset(a) <= multiset(b)
    ensures multiset(PostsOf(a)) <= multiset(PostsOf(b))
  {
    if a != [] {
      assert a[0] in multiset(b);
      var i :| 0 <= i < |b| && b[i] == a[0];
      var rest := b[..i] + b[i + 1..];
      SubMultisetRest(a, b, i);
      PostsOfSubMultiset(a[1..], rest);
      PostsOfRemove(b, i);
      PostsOfAppend([a[0]], a[1..]);
      assert a == [a[0]] + a[1..];
      assert PostsOf([a[0]]) == [b[i].post];
    }
  }

  /** The posts of scored items drawn from the scoring candidates are drawn from the candidates. */
  lemma ScoredPostsFromCandidates(candidates: seq<Post>, current: Post, top: seq<Scored>)
    requires multiset(top) <= multiset(Scoring(candidates, current))
    ensures multiset(PostsOf(top)) <= multiset(candidates)
  {
    var scored := WithScores(candidates, current);
    assert multiset(Scoring(candidates, current)) <= multiset(scored);
    PostsOfSubMultiset(top, scored);
    assert PostsOf(scored) == candidates;
  }

  /** `item.score > 0`. */
  predicate HasScore(s: Scored) {
    s.score > 0
  }

  /** The scored candidates with at least one common tag: `filter(item => item.score > 0)`. */
  function Scoring(candidates: seq<Post>, current: Post): seq<Scored> {
    Filter(WithScores(candidates, current), HasScore)
  }

  /** The candidates that share a tag with the current post. */
  function Sharing(candidates: seq<Post>, current: Post): seq<Post> {
    Filter(candidates, p => Score(current, p) > 0)
  }

  /** As many items score as there are candidates sharing a tag. */
  lemma {:induction false} ScoringLength(candidates: seq<Post>, current: Post)
    ensures |Scoring(candidates, current)| == |Sharing(candidates, current)|
  {
    if candidates != [] {
      var w := WithScores(candidates, current);
      var score := Score(current, candidates[0]);
      ScoringLength(candidates[1..], current);
      assert w[0] == Scored(candidates[0], score);
      assert w[1..] == WithScores(candidates[1..], current);
      assert |Scoring(candidates, current)| == (if score > 0 then 1 else 0) + |Scoring(candidates[1..], current)|;
      assert |Sharing(candidates, current)| == (if score > 0 then 1 else 0) + |Sharing(candidates[1..], current)|;
    }
  }

  /** The scoring items are exactly the candidates sharing a tag, each paired with its own score. */
  lemma ScoringSpec(candidates: seq<Post>, current: Post)
    ensures forall s: Scored :: s in Scoring(candidates, current) <==>
      s.post in candidates && s.score == Score(current, s.post) && s.score > 0
  {
    var scored := WithScores(candidates, current);
    forall s: Scored | s.post in candidates && s.score == Score(current, s.post) && s.score > 0
      ensures s in scored
    {
      var i :| 0 <= i < |candidates| && candidates[i] == s.post;
      assert scored[i] == s;
    }
    forall s: Scored | s in scored ensures s.post in candidates && s.score == Score(current, s.post) {
      var i :| 0 <= i < |scored| && scored[i] == s;
    }
  }

  /** The scoring candidates, best first. */
  function Ranked(all: seq<Post>, mode: Mode, now: int, current: Post): seq<Scored> {
    SortBy(Scoring(RelatedCandidates(all, mode, now, current.slug), current), RanksBefore)
  }

  /** What the ranked list holds: every scoring candidate, each with its own score, best first. */
  lemma RankedSpec(all: seq<Post>, mode: Mode, now: int, current: Post)
    ensures SortedBy(Ranked(all, mode, now, current), RanksBefore)
    ensures forall s: Scored :: s in Ranked(all, mode, now, current) <==>
      s.post in RelatedCandidates(all, mode, now, current.slug) && s.score == Score(current, s.post) && s.score > 0
  {
    var candidates := RelatedCandidates(all, mode, now, current.slug);
    var positive := Scoring(candidates, current);
    RankedSorted(positive);
    PermutationMembers(Ranked(all, mode, now, current), positive);
    ScoringSpec(candidates, current);
  }

  /**
   * `getRelatedPosts(currentPost, limit)`: `limit` of the listed posts
   * (fewer if fewer share a tag; a negative `limit` drops that many from
   * the end), each at most once, none of them the current post, each
   * sharing a tag with it, ordered by
   * score and then newest first; every scoring candidate left out ranks no
   * higher than every post returned.
   */
  function RelatedPosts(all: seq<Post>, mode: Mode, now: int, current: Post, limit: int): (r: seq<Post>)
    ensures var n := |Sharing(RelatedCandidates(all, mode, now, current.slug), current)|;
      && (0 <= limit ==> |r| == if limit < n then limit else n)
      && (limit < 0 ==> |r| == if n + limit < 0 then 0 else n + limit)
    ensures multiset(r) <= multiset(RelatedCandidates(all, mode, now, current.slug))
    ensures forall p :: p in r ==>
      p in all && Visible(p, mode, now) && p.slug != current.slug && Score(current, p) > 0
    ensures forall i, j :: 0 <= i < j < |r| ==>
      Score(current, r[i]) > Score(current, r[j]) ||
      (Score(current, r[i]) == Score(current, r[j]) && EffectiveDate(r[i].data) >= EffectiveDate(r[j].data))
    ensures forall p, x ::
      p in RelatedCandidates(all, mode, now, current.slug) && Score(current, p) > 0 && p !in r && x in r ==>
      Score(current, x) > Score(current, p) ||
      (Score(current, x) == Score(current, p) && EffectiveDate(x.data) >= EffectiveDate(p.data))
  {
    var ranked := Ranked(all, mode, now, current);
    var top := Take(ranked, limit);
    RankedSpec(all, mode, now, current);
    TakeOfSortedIsTop(ranked, ranked, limit, RanksBefore);
    RelatedFromTop(all, mode, now, current, top);
    ScoredPostsFromCandidates(RelatedCandidates(all, mode, now, current.slug), current, top);
    ScoringLength(RelatedCandidates(all, mode, now, current.slug), current);
    PostsOf(top)
  }

  /** Carries the facts about the chosen scored items over to their posts. */
  lemma RelatedFromTop(all: seq<Post>, mode: Mode, now: int, current: Post, top: seq<Scored>)
    requires SortedBy(top, RanksBefore)
    requires forall s :: s in top ==>
      s.post in RelatedCandidates(all, mode, now, current.slug) && s.score == Score(current, s.post) && s.score > 0
    requires forall p, x ::
      (p in RelatedCandidates(all, mode, now, current.slug) && Score(current, p) > 0 &&
       Scored(p, Score(current, p)) !in top && x in top) ==>
      RanksBefore(x, Scored(p, Score(current, p)))
    ensures forall p :: p in PostsOf(top) ==>
      p in all && Visible(p, mode, now) && p.slug != current.slug && Score(current, p) > 0
    ensures forall i, j :: 0 <= i < j < |top| ==>
      Score(current, PostsOf(top)[i]) > Score(current, PostsOf(top)[j]) ||
      (Score(current, PostsOf(top)[i]) == Score(current, PostsOf(top)[j]) &&
       EffectiveDate(PostsOf(top)[i].data) >= EffectiveDate(PostsOf(top)[j].data))
    ensures forall p, x ::
      p in RelatedCandidates(all, mode, now, current.slug) && Score(current, p) > 0 && p !in PostsOf(top) && x in PostsOf(top) ==>
      Score(current, x) > Score(current, p) ||
      (Score(current, x) == Score(current, p) && EffectiveDate(x.data) >= EffectiveDate(p.data))
  {
    var candidates := RelatedCandidates(all, mode, now, current.slug);
    TopPostsMembers(candidates, current, top);
    TopPostsOrder(current, top);
    TopPostsRankFirst(candidates, current, top);
  }

  /** The posts of items drawn from the scoring candidates are scoring candidates. */
  lemma TopPostsMembers(candidates: seq<Post>, current: Post, top: seq<Scored>)
    requires forall s :: s in top ==> s.post in candidates && s.score == Score(current, s.post) && s.score > 0
    ensures forall p :: p in PostsOf(top) ==> p in candidates && Score(current, p) > 0
  {
    var r := PostsOf(top);
    forall p | p in r ensures p in candidates && Score(current, p) > 0 {
      var i :| 0 <= i < |r| && r[i] == p;
      assert top[i] in top;
    }
  }

  /** Items in rank order, each carrying its own score, give posts in rank order. */
  lemma TopPostsOrder(current: Post, top: seq<Scored>)
    requires SortedBy(top, RanksBefore)
    requires forall s :: s in top ==> s.score == Score(current, s.post)
    ensures forall i, j :: 0 <= i < j < |top| ==>
      RanksBefore(Scored(PostsOf(top)[i], Score(current, PostsOf(top)[i])),
                  Scored(PostsOf(top)[j], Score(current, PostsOf(top)[j])))
  {
    var r := PostsOf(top);
    forall i, j | 0 <= i < j < |top|
      ensures RanksBefore(Scored(r[i], Score(current, r[i])), Scored(r[j], Score(current, r[j])))
    {
      assert top[i] in top && top[j] in top;
      assert RanksBefore(top[i], top[j]);
    }
  }

  /** A scoring candidate whose post was not taken ranks no higher than any post taken. */
  lemma TopPostsRankFirst(candidates: seq<Post>, current: Post, top: seq<Scored>)
    requires forall s :: s in top ==> s.score == Score(current, s.post)
    requires forall p, x ::
      (p in candidates && Score(current, p) > 0 && Scored(p, Score(current, p)) !in top && x in top) ==>
      RanksBefore(x, Scored(p, Score(current, p)))
    ensures forall p, x :: p in candidates && Score(current, p) > 0 && p !in PostsOf(top) && x in PostsOf(top) ==>
      RanksBefore(Scored(x, Score(current, x)), Scored(p, Score(current, p)))
  {
    var r := PostsOf(top);
    forall p, x | p in candidates && Score(current, p) > 0 && p !in r && x in r
      ensures RanksBefore(Scored(x, Score(current, x)), Scored(p, Score(current, p)))
    {
      var k :| 0 <= k < |r| && r[k] == x;
      assert top[k] in top;
      forall m | 0 <= m < |top| ensures top[m] != Scored(p, Score(current, p)) {
        assert r[m] == top[m].post;
      }
    }
  }
}
