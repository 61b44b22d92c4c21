/**
 * What `getposts` hands to the store: the filter built from the optional
 * query parameters, the sort direction on `updatedAt`, the offset and the
 * limit; and a reference meaning for them over an in-memory list of posts,
 * together with the two counts the response carries.
 */
module PostQuery {
  import opened Wrappers
  import Numbers
  import Calendar
  import Slug

  /** The query-string parameters `getposts` reads; each may be absent. */
  datatype Params = Params(
    userId: Option<string>,
    category: Option<string>,
    slug: Option<string>,
    postId: Option<string>,
    searchTerm: Option<string>,
    startIndex: Option<string>,
    limit: Option<string>,
    order: Option<string>)

  const NoParams := Params(None, None, None, None, None, None, None, None)

  /** A query-string value used as a condition: truthy unless absent or empty. */
  predicate Truthy(v: Option<string>) { v.Some? && v.value != "" }

  /** `v && { key: v }` spread into an object: the entry exists iff `v` is truthy. */
  function Entry(v: Option<string>): (r: Option<string>)
    ensures r.Some? <==> Truthy(v)
    ensures r.Some? ==> r == v
  {
    if Truthy(v) then v else None
  }

  /**
   * The object passed to `Post.find`: the equality conditions on `userId`,
   * `category`, `slug` and `_id`, and the `$or` over title and content for a
   * search term. Each field is `None` when the key is not in the object.
   */
  datatype Filter = Filter(
    userId: Option<string>,
    category: Option<string>,
    slug: Option<string>,
    id: Option<string>,
    search: Option<string>)

  /** The keys of the query object a filter stands for. */
  function FilterKeys(f: Filter): set<string> {
    (if f.userId.Some? then {"userId"} else {})
    + (if f.category.Some? then {"category"} else {})
    + (if f.slug.Some? then {"slug"} else {})
    + (if f.id.Some? then {"_id"} else {})
    + (if f.search.Some? then {"$or"} else {})
  }

  /**
   * The filter `getposts` builds. Each key is in it exactly when its
   * parameter is a non-empty string, `postId` going under `_id` and the
   * search term under `$or`, and holds that parameter's value verbatim.
   */
  function BuildFilter(p: Params): (f: Filter)
    ensures "userId" in FilterKeys(f) <==> Truthy(p.userId)
    ensures "category" in FilterKeys(f) <==> Truthy(p.category)
    ensures "slug" in FilterKeys(f) <==> Truthy(p.slug)
    ensures "_id" in FilterKeys(f) <==> Truthy(p.postId)
    ensures "$or" in FilterKeys(f) <==> Truthy(p.searchTerm)
    ensures FilterKeys(f) <= {"userId", "category", "slug", "_id", "$or"}
    ensures f.userId.Some? ==> f.userId == p.userId
    ensures f.category.Some? ==> f.category == p.category
    ensures f.slug.Some? ==> f.slug == p.slug
    ensures f.id.Some? ==> f.id == p.postId
    ensures f.search.Some? ==> f.search == p.searchTerm
  {
    Filter(Entry(p.userId), Entry(p.category), Entry(p.slug), Entry(p.postId), Entry(p.searchTerm))
  }

  /** Without parameters the filter is the empty object. */
  lemma NoParamsEmptyFilter()
    ensures FilterKeys(BuildFilter(NoParams)) == {}
  {
  }

  // ---------------------------------------------------------------------
  // Pagination and sort

  /** The `.sort({ updatedAt: d })` value: 1 ascending, -1 descending. */
  function SortDirection(order: Option<string>): (d: int)
    ensures d == 1 || d == -1
    ensures d == 1 <==> order == Some("asc")
  {
    if order == Some("asc") then 1 else -1
  }

  /** Everything `getposts` passes to `find`, `sort`, `skip` and `limit`. */
  datatype ListQuery = ListQuery(filter: Filter, direction: int, skip: int, limit: int)

  function BuildQuery(p: Params): (q: ListQuery)
    ensures q.filter == BuildFilter(p)
    ensures q.direction == SortDirection(p.order)
    ensures Numbers.ParseInt(p.startIndex).None? ==> q.skip == 0
    ensures Numbers.ParseInt(p.startIndex).Some? ==> q.skip == Numbers.ParseInt(p.startIndex).value
    ensures q.limit != 0
    ensures Numbers.ParseInt(p.limit) in {None, Some(0)} ==> q.limit == 9
    ensures Numbers.ParseInt(p.limit).Some? && Numbers.ParseInt(p.limit).value != 0
      ==> q.limit == Numbers.ParseInt(p.limit).value
  {
    ListQuery(BuildFilter(p), SortDirection(p.order),
              Numbers.ParseIntOr(p.startIndex, 0), Numbers.ParseIntOr(p.limit, 9))
  }

  /** With no parameters: empty filter, newest first, offset 0, nine posts. */
  lemma DefaultQuery()
    ensures BuildQuery(NoParams) == ListQuery(Filter(None, None, None, None, None), -1, 0, 9)
  {
  }

  /** `order` is compared exactly: "ASC" sorts descending. */
  lemma OrderIsCaseSensitive()
    ensures SortDirection(Some("ASC")) == -1
    ensures SortDirection(Some("asc")) == 1
  {
  }

  /** `limit=0` is falsy after parsing, so it becomes the default 9. */
  lemma ZeroLimitBecomesNine(p: Params)
    requires p.limit == Some("0")
    ensures BuildQuery(p).limit == 9
  {
    Numbers.ZeroTakesDefault();
  }

  // ---------------------------------------------------------------------
  // Reference meaning over a list of posts

  /**
   * A stored post. `createdOn` is the local calendar day of `createdAt`;
   * `updatedAt` is a timestamp.
   */
  datatype Post = Post(
    id: string,
    userId: string,
    title: string,
    content: string,
    category: string,
    slug: string,
    createdOn: Calendar.Date,
    updatedAt: int)

  /** `needle` occurs somewhere in `hay`. */
  predicate IsSubstring(needle: string, hay: string)
    decreases |hay|
  {
    (|needle| <= |hay| && hay[..|needle|] == needle)
    || (hay != [] && IsSubstring(needle, hay[1..]))
  }

  /**
   * `{ $regex: term, $options: 'i' }` for a term without metacharacters:
   * the term occurs in the text, ignoring ASCII case.
   */
  predicate MatchesIgnoringCase(text: string, term: string) {
    IsSubstring(Slug.ToLower(term), Slug.ToLower(text))
  }

  /** One condition of the query object: a field equality, or the search's `$or`. */
  datatype Condition = FieldIs(field: string, value: string) | TitleOrContent(term: string)

  /** The stored value of the field a condition names. */
  function FieldOf(post: Post, field: string): Option<string> {
    if field == "userId" then Some(post.userId)
    else if field == "category" then Some(post.category)
    else if field == "slug" then Some(post.slug)
    else if field == "_id" then Some(post.id)
    else None
  }

  predicate Holds(c: Condition, post: Post) {
    match c
    case FieldIs(field, value) => FieldOf(post, field) == Some(value)
    case TitleOrContent(term) =>
      MatchesIgnoringCase(post.title, term) || MatchesIgnoringCase(post.content, term)
  }

  /** The filter as a list of conjuncts, one per key present. */
  function Conjuncts(f: Filter): seq<Condition> {
    (if f.userId.Some? then [FieldIs("userId", f.userId.value)] else [])
    + (if f.category.Some? then [FieldIs("category", f.category.value)] else [])
    + (if f.slug.Some? then [FieldIs("slug", f.slug.value)] else [])
    + (if f.id.Some? then [FieldIs("_id", f.id.value)] else [])
    + (if f.search.Some? then [TitleOrContent(f.search.value)] else [])
  }

  /** Every condition of the list holds of the post. */
  predicate AllHold(cs: seq<Condition>, post: Post) {
    cs == [] || (Holds(cs[0], post) && AllHold(cs[1..], post))
  }

  lemma {:induction false} AllHoldConcat(a: seq<Condition>, b: seq<Condition>, post: Post)
    ensures AllHold(a + b, post) <==> AllHold(a, post) && AllHold(b, post)
  {
    if a == [] {
      assert a + b == b;
    } else {
      assert (a + b)[0] == a[0] && (a + b)[1..] == a[1..] + b;
      AllHoldConcat(a[1..], b, post);
    }
  }

  /** A post matches a filter: every key present is a condition the post meets. */
  predicate Matches(f: Filter, post: Post) {
    (f.userId.Some? ==> post.userId == f.userId.value)
    && (f.category.Some? ==> post.category == f.category.value)
    && (f.slug.Some? ==> post.slug == f.slug.value)
    && (f.id.Some? ==> post.id == f.id.value)
    && (f.search.Some? ==> MatchesIgnoringCase(post.title, f.search.value)
                           || MatchesIgnoringCase(post.content, f.search.value))
  }

  /** The filter means the conjunction of its conjuncts. */
  lemma MatchesIsConjunction(f: Filter, post: Post)
    ensures Matches(f, post) == AllHold(Conjuncts(f), post)
  {
    var u := if f.userId.Some? then [FieldIs("userId", f.userId.value)] else [];
    var c := if f.category.Some? then [FieldIs("category", f.category.value)] else [];
    var s := if f.slug.Some? then [FieldIs("slug", f.slug.value)] else [];
    var i := if f.id.Some? then [FieldIs("_id", f.id.value)] else [];
    var t := if f.search.Some? then [TitleOrContent(f.search.value)] else [];
    assert Conjuncts(f) == u + c + s + i + t;
    AllHoldConcat(u + c + s + i, t, post);
    AllHoldConcat(u + c + s, i, post);
    AllHoldConcat(u + c, s, post);
    AllHoldConcat(u, c, post);
    assert AllHold(u, post) <==> (f.userId.Some? ==> post.userId == f.userId.value) by { AllHoldAtMostOne(u, post); }
    assert AllHold(c, post) <==> (f.category.Some? ==> post.category == f.category.value) by { AllHoldAtMostOne(c, post); }
    assert AllHold(s, post) <==> (f.slug.Some? ==> post.slug == f.slug.value) by { AllHoldAtMostOne(s, post); }
    assert AllHold(i, post) <==> (f.id.Some? ==> post.id == f.id.value) by { AllHoldAtMostOne(i, post); }
    assert AllHold(t, post) <==> (f.search.Some? ==> Holds(TitleOrContent(f.search.value), post)) by { AllHoldAtMostOne(t, post); }
  }

  lemma AllHoldAtMostOne(cs: seq<Condition>, post: Post)
    requires |cs| <= 1
    ensures AllHold(cs, post) <==> (cs == [] || Holds(cs[0], post))
  {
    if cs != [] {
      assert cs[1..] == [];
    }
  }

  /** The equality conjunct a query parameter contributes. */
  function EqualityIf(field: string, v: Option<string>): seq<Condition> {
    if Truthy(v) then [FieldIs(field, v.value)] else []
  }

  /** How many of the five filter parameters are non-empty. */
  function TruthyFilterParams(p: Params): nat {
    (if Truthy(p.userId) then 1 else 0) + (if Truthy(p.category) then 1 else 0)
    + (if Truthy(p.slug) then 1 else 0) + (if Truthy(p.postId) then 1 else 0)
    + (if Truthy(p.searchTerm) then 1 else 0)
  }

  /**
   * The built filter has one equality conjunct for each non-empty parameter
   * among `userId`, `category`, `slug` and `postId` (as `_id`), carrying the
   * parameter's value, then one `$or` conjunct iff the search term is
   * non-empty; so there are as many conjuncts as non-empty parameters.
   */
  lemma ConjunctsFollowParams(p: Params)
    ensures Conjuncts(BuildFilter(p))
         == EqualityIf("userId", p.userId) + EqualityIf("category", p.category)
          + EqualityIf("slug", p.slug) + EqualityIf("_id", p.postId)
          + (if Truthy(p.searchTerm) then [TitleOrContent(p.searchTerm.value)] else [])
    ensures |Conjuncts(BuildFilter(p))| == TruthyFilterParams(p)
  {
  }

  /**
   * A post matches the built filter iff it satisfies the condition of every
   * non-empty parameter: the conditions are conjoined, the search term's
   * two alternatives disjoined.
   */
  lemma MatchesBuiltFilter(p: Params, post: Post)
    ensures Matches(BuildFilter(p), post) <==>
      (Truthy(p.userId) ==> post.userId == p.userId.value)
      && (Truthy(p.category) ==> post.category == p.category.value)
      && (Truthy(p.slug) ==> post.slug == p.slug.value)
      && (Truthy(p.postId) ==> post.id == p.postId.value)
      && (Truthy(p.searchTerm) ==> MatchesIgnoringCase(post.title, p.searchTerm.value)
                                   || MatchesIgnoringCase(post.content, p.searchTerm.value))
  {
  }

  /** An empty or absent parameter is no condition at all. */
  lemma NoParamsMatchesAll(post: Post)
    ensures Matches(BuildFilter(NoParams), post)
  {
  }

  /** The posts that match, in store order. */
  function Select(store: seq<Post>, f: Filter): (r: seq<Post>)
    ensures |r| <= |store|
    ensures forall i :: 0 <= i < |r| ==> Matches(f, r[i])
    ensures multiset(r) <= multiset(store)
    ensures forall i :: 0 <= i < |store| && Matches(f, store[i]) ==> store[i] in r
  {
    if store == [] then []
    else
      var rest := Select(store[1..], f);
      var r := if Matches(f, store[0]) then [store[0]] + rest else rest;
      SelectStep(store, f, rest, r);
      r
  }

  /** One step of `Select`: keeping or dropping the head preserves its contract. */
  lemma SelectStep(store: seq<Post>, f: Filter, rest: seq<Post>, r: seq<Post>)
    requires store != []
    requires |rest| <= |store| - 1
    requires forall i :: 0 <= i < |rest| ==> Matches(f, rest[i])
    requires multiset(rest) <= multiset(store[1..])
    requires forall i :: 1 <= i < |store| && Matches(f, store[i]) ==> store[i] in rest
    requires r == if Matches(f, store[0]) then [store[0]] + rest else rest
    ensures |r| <= |store|
    ensures forall i :: 0 <= i < |r| ==> Matches(f, r[i])
    ensures multiset(r) <= multiset(store)
    ensures forall i :: 0 <= i < |store| && Matches(f, store[i]) ==> store[i] in r
  {
    assert store == [store[0]] + store[1..];
    if Matches(f, store[0]) {
      forall i | 0 <= i < |r| ensures Matches(f, r[i]) {
        if i > 0 { assert r[i] == rest[i - 1]; }
      }
    }
  }

  /** `a` may come before `b` in a list sorted on `updatedAt` in direction `d`. */
  predicate InOrder(a: Post, b: Post, d: int) {
    if d == 1 then a.updatedAt <= b.updatedAt else a.updatedAt >= b.updatedAt
  }

  predicate SortedBy(s: seq<Post>, d: int) {
    forall i, j :: 0 <= i < j < |s| ==> InOrder(s[i], s[j], d)
  }

  function Insert(x: Post, s: seq<Post>, d: int): (r: seq<Post>)
    ensures |r| == |s| + 1
    ensures multiset(r) == multiset(s) + multiset{x}
  {
    if s == [] then [x]
    else if InOrder(x, s[0], d) then [x] + s
    else
      assert s == [s[0]] + s[1..];
      [s[0]] + Insert(x, s[1..], d)
  }

  lemma {:induction false} InsertMembers(x: Post, s: seq<Post>, d: int)
    ensures forall y :: y in Insert(x, s, d) ==> y == x || y in s
  {
    if s != [] && !InOrder(x, s[0], d) {
      InsertMembers(x, s[1..], d);
      assert forall y :: y in s[1..] ==> y in s;
    }
  }

  lemma {:induction false} InsertSorted(x: Post, s: seq<Post>, d: int)
    requires SortedBy(s, d)
    ensures SortedBy(Insert(x, s, d), d)
  {
    if s != [] && !InOrder(x, s[0], d) {
      var rest := Insert(x, s[1..], d);
      SortedTail(s, d);
      InsertSorted(x, s[1..], d);
      InsertMembers(x, s[1..], d);
      assert forall y :: y in rest ==> InOrder(s[0], y, d) by {
        forall y | y in rest ensures InOrder(s[0], y, d) {
          if y != x {
            var k :| 0 <= k < |s[1..]| && s[1..][k] == y;
          }
        }
      }
      SortedCons(s[0], rest, d);
      assert [s[0]] + rest == Insert(x, s, d);
    }
  }

  /** The tail of a sorted list is sorted and comes after its head. */
  lemma SortedTail(s: seq<Post>, d: int)
    requires s != [] && SortedBy(s, d)
    ensures SortedBy(s[1..], d)
    ensures forall k :: 0 <= k < |s[1..]| ==> InOrder(s[0], s[1..][k], d)
  {
    forall i, j | 0 <= i < j < |s[1..]| ensures InOrder(s[1..][i], s[1..][j], d) {
      assert s[1..][i] == s[i + 1] && s[1..][j] == s[j + 1];
    }
    forall k | 0 <= k < |s[1..]| ensures InOrder(s[0], s[1..][k], d) {
      assert s[1..][k] == s[k + 1];
    }
  }

  /** A head that may precede every element of a sorted list extends it. */
  lemma SortedCons(h: Post, rest: seq<Post>, d: int)
    requires SortedBy(rest, d)
    requires forall y :: y in rest ==> InOrder(h, y, d)
    ensures SortedBy([h] + rest, d)
  {
    var r := [h] + rest;
    forall i, j | 0 <= i < j < |r| ensures InOrder(r[i], r[j], d) {
      assert r[j] == rest[j - 1];
      assert r[j] in rest;
      if i > 0 {
        assert r[i] == rest[i - 1];
      }
    }
  }

  /** The posts ordered on `updatedAt` (insertion sort; equal timestamps keep store order). */
  function SortPosts(s: seq<Post>, d: int): (r: seq<Post>)
    ensures |r| == |s|
    ensures SortedBy(r, d)
    ensures multiset(r) == multiset(s)
  {
    if s == [] then []
    else
      assert s == [s[0]] + s[1..];
      var rest := SortPosts(s[1..], d);
      InsertSorted(s[0], rest, d);
      Insert(s[0], rest, d)
  }

  /** `.skip(k)`: drop the first `k` posts. */
  function Drop(s: seq<Post>, k: nat): (r: seq<Post>)
    ensures |r| == Max(0, |s| - k)
    ensures forall i :: 0 <= i < |r| ==> r[i] == s[k + i]
  {
    if k >= |s| then [] else s[k..]
  }

  /** `.limit(n)`: keep at most `n` posts. */
  function Take(s: seq<Post>, n: nat): (r: seq<Post>)
    ensures |r| == Min(n, |s|)
    ensures r == s[..|r|]
  {
    if n >= |s| then s else s[..n]
  }

  /**
   * The page of posts `find(filter).sort(...).skip(k).limit(n)` returns;
   * `None` for a negative offset or limit, which is the store's own business.
   */
  function Page(store: seq<Post>, q: ListQuery): (r: Option<seq<Post>>)
    ensures r.Some? <==> q.skip >= 0 && q.limit >= 0
    ensures r.Some? ==> |r.value| <= q.limit
  {
    if q.skip < 0 || q.limit < 0 then None
    else Some(Take(Drop(SortPosts(Select(store, q.filter), q.direction), q.skip), q.limit))
  }

  function Min(a: int, b: int): int { if a <= b then a else b }
  function Max(a: int, b: int): int { if a >= b then a else b }

  lemma TakeDropWindow(s: seq<Post>, k: nat, n: nat)
    ensures var w := Take(Drop(s, k), n);
      && |w| == Min(n, Max(0, |s| - k))
      && (|w| > 0 ==> k + |w| <= |s| && w == s[k..k + |w|])
  {
  }

  lemma SortedWindow(s: seq<Post>, d: int, lo: nat, hi: nat)
    requires lo <= hi <= |s| && SortedBy(s, d)
    ensures SortedBy(s[lo..hi], d)
  {
    forall i, j | 0 <= i < j < hi - lo ensures InOrder(s[lo..hi][i], s[lo..hi][j], d) {
      assert s[lo..hi][i] == s[lo + i] && s[lo..hi][j] == s[lo + j];
    }
  }

  lemma WindowMembers(s: seq<Post>, k: nat, n: nat)
    ensures forall y :: y in Take(Drop(s, k), n) ==> y in s
  {
  }

  /** Every selected post matches and comes from the store. */
  lemma SelectMembers(store: seq<Post>, f: Filter)
    ensures forall y :: y in Select(store, f) ==> Matches(f, y) && y in store
  {
    var r := Select(store, f);
    forall y | y in r ensures Matches(f, y) && y in store {
      assert y in multiset(r);
    }
  }

  /** Sorting brings in no new post. */
  lemma SortMembers(s: seq<Post>, d: int)
    ensures forall y :: y in SortPosts(s, d) ==> y in s
  {
    var r := SortPosts(s, d);
    forall y | y in r ensures y in s {
      assert y in multiset(r);
    }
  }

  /**
   * A page holds at most `limit` posts, exactly as many as remain after the
   * offset when fewer do; every one of them matches the filter and comes
   * from the store; and it is a contiguous run of the sorted matches, so it
   * is itself sorted.
   */
  lemma PageBounds(store: seq<Post>, q: ListQuery)
    requires q.skip >= 0 && q.limit >= 0
    ensures Page(store, q).Some?
    ensures var rest := |Select(store, q.filter)| - q.skip;
      |Page(store, q).value| == if rest <= 0 then 0 else if rest <= q.limit then rest else q.limit
    ensures IsWindow(Page(store, q).value, SortPosts(Select(store, q.filter), q.direction), q.skip)
    ensures SortedBy(Page(store, q).value, q.direction)
  {
    var matching := Select(store, q.filter);
    var sorted := SortPosts(matching, q.direction);
    assert Page(store, q) == Some(Take(Drop(sorted, q.skip), q.limit));
    SortedPage(matching, sorted, q.direction, q.skip, q.limit);
  }

  /** Every post on a page matches the filter and comes from the store. */
  lemma PageMembers(store: seq<Post>, q: ListQuery)
    requires q.skip >= 0 && q.limit >= 0
    ensures Page(store, q).Some?
    ensures forall y :: y in Page(store, q).value ==> Matches(q.filter, y) && y in store
  {
    var matching := Select(store, q.filter);
    var sorted := SortPosts(matching, q.direction);
    assert Page(store, q) == Some(Take(Drop(sorted, q.skip), q.limit));
    WindowMembers(sorted, q.skip, q.limit);
    SortMembers(matching, q.direction);
    SelectMembers(store, q.filter);
  }

  /** `w` is empty or the run of `s` that starts at position `k`. */
  predicate IsWindow(w: seq<Post>, s: seq<Post>, k: nat) {
    |w| > 0 ==> k + |w| <= |s| && w == s[k..k + |w|]
  }

  /** The facts about one page, stated over the sorted matches alone. */
  lemma SortedPage(matching: seq<Post>, sorted: seq<Post>, d: int, k: nat, n: nat)
    requires |sorted| == |matching| && SortedBy(sorted, d)
    ensures var w := Take(Drop(sorted, k), n);
      var rest := |matching| - k;
      && |w| == (if rest <= 0 then 0 else if rest <= n then rest else n)
      && IsWindow(w, sorted, k)
      && SortedBy(w, d)
  {
    var w := Take(Drop(sorted, k), n);
    TakeDropWindow(sorted, k, n);
    if |w| > 0 {
      SortedWindow(sorted, d, k, k + |w|);
    }
  }

  // ---------------------------------------------------------------------
  // The response counts

  /** The positions of the posts created on `since` or later. */
  function RecentIndices(store: seq<Post>, since: Calendar.Date): set<int> {
    set i | 0 <= i < |store| && Calendar.NotAfter(since, store[i].createdOn)
  }

  /** Number of posts created on `since` or later: `countDocuments({ createdAt: { $gte: since } })`. */
  function CountSince(store: seq<Post>, since: Calendar.Date): (n: nat)
    ensures n == |RecentIndices(store, since)|
    ensures n <= |store|
    decreases |store|
  {
    if store == [] then
      assert RecentIndices(store, since) == {};
      0
    else
      var last := |store| - 1;
      var init := store[..last];
      var hit := Calendar.NotAfter(since, store[last].createdOn);
      assert RecentIndices(store, since)
          == RecentIndices(init, since) + (if hit then {last} else {});
      CountSince(init, since) + (if hit then 1 else 0)
  }

  /** The JSON body `{ posts, totalPosts, lastMonthPosts }`. */
  datatype ListResult = ListResult(posts: seq<Post>, totalPosts: nat, lastMonthPosts: nat)

  /**
   * The whole of `getposts` over an in-memory store, with today's date as a
   * parameter: the page, the unfiltered count, and the count of posts
   * created on or after the date one month before today.
   */
  function GetPosts(p: Params, store: seq<Post>, today: Calendar.Date): (r: Option<ListResult>)
    requires Calendar.Valid(today)
    ensures r.Some? <==> Page(store, BuildQuery(p)).Some?
    ensures r.Some? ==> r.value.posts == Page(store, BuildQuery(p)).value
    ensures r.Some? ==> r.value.totalPosts == |store|
    ensures r.Some? ==> r.value.lastMonthPosts == CountSince(store, Calendar.OneMonthAgo(today))
    ensures r.Some? ==> r.value.lastMonthPosts <= r.value.totalPosts
  {
    match Page(store, BuildQuery(p))
    case None => None
    case Some(page) =>
      Some(ListResult(page, |store|, CountSince(store, Calendar.OneMonthAgo(today))))
  }

  /** `limit` and `startIndex` bound the size of the returned page. */
  lemma GetPostsPageSize(p: Params, store: seq<Post>, today: Calendar.Date)
    requires Calendar.Valid(today)
    requires GetPosts(p, store, today).Some?
    ensures |GetPosts(p, store, today).value.posts| <= BuildQuery(p).limit
    ensures |GetPosts(p, store, today).value.posts| <= Max(0, |store| - BuildQuery(p).skip)
  {
    PageBounds(store, BuildQuery(p));
  }

  /** The count of posts created today or later never exceeds `lastMonthPosts`. */
  lemma RecentPostsCounted(store: seq<Post>, today: Calendar.Date)
    requires Calendar.Valid(today) && !(0 <= today.year <= 99)
    ensures CountSince(store, today) <= CountSince(store, Calendar.OneMonthAgo(today))
  {
    Calendar.OneMonthAgoIsEarlier(today);
    assert RecentIndices(store, today) <= RecentIndices(store, Calendar.OneMonthAgo(today));
  }
}
