/** Keyset pages of posts: what a page is, the map-backed store that sorts and compacts in
    place, and the SQL-backed one that reads one row too many. */
module Paging {
  import opened Base
  import opened Timestamps
  import opened FeedOrder
  import C = Cursors

  type Table = map<string, Post>

  /** What the database guarantees of every stored post. */
  predicate Storable(p: Post) {
    C.Issuable(p.createdAt, p.id)
  }

  ghost predicate Sound(posts: Table) {
    forall id :: id in posts ==> posts[id].id == id && Storable(posts[id])
  }

  const DEFAULT_PAGE_LIMIT := 20
  const MAX_PAGE_LIMIT := 50

  function Clamped(limit: int): (n: nat)
    ensures 1 <= n <= 50
    ensures 1 <= limit <= 50 ==> n == limit
    ensures limit <= 0 ==> n == 20
    ensures limit > 50 ==> n == 50
  {
    if limit <= 0 then DEFAULT_PAGE_LIMIT else if limit > MAX_PAGE_LIMIT then MAX_PAGE_LIMIT else limit
  }

  datatype Page = Page(items: seq<Post>, nextCursor: string)

  /** Where a request asks to begin. */
  datatype Start = FromTop | After(position: Position) | BadStart | ForeignStart

  function StartOf(codec: C.Codec, cursor: string): Start {
    if cursor == "" then FromTop
    else
      match codec.decode(cursor)
      case Position(createdAt, id) => After(At(createdAt, id))
      case InvalidCursor => BadStart
      case Foreign => ForeignStart
  }

  datatype Reply = Served(page: Page) | InvalidCursor | ForeignCursor

  predicate Wanted(p: Post, author: Option<string>) {
    author.Some? ==> p.author == author.value
  }

  predicate Reaches(p: Post, start: Start) {
    start.After? ==> Below(Of(p), start.position)
  }

  /** The posts a request selects, before it is limited. */
  ghost function Selected(posts: Table, author: Option<string>, start: Start): set<Post> {
    set id | id in posts && Wanted(posts[id], author) && Reaches(posts[id], start) :: posts[id]
  }

  function CursorAfter(codec: C.Codec, items: seq<Post>): string
    requires items != []
  {
    codec.encode(items[|items| - 1].createdAt, items[|items| - 1].id)
  }

  /** `page` is the top `n` of `sel`, with a cursor naming its last post if it is not all. */
  ghost predicate IsPage(codec: C.Codec, page: Page, sel: set<Post>, n: nat) {
    && TopOf(page.items, sel, n)
    && if forall p :: p in sel ==> p in page.items then page.nextCursor == ""
       else page.items != [] && page.nextCursor == CursorAfter(codec, page.items)
  }

  lemma SelectedIsSound(posts: Table, author: Option<string>, start: Start)
    requires Sound(posts)
    ensures DistinctIds(Selected(posts, author, start))
    ensures forall p :: p in Selected(posts, author, start) ==> Storable(p)
  {
  }

  /** What both stores promise for a request. */
  ghost predicate IsReply(
      codec: C.Codec, r: Reply, posts: Table, author: Option<string>, cursor: string, limit: int)
  {
    var start := StartOf(codec, cursor);
    if start.BadStart? then r == InvalidCursor
    else if start.ForeignStart? then r == ForeignCursor
    else r.Served? && IsPage(codec, r.page, Selected(posts, author, start), Clamped(limit))
  }

  // ----- What a reply means to the client -----

  /** What a request asks for: the stored posts, of one author if it names one, that come after
      the position it starts from. */
  ghost predicate AskedFor(p: Post, posts: Table, author: Option<string>, after: Option<Position>) {
    && p.id in posts && posts[p.id] == p
    && (author.Some? ==> p.author == author.value)
    && (after.Some? ==>
          || Earlier(p.createdAt, after.value.createdAt)
          || (p.createdAt == after.value.createdAt && Larger(after.value.id, p.id)))
  }

  /** The page holds the first of what was asked for, newest first, at most as many as the limit
      allows (20 when it is not given, never more than 50). Something is left out only behind a
      full page, and only then is there a cursor: the one for the last post shown. */
  ghost predicate Shows(
      codec: C.Codec, page: Page, posts: Table, author: Option<string>, after: Option<Position>, limit: int)
  {
    && (forall p :: p in page.items ==> AskedFor(p, posts, author, after))
    && (forall i, j :: 0 <= i < j < |page.items| ==> Precedes(page.items[i], page.items[j]))
    && (forall p, q :: AskedFor(p, posts, author, after) && p !in page.items && q in page.items ==> Precedes(q, p))
    && |page.items| <= (if limit <= 0 then 20 else if limit > 50 then 50 else limit)
    && if exists p :: AskedFor(p, posts, author, after) && p !in page.items
       then
         && |page.items| == (if limit <= 0 then 20 else if limit > 50 then 50 else limit)
         && var last := page.items[|page.items| - 1];
            page.nextCursor == codec.encode(last.createdAt, last.id)
       else page.nextCursor == ""
  }

  lemma SelectedIsAskedFor(posts: Table, author: Option<string>, start: Start, after: Option<Position>, p: Post)
    requires Sound(posts) && (start == FromTop || start.After?)
    requires after == if start.After? then Some(start.position) else None
    requires start.After? ==> Civil(start.position.createdAt)
    ensures p in Selected(posts, author, start) <==> AskedFor(p, posts, author, after)
  {
    if start.After? && p.id in posts && posts[p.id] == p {
      InstantsAreInOrder(p.createdAt, start.position.createdAt);
      LessIsByFirstDifference(p.id, start.position.id);
    }
  }

  lemma PageShows(codec: C.Codec, page: Page, posts: Table, author: Option<string>, start: Start, limit: int)
    requires Sound(posts) && (start == FromTop || start.After?)
    requires start.After? ==> Civil(start.position.createdAt)
    requires IsPage(codec, page, Selected(posts, author, start), Clamped(limit))
    ensures Shows(codec, page, posts, author, if start.After? then Some(start.position) else None, limit)
  {
    var sel := Selected(posts, author, start);
    var after := if start.After? then Some(start.position) else None;
    forall p ensures p in sel <==> AskedFor(p, posts, author, after) {
      SelectedIsAskedFor(posts, author, start, after, p);
    }
    TopMeans(page.items, sel, Clamped(limit));
  }

  /** A first page starts with a post that no other one asked for is newer than. */
  lemma NewestComesFirst(codec: C.Codec, page: Page, posts: Table, author: Option<string>, limit: int, p: Post)
    requires Shows(codec, page, posts, author, None, limit) && AskedFor(p, posts, author, None)
    requires Sound(posts)
    ensures page.items != [] && !Earlier(page.items[0].createdAt, p.createdAt)
  {
    if p in page.items {
      var i :| 0 <= i < |page.items| && page.items[i] == p;
    } else {
      assert page.items[0] in page.items;
    }
  }

  /** What either store answers: a cursor that is not one is refused, and any other request gets
      its page. */
  ghost predicate Answers(r: Reply, posts: Table, author: Option<string>, cursor: string, limit: int) {
    if cursor == "" then r.Served? && Shows(C.STANDARD, r.page, posts, author, None, limit)
    else
      match C.DecodeCursor(cursor)
      case Position(t, id) => r.Served? && Shows(C.STANDARD, r.page, posts, author, Some(At(t, id)), limit)
      case InvalidCursor => r == InvalidCursor
      case Foreign => r == ForeignCursor
  }

  lemma ReplyAnswers(r: Reply, posts: Table, author: Option<string>, cursor: string, limit: int)
    requires Sound(posts) && IsReply(C.STANDARD, r, posts, author, cursor, limit)
    ensures Answers(r, posts, author, cursor, limit)
  {
    var start := StartOf(C.STANDARD, cursor);
    if start.After? {
      C.DecodedIsSpelled(cursor);
    }
    if r.Served? {
      PageShows(C.STANDARD, r.page, posts, author, start, limit);
    }
  }

  /** The two stores, asked the same of the same posts, reply the same. */
  lemma StoresAgree(
      codec: C.Codec, r: Reply, s: Reply, posts: Table, author: Option<string>, cursor: string, limit: int)
    requires Sound(posts)
    requires IsReply(codec, r, posts, author, cursor, limit) && IsReply(codec, s, posts, author, cursor, limit)
    ensures r == s
  {
    var start := StartOf(codec, cursor);
    SelectedIsSound(posts, author, start);
    if r.Served? && s.Served? {
      TopIsDetermined(r.page.items, s.page.items, Selected(posts, author, start), Clamped(limit));
    }
  }

  // ----- In-place steps of the map-backed store -----

  ghost predicate DistinctSeq(s: seq<Post>) {
    forall i, j :: 0 <= i < j < |s| ==> s[i].id != s[j].id
  }

  function Swapped(s: seq<Post>, j: nat): (t: seq<Post>)
    requires 0 < j < |s|
    ensures |t| == |s|
  {
    s[j - 1 := s[j]][j := s[j - 1]]
  }

  lemma SwappingPermutes(s: seq<Post>, j: nat)
    requires 0 < j < |s|
    ensures multiset(Swapped(s, j)) == multiset(s)
  {
  }

  /** `s[..i + 1]` is in order except that the post at `j` may belong further up. */
  ghost predicate SinkingAt(s: seq<Post>, i: nat, j: nat) {
    && j <= i < |s|
    && (forall p, q :: 0 <= p < q <= i && p != j && q != j ==> Below(Of(s[q]), Of(s[p])))
    && (forall q :: j < q <= i ==> Below(Of(s[q]), Of(s[j])))
  }

  lemma SwappingSinks(s: seq<Post>, i: nat, j: nat)
    requires SinkingAt(s, i, j) && 0 < j && Below(Of(s[j - 1]), Of(s[j]))
    ensures SinkingAt(Swapped(s, j), i, j - 1)
  {
  }

  lemma SwappingKeepsDistinct(s: seq<Post>, j: nat)
    requires 0 < j < |s| && DistinctSeq(s)
    ensures DistinctSeq(Swapped(s, j))
  {
    var t := Swapped(s, j);
    forall p, q | 0 <= p < q < |t| ensures t[p].id != t[q].id {
      var p' := if p == j then j - 1 else if p == j - 1 then j else p;
      var q' := if q == j then j - 1 else if q == j - 1 then j else q;
      assert t[p] == s[p'] && t[q] == s[q'] && p' != q';
    }
  }

  lemma SinkingStarts(s: seq<Post>, i: nat)
    requires i < |s| && Descending(s[..i])
    ensures SinkingAt(s, i, i)
  {
    forall p, q | 0 <= p < q < i ensures Below(Of(s[q]), Of(s[p])) {
      assert s[q] == s[..i][q] && s[p] == s[..i][p];
    }
  }

  lemma SinkingEnds(s: seq<Post>, i: nat, j: nat)
    requires SinkingAt(s, i, j) && DistinctSeq(s) && (j == 0 || !Below(Of(s[j - 1]), Of(s[j])))
    ensures Descending(s[..i + 1])
  {
    if j > 0 {
      BelowIsTotal(Of(s[j]), Of(s[j - 1]));
    }
    forall p, q | 0 <= p < q <= i ensures Below(Of(s[q]), Of(s[p])) {
      if q == j && p < j - 1 {
        BelowIsTransitive(Of(s[j]), Of(s[j - 1]), Of(s[p]));
      }
    }
  }

  lemma PermutationOfDistinct(s: seq<Post>, t: seq<Post>)
    requires multiset(s) == multiset(t) && DistinctMembers(s)
    ensures DistinctMembers(t)
    ensures forall p :: p in s <==> p in t
  {
    forall p ensures p in s <==> p in t {
      assert p in s <==> p in multiset(s);
      assert p in t <==> p in multiset(t);
    }
  }

  /** No two different posts share an identifier. */
  ghost predicate DistinctMembers(s: seq<Post>) {
    forall p, q :: p in s && q in s && p.id == q.id ==> p == q
  }

  /** Newest first, larger identifiers first among equally new ones. */
  ghost predicate InOrder(s: seq<Post>) {
    (forall p :: p in s ==> Civil(p.createdAt)) ==> forall i, j :: 0 <= i < j < |s| ==> Precedes(s[i], s[j])
  }

  lemma ListedInOrder(s: seq<Post>)
    requires Descending(s)
    ensures InOrder(s)
  {
    if forall p :: p in s ==> Civil(p.createdAt) {
      DescendingMeans(s);
    }
  }

  /** sort.Slice by the feed order: an insertion sort stands for the library's. */
  method SortDescending(a: array<Post>, n: nat)
    requires n <= a.Length && DistinctSeq(a[..n])
    modifies a
    ensures Descending(a[..n])
    ensures multiset(a[..n]) == multiset(old(a[..n]))
    ensures InOrder(a[..n])
  {
    var i := 0;
    while i < n
      invariant i <= n
      invariant Descending(a[..i])
      invariant multiset(a[..n]) == multiset(old(a[..n])) && DistinctSeq(a[..n])
    {
      SinkInto(a, n, i);
      i := i + 1;
    }
    ListedInOrder(a[..n]);
  }

  /** Part-way: a rearrangement of `was` whose post `j` still sinks towards the top. */
  ghost predicate Sinking(s: seq<Post>, was: seq<Post>, i: nat, j: nat) {
    i < |s| && j <= i && SinkingAt(s, i, j) && DistinctSeq(s) && multiset(s) == multiset(was)
  }

  lemma SinkingOneUp(s: seq<Post>, was: seq<Post>, i: nat, j: nat)
    requires Sinking(s, was, i, j) && 0 < j && Below(Of(s[j - 1]), Of(s[j]))
    ensures Sinking(Swapped(s, j), was, i, j - 1)
  {
    SwappingSinks(s, i, j);
    SwappingPermutes(s, j);
    SwappingKeepsDistinct(s, j);
  }

  method SwapUp(a: array<Post>, n: nat, ghost was: seq<Post>, i: nat, j: nat)
    requires 0 < j <= i < n <= a.Length && Sinking(a[..n], was, i, j) && Below(Of(a[j - 1]), Of(a[j]))
    modifies a
    ensures Sinking(a[..n], was, i, j - 1)
  {
    SinkingOneUp(a[..n], was, i, j);
    a[j - 1], a[j] := a[j], a[j - 1];
    assert a[..n] == Swapped(old(a[..n]), j);
  }

  /** Moves the post at index `i` up to its place among the `i` before it. */
  method SinkInto(a: array<Post>, n: nat, i: nat)
    requires i < n <= a.Length && Descending(a[..i]) && DistinctSeq(a[..n])
    modifies a
    ensures Descending(a[..i + 1])
    ensures multiset(a[..n]) == multiset(old(a[..n])) && DistinctSeq(a[..n])
  {
    var j := i;
    ghost var was := a[..n];
    assert was[..i] == a[..i];
    SinkingStarts(was, i);
    while j > 0 && Below(Of(a[j - 1]), Of(a[j]))
      invariant 0 <= j <= i && Sinking(a[..n], was, i, j)
    {
      SwapUp(a, n, was, i, j);
      j := j - 1;
    }
    ghost var s := a[..n];
    assert j > 0 ==> s[j - 1] == a[j - 1] && s[j] == a[j];
    SinkingEnds(s, i, j);
    assert s[..i + 1] == a[..i + 1];
  }

  /** The posts below a position, in the order given. */
  function Kept(s: seq<Post>, position: Position): seq<Post>
    decreases |s|
  {
    if s == [] then []
    else
      var last := s[|s| - 1];
      Kept(s[..|s| - 1], position) + if Below(Of(last), position) then [last] else []
  }

  /** Compacts the first `n` posts onto themselves, keeping those below the position. */
  method KeepBelow(a: array<Post>, n: nat, position: Position) returns (w: nat)
    requires n <= a.Length
    modifies a
    ensures w <= n && a[..w] == Kept(old(a[..n]), position)
  {
    w := 0;
    ghost var was := a[..n];
    var i := 0;
    while i < n
      invariant w <= i <= n
      invariant a[..w] == Kept(was[..i], position)
      invariant forall k :: i <= k < n ==> a[k] == was[k]
    {
      var p := a[i];
      assert was[..i + 1][..i] == was[..i] && was[..i + 1][i] == p;
      if Below(Of(p), position) {
        a[w] := p;
        w := w + 1;
        assert a[..w] == a[..w - 1] + [p];
      }
      i := i + 1;
    }
    assert was[..n] == was;
  }

  lemma {:induction false} KeptIsASelection(s: seq<Post>, position: Position)
    requires Descending(s)
    ensures Descending(Kept(s, position))
    ensures forall p :: p in Kept(s, position) <==> p in s && Below(Of(p), position)
    decreases |s|
  {
    if s != [] {
      var front, last := s[..|s| - 1], s[|s| - 1];
      KeptIsASelection(front, position);
      assert s == front + [last];
      var k := Kept(front, position);
      forall j | 0 <= j < |k| && Below(Of(last), position) ensures Below(Of(last), Of(k[j])) {
        assert k[j] in front;
        var i :| 0 <= i < |front| && front[i] == k[j];
        assert s[i] == front[i];
      }
    }
  }

  /** A complete listing of a selection, cut to the limit, is its page. */
  lemma TruncatedIsAPage(codec: C.Codec, all: seq<Post>, sel: set<Post>, k: nat, n: nat)
    requires 1 <= n < k && TopOf(all, sel, k)
    ensures IsPage(codec, if |all| > n then Page(all[..n], CursorAfter(codec, all[..n])) else Page(all, ""), sel, n)
  {
    TopOfTop(all, sel, k, n);
    TopIsAllIff(all, sel, k, n);
    if |all| > n {
      assert all[n - 1] in all;
    }
  }

  datatype CreateResult = Created(post: Post) | NoSuchAuthor
  datatype DeleteResult = Deleted | NotFound | Forbidden

  /** The map-backed store. */
  class PostStore {
    var users: set<string>
    var posts: Table

    constructor ()
      ensures users == {} && posts == map[]
    {
      users := {};
      posts := map[];
    }

    method Create(author: string, caption: string, imageKey: Option<string>, id: string, now: Time)
      returns (r: CreateResult)
      modifies this`posts
      ensures author !in users ==> r == NoSuchAuthor && posts == old(posts)
      ensures author in users ==>
                var post := Post(id, author, now, caption, imageKey);
                r == Created(post) && posts == old(posts)[id := post]
    {
      if author !in users {
        return NoSuchAuthor;
      }
      var post := Post(id, author, now, caption, imageKey);
      posts := posts[id := post];
      r := Created(post);
    }

    method Delete(id: string, requester: string) returns (r: DeleteResult)
      modifies this`posts
      ensures r == NotFound <==> id !in old(posts)
      ensures r == Deleted <==> id in old(posts) && old(posts)[id].author == requester
      ensures posts == if r == Deleted then old(posts) - {id} else old(posts)
    {
      if id !in posts {
        return NotFound;
      }
      if posts[id].author != requester {
        return Forbidden;
      }
      posts := posts - {id};
      r := Deleted;
    }

    /** Collects the wanted posts in whatever order the map gives them. */
    method Gather(author: Option<string>) returns (matched: array<Post>, n: nat)
      requires Sound(posts)
      ensures fresh(matched) && n <= matched.Length
      ensures DistinctSeq(matched[..n])
      ensures forall p :: p in matched[..n] <==> p in Selected(posts, author, FromTop)
    {
      matched := new Post[|posts|];
      n := 0;
      var todo := posts.Keys;
      while todo != {}
        invariant todo <= posts.Keys && n + |todo| <= |posts| == matched.Length
        invariant DistinctSeq(matched[..n])
        invariant forall i :: 0 <= i < n ==>
                    && matched[i].id in posts && matched[i].id !in todo
                    && posts[matched[i].id] == matched[i] && Wanted(matched[i], author)
        invariant forall id :: id in posts && id !in todo && Wanted(posts[id], author) ==> posts[id] in matched[..n]
        decreases |todo|
      {
        var id :| id in todo;
        ghost var before := matched[..n];
        if Wanted(posts[id], author) {
          matched[n] := posts[id];
          n := n + 1;
          assert matched[..n] == before + [posts[id]];
        }
        todo := todo - {id};
      }
    }

    /** One page: collect, sort, drop what is not below the cursor, cut to the limit. */
    method ReadPage(author: Option<string>, cursor: string, limit: int) returns (r: Reply)
      requires Sound(posts)
      ensures IsReply(C.STANDARD, r, posts, author, cursor, limit)
      ensures Answers(r, posts, author, cursor, limit)
    {
      var start := StartOf(C.STANDARD, cursor);
      if start.BadStart? {
        return InvalidCursor;
      }
      if start.ForeignStart? {
        return ForeignCursor;
      }
      var matched, n := Gather(author);
      ghost var unsorted := matched[..n];
      SelectedIsSound(posts, author, FromTop);
      SortDescending(matched, n);
      ghost var sorted := matched[..n];
      PermutationOfDistinct(unsorted, sorted);
      if start.After? {
        n := KeepBelow(matched, n, start.position);
        KeptIsASelection(sorted, start.position);
      }
      var all := matched[..n];
      var size := Clamped(limit);
      ghost var sel := Selected(posts, author, start);
      SelectedIsSound(posts, author, start);
      assert forall p :: p in all <==> p in sel;
      assert TopOf(all, sel, |all| + size + 1);
      TruncatedIsAPage(C.STANDARD, all, sel, |all| + size + 1, size);
      if |all| > size {
        r := Served(Page(all[..size], CursorAfter(C.STANDARD, all[..size])));
      } else {
        r := Served(Page(all, ""));
      }
      ReplyAnswers(r, posts, author, cursor, limit);
    }
  }

  // ----- The SQL-backed store -----

  /** What the query answers: WHERE selects, ORDER BY lists, LIMIT cuts. */
  ghost predicate QueryAnswers(rows: seq<Post>, posts: Table, author: Option<string>, start: Start, limit: nat) {
    TopOf(rows, Selected(posts, author, start), limit)
  }

  /** The page made of the rows that the query answered for one row more than asked. */
  method PageFromRows(rows: seq<Post>, ghost posts: Table, author: Option<string>, cursor: string, limit: int)
    returns (r: Reply)
    requires Sound(posts)
    requires var start := StartOf(C.STANDARD, cursor);
             start.FromTop? || start.After? ==> QueryAnswers(rows, posts, author, start, Clamped(limit) + 1)
    ensures IsReply(C.STANDARD, r, posts, author, cursor, limit)
    ensures Answers(r, posts, author, cursor, limit)
  {
    var start := StartOf(C.STANDARD, cursor);
    if start.BadStart? {
      return InvalidCursor;
    }
    if start.ForeignStart? {
      return ForeignCursor;
    }
    var size := Clamped(limit);
    var items: seq<Post> := [];
    var next := 0;
    while next < |rows|
      invariant next <= |rows| && items == rows[..next]
    {
      items := items + [rows[next]];
      next := next + 1;
    }
    assert items == rows;
    SelectedIsSound(posts, author, start);
    TruncatedIsAPage(C.STANDARD, items, Selected(posts, author, start), size + 1, size);
    if |items| > size {
      r := Served(Page(items[..size], CursorAfter(C.STANDARD, items[..size])));
    } else {
      r := Served(Page(items, ""));
    }
    ReplyAnswers(r, posts, author, cursor, limit);
  }
}
