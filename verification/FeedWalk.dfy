/** A client walking the feed: it passes each page's cursor back to get the next page, while
    posts are created and deleted between its requests. */
module FeedWalk {
  import opened Base
  import opened Timestamps
  import opened FeedOrder
  import opened Paging
  import C = Cursors

  /** One request of the walk: the posts as they were, the limit asked for, and the page. */
  datatype Fetch = Fetch(posts: Table, limit: int, page: Page)

  function CursorOf(fs: seq<Fetch>): string {
    if fs == [] then "" else fs[|fs| - 1].page.nextCursor
  }

  function Front(fs: seq<Fetch>): seq<Fetch>
    requires fs != []
  {
    fs[..|fs| - 1]
  }

  function Last(fs: seq<Fetch>): Fetch
    requires fs != []
  {
    fs[|fs| - 1]
  }

  /** Every request passed its predecessor's cursor, and was served. */
  ghost predicate IsWalk(codec: C.Codec, fs: seq<Fetch>, author: Option<string>)
    decreases |fs|
  {
    fs != [] ==>
      && IsWalk(codec, Front(fs), author)
      && (Front(fs) != [] ==> CursorOf(Front(fs)) != "")
      && Sound(Last(fs).posts)
      && IsReply(codec, Served(Last(fs).page), Last(fs).posts, author, CursorOf(Front(fs)), Last(fs).limit)
  }

  /** Everything the client has been shown. */
  function Shown(fs: seq<Fetch>): seq<Post>
    decreases |fs|
  {
    if fs == [] then [] else Shown(Front(fs)) + Last(fs).page.items
  }

  // ----- The walk without its cursors -----

  /** Where the request after `fs` begins: below the last post of the last page. */
  function Next(fs: seq<Fetch>): Start {
    if fs == [] || Last(fs).page.items == [] then FromTop
    else After(Of(Last(fs).page.items[|Last(fs).page.items| - 1]))
  }

  /** What the last request selected from. */
  ghost function Offered(fs: seq<Fetch>, author: Option<string>): set<Post>
    requires fs != []
  {
    Selected(Last(fs).posts, author, Next(Front(fs)))
  }

  predicate More(fs: seq<Fetch>) {
    fs == [] || CursorOf(fs) != ""
  }

  /** The top of what is offered, and more to come unless that was all. */
  ghost predicate LegOf(page: Page, sel: set<Post>, n: nat) {
    && DistinctIds(sel)
    && TopOf(page.items, sel, n)
    && (page.nextCursor != "" ==> page.items != [])
    && (page.nextCursor == "" <==> forall p :: p in sel ==> p in page.items)
  }

  ghost predicate IsLeg(fs: seq<Fetch>, author: Option<string>)
    requires fs != []
  {
    LegOf(Last(fs).page, Offered(fs, author), Clamped(Last(fs).limit))
  }

  ghost predicate IsPath(fs: seq<Fetch>, author: Option<string>)
    decreases |fs|
  {
    fs != [] ==> IsPath(Front(fs), author) && More(Front(fs)) && IsLeg(fs, author)
  }

  lemma CursorNamesLast(codec: C.Codec, items: seq<Post>)
    requires C.Faithful(codec) && items != [] && Storable(items[|items| - 1])
    ensures CursorAfter(codec, items) != ""
    ensures StartOf(codec, CursorAfter(codec, items)) == After(Of(items[|items| - 1]))
  {
  }

  /** A cursor, if there is one, decodes to the last post of its page. */
  predicate NamesLast(codec: C.Codec, page: Page) {
    page.nextCursor != "" ==>
      page.items != [] && StartOf(codec, page.nextCursor) == After(Of(page.items[|page.items| - 1]))
  }

  lemma PageIsALeg(codec: C.Codec, page: Page, sel: set<Post>, n: nat)
    requires C.Faithful(codec) && DistinctIds(sel) && (forall p :: p in sel ==> Storable(p))
    requires IsPage(codec, page, sel, n)
    ensures LegOf(page, sel, n) && NamesLast(codec, page)
  {
    if !forall p :: p in sel ==> p in page.items {
      assert page.items[|page.items| - 1] in page.items;
      CursorNamesLast(codec, page.items);
    }
  }

  lemma ServedIsALeg(
      codec: C.Codec, page: Page, posts: Table, author: Option<string>, cursor: string, limit: int, start: Start)
    requires C.Faithful(codec) && Sound(posts) && start == StartOf(codec, cursor)
    requires IsReply(codec, Served(page), posts, author, cursor, limit)
    ensures LegOf(page, Selected(posts, author, start), Clamped(limit)) && NamesLast(codec, page)
  {
    SelectedIsSound(posts, author, start);
    PageIsALeg(codec, page, Selected(posts, author, start), Clamped(limit));
  }

  /** Cursors decode to the posts they were issued for, so a walk is such a path. */
  lemma {:induction false} WalkIsAPath(codec: C.Codec, fs: seq<Fetch>, author: Option<string>)
    requires C.Faithful(codec) && IsWalk(codec, fs, author)
    ensures IsPath(fs, author)
    ensures More(fs) ==> StartOf(codec, CursorOf(fs)) == Next(fs)
    decreases |fs|
  {
    if fs != [] {
      WalkIsAPath(codec, Front(fs), author);
      ServedIsALeg(
        codec, Last(fs).page, Last(fs).posts, author, CursorOf(Front(fs)), Last(fs).limit, Next(Front(fs)));
    }
  }

  // ----- Order -----

  lemma LegWasStored(fs: seq<Fetch>, author: Option<string>, p: Post)
    requires fs != [] && Sound(Last(fs).posts) && IsLeg(fs, author) && p in Last(fs).page.items
    ensures p.id in Last(fs).posts && Last(fs).posts[p.id] == p && (author.Some? ==> p.author == author.value)
  {
    assert p in Offered(fs, author);
  }

  /** What a walk shows was in the store at one of its requests, and is the author's if the walk
      is over one author's posts. */
  lemma {:induction false} ShownWasStored(codec: C.Codec, fs: seq<Fetch>, author: Option<string>, p: Post)
    returns (i: nat)
    requires C.Faithful(codec) && IsWalk(codec, fs, author) && p in Shown(fs)
    ensures i < |fs| && Sound(fs[i].posts) && p.id in fs[i].posts && fs[i].posts[p.id] == p
    ensures author.Some? ==> p.author == author.value
    decreases |fs|
  {
    if p in Last(fs).page.items {
      WalkIsAPath(codec, fs, author);
      assert IsLeg(fs, author);
      LegWasStored(fs, author, p);
      i := |fs| - 1;
    } else {
      i := ShownWasStored(codec, Front(fs), author, p);
    }
  }

  lemma {:induction false} PathDescends(fs: seq<Fetch>, author: Option<string>)
    requires IsPath(fs, author)
    ensures Descending(Shown(fs))
    decreases |fs|
  {
    if fs != [] {
      var front, items := Front(fs), Last(fs).page.items;
      PathDescends(front, author);
      forall j | 0 <= j < |items| && front != [] ensures Below(Of(items[j]), Next(front).position) {
        assert items[j] in items;
      }
      AppendBelow(Shown(front), items);
    }
  }

  /** Whatever is created or deleted between the requests, a walk lists posts in strictly
      descending order across all its pages: newest first, larger identifiers first among
      equally new ones. */
  lemma WalkDescends(codec: C.Codec, fs: seq<Fetch>, author: Option<string>)
    requires C.Faithful(codec) && IsWalk(codec, fs, author)
    ensures Descending(Shown(fs))
    ensures forall i, j :: 0 <= i < j < |Shown(fs)| ==> Precedes(Shown(fs)[i], Shown(fs)[j])
  {
    WalkIsAPath(codec, fs, author);
    PathDescends(fs, author);
    forall p | p in Shown(fs) ensures Civil(p.createdAt) {
      var i := ShownWasStored(codec, fs, author, p);
    }
    DescendingMeans(Shown(fs));
  }

  /** A walk shows nothing twice. */
  lemma WalkNeverRepeats(codec: C.Codec, fs: seq<Fetch>, author: Option<string>, i: nat, j: nat)
    requires C.Faithful(codec) && IsWalk(codec, fs, author) && i < |Shown(fs)| && j < |Shown(fs)|
    requires Of(Shown(fs)[i]) == Of(Shown(fs)[j])
    ensures i == j
  {
    WalkDescends(codec, fs, author);
    BelowIsIrreflexive(Of(Shown(fs)[i]));
  }

  // ----- Completeness -----

  /** Post `p` was in the store at every request of the walk. */
  ghost predicate PresentThroughout(fs: seq<Fetch>, p: Post) {
    forall i :: 0 <= i < |fs| ==> p.id in fs[i].posts && fs[i].posts[p.id] == p
  }

  /** A wanted post that stayed in the store has been shown, or lies where the next request
      begins. */
  lemma {:induction false} NothingIsSkipped(fs: seq<Fetch>, author: Option<string>, p: Post)
    requires IsPath(fs, author) && PresentThroughout(fs, p) && Wanted(p, author)
    ensures p in Shown(fs) || (More(fs) && Reaches(p, Next(fs)))
    decreases |fs|
  {
    if fs != [] {
      NothingIsSkipped(Front(fs), author, p);
    }
  }

  /** A walk that reaches an empty cursor has shown, exactly once, every wanted post that was
      in the store at every request. */
  lemma CompleteWalkShowsAll(codec: C.Codec, fs: seq<Fetch>, author: Option<string>, p: Post)
    requires C.Faithful(codec) && IsWalk(codec, fs, author) && fs != [] && CursorOf(fs) == ""
    requires PresentThroughout(fs, p) && Wanted(p, author)
    ensures p in Shown(fs)
    ensures forall i, j :: 0 <= i < |Shown(fs)| && 0 <= j < |Shown(fs)| && Shown(fs)[i] == p == Shown(fs)[j] ==> i == j
  {
    WalkIsAPath(codec, fs, author);
    NothingIsSkipped(fs, author, p);
    PathDescends(fs, author);
    BelowIsIrreflexive(Of(p));
  }

  // ----- A walk over posts that do not change -----

  ghost predicate Still(fs: seq<Fetch>, posts: Table, limit: int) {
    forall i :: 0 <= i < |fs| ==> fs[i].posts == posts && fs[i].limit == limit
  }

  /** What the next request would select; nothing once the walk is over. */
  ghost function Remaining(fs: seq<Fetch>, posts: Table, author: Option<string>): set<Post> {
    if More(fs) then Selected(posts, author, Next(fs)) else {}
  }

  ghost function Members(s: seq<Post>): set<Post> {
    set p | p in s
  }

  lemma LastIsNew(s: seq<Post>)
    requires Descending(s) && s != []
    ensures s[|s| - 1] !in s[..|s| - 1]
  {
    var front, last := s[..|s| - 1], s[|s| - 1];
    if last in front {
      var i :| 0 <= i < |front| && front[i] == last;
      DescendingHasNoRepeats(s, i, |s| - 1);
    }
  }

  lemma {:induction false} CardinalityOfDescending(s: seq<Post>)
    requires Descending(s)
    ensures |Members(s)| == |s|
    decreases |s|
  {
    if s != [] {
      var front, last := s[..|s| - 1], s[|s| - 1];
      CardinalityOfDescending(front);
      LastIsNew(s);
      assert Members(s) == Members(front) + {last};
    }
  }

  lemma RemainingIsTheRest(fs: seq<Fetch>, author: Option<string>, posts: Table, p: Post)
    requires fs != [] && IsLeg(fs, author) && Last(fs).posts == posts && More(fs)
    ensures p in Remaining(fs, posts, author) <==> p in Offered(fs, author) && p !in Last(fs).page.items
  {
    var items := Last(fs).page.items;
    var last := items[|items| - 1];
    assert last in items;
    if p in items {
      var i :| 0 <= i < |items| && items[i] == p;
      BelowIsTotal(Of(p), Of(last));
      BelowIsIrreflexive(Of(p));
    }
    if p in Remaining(fs, posts, author) && Next(Front(fs)).After? {
      BelowIsTransitive(Of(p), Of(last), Next(Front(fs)).position);
    }
  }

  /** One request moves its page from the remaining posts to the shown ones. */
  lemma RequestsConsume(fs: seq<Fetch>, author: Option<string>, posts: Table)
    requires fs != [] && IsLeg(fs, author) && Last(fs).posts == posts
    ensures Offered(fs, author) == Members(Last(fs).page.items) + Remaining(fs, posts, author)
    ensures Members(Last(fs).page.items) !! Remaining(fs, posts, author)
  {
    if More(fs) {
      forall p ensures p in Remaining(fs, posts, author) <==> p in Offered(fs, author) && p !in Last(fs).page.items {
        RemainingIsTheRest(fs, author, posts, p);
      }
    }
  }

  /** A request takes `items` out of what remained: a whole page of it, or all of it. */
  ghost predicate Takes(before: set<Post>, items: seq<Post>, after: set<Post>, size: nat, more: bool) {
    && before == Members(items) + after
    && |before| == |items| + |after|
    && |items| <= size
    && (if more then |items| == size && after != {} else after == {})
  }

  lemma OneRequest(fs: seq<Fetch>, author: Option<string>, posts: Table, size: nat)
    requires fs != [] && IsLeg(fs, author) && Last(fs).posts == posts && Clamped(Last(fs).limit) == size
    requires More(Front(fs))
    ensures Takes(Remaining(Front(fs), posts, author), Last(fs).page.items, Remaining(fs, posts, author),
                  size, More(fs))
  {
    var items := Last(fs).page.items;
    RequestsConsume(fs, author, posts);
    CardinalityOfDescending(items);
    assert Offered(fs, author) == Remaining(Front(fs), posts, author);
    if More(fs) {
      var p :| p in Offered(fs, author) && p !in items;
    }
  }

  /** The account of a walk so far: `shown` and the remaining posts make up the wanted ones,
      and while posts remain every page has been full. */
  ghost predicate Balanced(
      wanted: set<Post>, shown: seq<Post>, remaining: set<Post>, pages: nat, size: nat, more: bool)
  {
    && wanted == Members(shown) + remaining
    && |shown| + |remaining| == |wanted|
    && (if more then |shown| == pages * size && (pages > 0 ==> remaining != {}) else remaining == {})
  }

  lemma BalanceMoves(wanted: set<Post>, shown: seq<Post>, before: set<Post>, pages: nat, size: nat,
                     items: seq<Post>, after: set<Post>, more: bool)
    requires Balanced(wanted, shown, before, pages, size, true) && Takes(before, items, after, size, more)
    ensures Balanced(wanted, shown + items, after, pages + 1, size, more)
  {
  }

  /** The account of a whole walk over posts that do not change. */
  ghost predicate PathBalanced(fs: seq<Fetch>, author: Option<string>, posts: Table, size: nat) {
    Balanced(Selected(posts, author, FromTop), Shown(fs), Remaining(fs, posts, author), |fs|, size, More(fs))
  }

  lemma NextBalance(fs: seq<Fetch>, author: Option<string>, posts: Table, size: nat)
    requires fs != [] && PathBalanced(Front(fs), author, posts, size) && More(Front(fs))
    requires Takes(Remaining(Front(fs), posts, author), Last(fs).page.items, Remaining(fs, posts, author),
                   size, More(fs))
    ensures PathBalanced(fs, author, posts, size)
  {
    BalanceMoves(Selected(posts, author, FromTop), Shown(Front(fs)), Remaining(Front(fs), posts, author), |Front(fs)|,
                 size, Last(fs).page.items, Remaining(fs, posts, author), More(fs));
  }

  /** Over unchanging posts every page but the last is full, and what is shown and what remains
      make up the wanted posts: the remaining posts shrink by a whole page each time. */
  lemma {:induction false} StillPathBalances(fs: seq<Fetch>, author: Option<string>, posts: Table, limit: int)
    requires IsPath(fs, author) && Still(fs, posts, limit)
    ensures PathBalanced(fs, author, posts, Clamped(limit))
    decreases |fs|
  {
    if fs == [] {
    } else {
      StillPathBalances(Front(fs), author, posts, limit);
      OneRequest(fs, author, posts, Clamped(limit));
      NextBalance(fs, author, posts, Clamped(limit));
    }
  }

  /** `pages` is max(1, ceil(n / size)). */
  predicate PagesFor(pages: nat, n: nat, size: nat) {
    if n == 0 then pages == 1 else (pages - 1) * size < n <= pages * size
  }

  lemma LastRequestCloses(fs: seq<Fetch>, author: Option<string>, posts: Table, size: nat)
    requires fs != [] && PathBalanced(Front(fs), author, posts, size) && More(Front(fs)) && !More(fs) && 0 < size
    requires Takes(Remaining(Front(fs), posts, author), Last(fs).page.items, Remaining(fs, posts, author),
                   size, More(fs))
    ensures PagesFor(|fs|, |Selected(posts, author, FromTop)|, size)
  {
    Closing(|Front(fs)|, size, |Selected(posts, author, FromTop)|, |Last(fs).page.items|);
  }

  lemma Closing(full: nat, size: nat, n: nat, rest: nat)
    requires 0 < size && n == full * size + rest && rest <= size && (full > 0 ==> rest > 0)
    ensures PagesFor(full + 1, n, size)
  {
  }

  lemma PagesOfAStillPath(fs: seq<Fetch>, author: Option<string>, posts: Table, limit: int)
    requires IsPath(fs, author) && Still(fs, posts, limit) && fs != [] && !More(fs)
    ensures PagesFor(|fs|, |Selected(posts, author, FromTop)|, Clamped(limit))
  {
    StillPathBalances(Front(fs), author, posts, limit);
    OneRequest(fs, author, posts, Clamped(limit));
    LastRequestCloses(fs, author, posts, Clamped(limit));
  }

  lemma StillWalkShowsTheWanted(codec: C.Codec, fs: seq<Fetch>, author: Option<string>, posts: Table, limit: int)
    requires C.Faithful(codec) && IsWalk(codec, fs, author) && Still(fs, posts, limit) && fs != [] && CursorOf(fs) == ""
    ensures Sound(posts)
    ensures Members(Shown(fs)) == Selected(posts, author, FromTop)
    ensures PagesFor(|fs|, |Shown(fs)|, Clamped(limit))
  {
    WalkIsAPath(codec, fs, author);
    StillPathBalances(fs, author, posts, limit);
    PagesOfAStillPath(fs, author, posts, limit);
  }

  lemma StrictlyInOrder(s: seq<Post>)
    requires Descending(s)
    ensures forall i, j :: 0 <= i < j < |s| ==> s[i] != s[j]
  {
    forall i, j | 0 <= i < j < |s| ensures s[i] != s[j] {
      BelowIsIrreflexive(Of(s[i]));
    }
  }

  /** A complete walk over `n` wanted posts that do not change takes max(1, ceil(n / limit))
      requests, and shows every one of them, in order, exactly once. */
  lemma StillWalkIsTheWholeFeed(codec: C.Codec, fs: seq<Fetch>, author: Option<string>, posts: Table, limit: int)
    requires C.Faithful(codec) && IsWalk(codec, fs, author) && Still(fs, posts, limit) && fs != [] && CursorOf(fs) == ""
    ensures forall p :: p in Shown(fs) <==>
              p.id in posts && posts[p.id] == p && (author.Some? ==> p.author == author.value)
    ensures forall i, j :: 0 <= i < j < |Shown(fs)| ==> Shown(fs)[i] != Shown(fs)[j]
    ensures forall i, j :: 0 <= i < j < |Shown(fs)| ==> Precedes(Shown(fs)[i], Shown(fs)[j])
    ensures var size, n := if limit <= 0 then 20 else if limit > 50 then 50 else limit, |Shown(fs)|;
            if n == 0 then |fs| == 1 else (|fs| - 1) * size < n <= |fs| * size
  {
    WalkDescends(codec, fs, author);
    StrictlyInOrder(Shown(fs));
    StillWalkShowsTheWanted(codec, fs, author, posts, limit);
    forall p ensures p in Shown(fs) <==> AskedFor(p, posts, author, None) {
      SelectedIsAskedFor(posts, author, FromTop, None, p);
      assert p in Shown(fs) <==> p in Members(Shown(fs));
    }
  }

  // ----- Identifiers -----

  /** A post keeps its creation time for as long as it exists. */
  ghost predicate TimesAreFixed(fs: seq<Fetch>) {
    forall i, j, id :: 0 <= i < |fs| && 0 <= j < |fs| && id in fs[i].posts && id in fs[j].posts ==>
      fs[i].posts[id].createdAt == fs[j].posts[id].createdAt
  }

  /** With creation times fixed, no post -- whatever else about it changed -- is shown twice. */
  lemma NoIdIsShownTwice(codec: C.Codec, fs: seq<Fetch>, author: Option<string>, i: nat, j: nat)
    requires C.Faithful(codec) && IsWalk(codec, fs, author) && TimesAreFixed(fs)
    requires i < |Shown(fs)| && j < |Shown(fs)| && Shown(fs)[i].id == Shown(fs)[j].id
    ensures i == j
  {
    var m := ShownWasStored(codec, fs, author, Shown(fs)[i]);
    var n := ShownWasStored(codec, fs, author, Shown(fs)[j]);
    WalkNeverRepeats(codec, fs, author, i, j);
  }

  /** The service's own cursors are faithful, so its walks are in order and leave nothing out. */
  lemma WalksOfTheService(fs: seq<Fetch>, author: Option<string>)
    requires IsWalk(C.STANDARD, fs, author)
    ensures forall i, j :: 0 <= i < j < |Shown(fs)| ==> Precedes(Shown(fs)[i], Shown(fs)[j])
    ensures fs != [] && CursorOf(fs) == "" ==>
              forall p :: PresentThroughout(fs, p) && Wanted(p, author) ==> p in Shown(fs)
  {
    C.StandardIsFaithful();
    WalkDescends(C.STANDARD, fs, author);
    if fs != [] && CursorOf(fs) == "" {
      forall p | PresentThroughout(fs, p) && Wanted(p, author) ensures p in Shown(fs) {
        CompleteWalkShowsAll(C.STANDARD, fs, author, p);
      }
    }
  }
}
