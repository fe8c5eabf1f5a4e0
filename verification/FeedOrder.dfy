/** Posts and the order the feed lists them in: newest first, ties broken by identifier. */
module FeedOrder {
  import opened Base
  import opened Timestamps

  datatype Post = Post(id: string, author: string, createdAt: Time, caption: string, imageKey: Option<string>)

  /** Strings compare by their first difference; a proper prefix is smaller. */
  predicate Less(a: string, b: string)
    decreases |a|
  {
    if b == "" then false
    else if a == "" then true
    else a[0] < b[0] || (a[0] == b[0] && Less(a[1..], b[1..]))
  }

  lemma {:induction false} LessIsTotal(a: string, b: string)
    ensures Less(a, b) || Less(b, a) || a == b
    ensures !(Less(a, b) && Less(b, a))
    decreases |a|
  {
    if a != "" && b != "" {
      LessIsTotal(a[1..], b[1..]);
      assert a == [a[0]] + a[1..] && b == [b[0]] + b[1..];
    }
  }

  lemma {:induction false} LessIsIrreflexive(a: string)
    ensures !Less(a, a)
    decreases |a|
  {
    if a != "" {
      LessIsIrreflexive(a[1..]);
    }
  }

  lemma {:induction false} LessIsTransitive(a: string, b: string, c: string)
    requires Less(a, b) && Less(b, c)
    ensures Less(a, c)
    decreases |a|
  {
    if a != "" && a[0] == b[0] && b[0] == c[0] {
      LessIsTransitive(a[1..], b[1..], c[1..]);
    }
  }

  /** At the first difference `a` has the larger character, or goes on where `b` ends. */
  ghost predicate Larger(a: string, b: string) {
    exists k :: 0 <= k < |a| && k <= |b| && a[..k] == b[..k] && (k == |b| || a[k] > b[k])
  }

  lemma LargerAfterAnEqualStart(a: string, b: string)
    requires a != "" && b != "" && a[0] == b[0] && Larger(a[1..], b[1..])
    ensures Larger(a, b)
  {
    var k :| 0 <= k < |a| - 1 && k <= |b| - 1 && a[1..][..k] == b[1..][..k]
             && (k == |b| - 1 || a[1..][k] > b[1..][k]);
    assert a[..k + 1] == [a[0]] + a[1..][..k] && b[..k + 1] == [b[0]] + b[1..][..k];
  }

  lemma LargerBehindTheStart(a: string, b: string)
    requires a != "" && b != "" && Larger(a, b)
    ensures a[0] > b[0] || (a[0] == b[0] && Larger(a[1..], b[1..]))
  {
    var k :| 0 <= k < |a| && k <= |b| && a[..k] == b[..k] && (k == |b| || a[k] > b[k]);
    if k > 0 {
      assert a[0] == a[..k][0] && b[0] == b[..k][0];
      assert a[1..][..k - 1] == a[..k][1..] && b[1..][..k - 1] == b[..k][1..];
    }
  }

  /** Strings compare by their first difference. */
  lemma {:induction false} LessIsByFirstDifference(a: string, b: string)
    ensures Less(a, b) <==> Larger(b, a)
    decreases |a|
  {
    if a == "" || b == "" || a[0] != b[0] {
      assert b[..0] == a[..0];
      if a != "" && b != "" && Larger(b, a) {
        LargerBehindTheStart(b, a);
      }
    } else {
      LessIsByFirstDifference(a[1..], b[1..]);
      if Less(a, b) {
        LargerAfterAnEqualStart(b, a);
      } else if Larger(b, a) {
        LargerBehindTheStart(b, a);
      }
    }
  }

  /** A place in the feed. */
  datatype Position = At(createdAt: Time, id: string)

  function Of(p: Post): Position {
    At(p.createdAt, p.id)
  }

  /** `x` is strictly below `y`: older, or as old with a smaller identifier. */
  predicate Below(x: Position, y: Position) {
    || Instant(x.createdAt) < Instant(y.createdAt)
    || (Instant(x.createdAt) == Instant(y.createdAt) && Less(x.id, y.id))
  }

  lemma BelowIsTransitive(x: Position, y: Position, z: Position)
    requires Below(x, y) && Below(y, z)
    ensures Below(x, z)
  {
    if Less(x.id, y.id) && Less(y.id, z.id) {
      LessIsTransitive(x.id, y.id, z.id);
    }
  }

  lemma BelowIsIrreflexive(x: Position)
    ensures !Below(x, x)
  {
    LessIsIrreflexive(x.id);
  }

  lemma BelowIsTotal(x: Position, y: Position)
    ensures x.id == y.id || Below(x, y) || Below(y, x)
    ensures !(Below(x, y) && Below(y, x))
  {
    LessIsTotal(x.id, y.id);
  }

  /** A reader meets `p` before `q`: it is newer, or as old with a larger identifier. */
  ghost predicate Precedes(p: Post, q: Post) {
    || Earlier(q.createdAt, p.createdAt)
    || (q.createdAt == p.createdAt && Larger(p.id, q.id))
  }

  lemma BelowIsPreceded(p: Post, q: Post)
    requires Civil(p.createdAt) && Civil(q.createdAt)
    ensures Below(Of(q), Of(p)) <==> Precedes(p, q)
  {
    InstantsAreInOrder(q.createdAt, p.createdAt);
    LessIsByFirstDifference(q.id, p.id);
  }

  ghost predicate AllCivil(sel: set<Post>) {
    forall p :: p in sel ==> Civil(p.createdAt)
  }

  /** Listed top to bottom without repetition. */
  ghost predicate Descending(s: seq<Post>) {
    forall i, j :: 0 <= i < j < |s| ==> Below(Of(s[j]), Of(s[i]))
  }

  lemma AppendBelow(s: seq<Post>, t: seq<Post>)
    requires Descending(s) && Descending(t)
    requires s != [] ==> forall j :: 0 <= j < |t| ==> Below(Of(t[j]), Of(s[|s| - 1]))
    ensures Descending(s + t)
  {
    var u := s + t;
    forall i, j | 0 <= i < j < |u| ensures Below(Of(u[j]), Of(u[i])) {
      if i < |s| <= j {
        if i < |s| - 1 {
          BelowIsTransitive(Of(u[j]), Of(s[|s| - 1]), Of(u[i]));
        }
      }
    }
  }

  lemma DescendingHasNoRepeats(s: seq<Post>, i: nat, j: nat)
    requires Descending(s) && i < |s| && j < |s| && s[i] == s[j]
    ensures i == j
  {
    BelowIsIrreflexive(Of(s[i]));
  }

  // ----- The best `k` of a set -----

  /** `items` are the top posts of `sel`, as many as `k` allows. */
  ghost predicate TopOf(items: seq<Post>, sel: set<Post>, k: nat) {
    && Descending(items)
    && |items| <= k
    && (forall p :: p in items ==> p in sel)
    && (forall p :: p in sel && p !in items ==>
          |items| == k && forall q :: q in items ==> Below(Of(p), Of(q)))
  }

  ghost predicate DistinctIds(sel: set<Post>) {
    forall p, q :: p in sel && q in sel && p.id == q.id ==> p == q
  }

  /** Nothing above the post at index `i` is missing from the listing before it. */
  lemma AboveIsBefore(items: seq<Post>, sel: set<Post>, k: nat, i: nat, p: Post)
    requires TopOf(items, sel, k) && i < |items| && p in sel && Below(Of(items[i]), Of(p))
    ensures exists j :: 0 <= j < i && items[j] == p
  {
    if p !in items {
      assert items[i] in items;
      BelowIsTotal(Of(p), Of(items[i]));
    } else {
      var j :| 0 <= j < |items| && items[j] == p;
      if j == i {
        BelowIsIrreflexive(Of(p));
      } else if i < j {
        BelowIsTotal(Of(p), Of(items[i]));
      }
    }
  }

  /** After equal beginnings, neither listing can go on with a higher post than the other. */
  lemma NextIsNotHigher(xs: seq<Post>, ys: seq<Post>, sel: set<Post>, k: nat, n: nat)
    requires TopOf(xs, sel, k) && n < |xs| && n < |ys| && xs[..n] == ys[..n]
    requires Descending(ys) && ys[n] in sel
    ensures !Below(Of(xs[n]), Of(ys[n]))
  {
    if Below(Of(xs[n]), Of(ys[n])) {
      AboveIsBefore(xs, sel, k, n, ys[n]);
      var j :| 0 <= j < n && xs[j] == ys[n];
      assert ys[j] == ys[..n][j] == xs[..n][j];
      DescendingHasNoRepeats(ys, j, n);
    }
  }

  lemma {:induction false} SamePrefix(xs: seq<Post>, ys: seq<Post>, sel: set<Post>, k: nat, l: nat, n: nat)
    requires TopOf(xs, sel, k) && TopOf(ys, sel, l) && DistinctIds(sel) && n <= |xs| && n <= |ys|
    ensures xs[..n] == ys[..n]
    decreases n
  {
    if n > 0 {
      SamePrefix(xs, ys, sel, k, l, n - 1);
      var x, y := xs[n - 1], ys[n - 1];
      assert x in xs && y in ys;
      NextIsNotHigher(xs, ys, sel, k, n - 1);
      NextIsNotHigher(ys, xs, sel, l, n - 1);
      BelowIsTotal(Of(x), Of(y));
      assert xs[..n] == xs[..n - 1] + [x] && ys[..n] == ys[..n - 1] + [y];
    }
  }

  lemma LongerIsNotAll(xs: seq<Post>, ys: seq<Post>, sel: set<Post>, k: nat, l: nat)
    requires TopOf(xs, sel, k) && TopOf(ys, sel, l) && DistinctIds(sel) && |xs| < |ys|
    ensures |xs| == k
  {
    SamePrefix(xs, ys, sel, k, l, |xs|);
    var p := ys[|xs|];
    assert p in ys;
    if p in xs {
      var j :| 0 <= j < |xs| && xs[j] == p;
      assert ys[j] == ys[..|xs|][j] == xs[..|xs|][j];
      DescendingHasNoRepeats(ys, j, |xs|);
    }
  }

  lemma DescendingMeans(s: seq<Post>)
    requires Descending(s) && forall p :: p in s ==> Civil(p.createdAt)
    ensures forall i, j :: 0 <= i < j < |s| ==> Precedes(s[i], s[j])
  {
    forall i, j | 0 <= i < j < |s| ensures Precedes(s[i], s[j]) {
      assert s[i] in s && s[j] in s;
      BelowIsPreceded(s[i], s[j]);
    }
  }

  /** Newest first, ties by larger identifier; whatever is left out comes after a full listing. */
  lemma TopMeans(items: seq<Post>, sel: set<Post>, k: nat)
    requires TopOf(items, sel, k) && AllCivil(sel)
    ensures forall i, j :: 0 <= i < j < |items| ==> Precedes(items[i], items[j])
    ensures forall p, q :: p in sel && p !in items && q in items ==> Precedes(q, p)
    ensures (exists p :: p in sel && p !in items) ==> |items| == k
  {
    DescendingMeans(items);
    forall p, q | p in sel && p !in items && q in items ensures Precedes(q, p) {
      BelowIsPreceded(q, p);
    }
  }

  /** The top `k` of a set of posts with distinct identifiers are one particular listing: the
      newest first, larger identifiers first among equally new ones, the rest after them. */
  lemma TopIsDetermined(xs: seq<Post>, ys: seq<Post>, sel: set<Post>, k: nat)
    requires TopOf(xs, sel, k) && TopOf(ys, sel, k) && DistinctIds(sel) && AllCivil(sel)
    ensures xs == ys
    ensures forall i, j :: 0 <= i < j < |xs| ==> Precedes(xs[i], xs[j])
    ensures forall p, q :: p in sel && p !in xs && q in xs ==> Precedes(q, p)
    ensures (exists p :: p in sel && p !in xs) ==> |xs| == k
  {
    TopMeans(xs, sel, k);
    if |xs| < |ys| {
      LongerIsNotAll(xs, ys, sel, k, k);
    } else if |ys| < |xs| {
      LongerIsNotAll(ys, xs, sel, k, k);
    }
    SamePrefix(xs, ys, sel, k, k, |xs|);
    assert xs[..|xs|] == xs && ys[..|ys|] == ys;
  }

  /** Truncating a longer listing gives the shorter one. */
  lemma TopOfTop(items: seq<Post>, sel: set<Post>, k: nat, n: nat)
    requires TopOf(items, sel, k) && n <= k
    ensures TopOf(if |items| > n then items[..n] else items, sel, n)
  {
    if |items| > n {
      var front := items[..n];
      forall p | p in sel && p !in front ensures forall q :: q in front ==> Below(Of(p), Of(q)) {
        if p in items {
          var j :| 0 <= j < |items| && items[j] == p;
          assert j >= n;
        }
      }
    }
  }

  /** A listing leaves nothing out exactly when every selected post is on it. */
  lemma TopIsAllIff(items: seq<Post>, sel: set<Post>, k: nat, n: nat)
    requires TopOf(items, sel, k) && n < k
    ensures |items| <= n <==> (forall p :: p in sel ==> p in (if |items| > n then items[..n] else items))
  {
    if |items| > n {
      var p := items[n];
      assert p in items;
      if p in items[..n] {
        var j :| 0 <= j < n && items[j] == p;
        DescendingHasNoRepeats(items, j, n);
      }
    }
  }
}
