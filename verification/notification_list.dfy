/** The list pipeline of the notification history page: read flags are
    applied, the list is sorted by creation time, filtered by type and by a
    case-insensitive search, cut into pages of eight, and a window of at most
    three page buttons (plus first/last buttons and ellipses) is laid out. */
module NotificationList {
  import opened JsValues
  import opened JsStrings
  import opened JsMath
  import opened JsArrays
  import opened NotificationModel

  const ItemsPerPage: nat := 8
  const MaxVisiblePages: nat := 3

  datatype SortOrder = Newest | Oldest

  /** The type selector: `'all'` or one notification type. */
  datatype TypeFilter = All | OfType(kind: NotificationType)

  // ---------------------------------------------------------------- read flags

  /** A notification with its read flag cleared; two notifications that agree
      here differ at most in their read flag. */
  function Strip(n: Notification): Notification {
    n.(read := false)
  }

  function StripAll(s: seq<Notification>): (r: seq<Notification>)
    ensures |r| == |s| && forall i :: 0 <= i < |s| ==> r[i] == Strip(s[i])
  {
    seq(|s|, i requires 0 <= i < |s| => Strip(s[i]))
  }

  /** Each notification with its read flag taken from the read-id set. */
  function Decorate(raw: seq<Notification>, readIds: set<string>): (r: seq<Notification>)
    ensures |r| == |raw|
    ensures forall i :: 0 <= i < |raw| ==> Strip(r[i]) == Strip(raw[i])
    ensures forall i :: 0 <= i < |raw| ==> (r[i].read <==> raw[i].id in readIds)
  {
    seq(|raw|, i requires 0 <= i < |raw| => raw[i].(read := raw[i].id in readIds))
  }

  // ---------------------------------------------------------------- sorting

  /** `a` may precede `b`: newest first compares `createdAt` downwards,
      oldest first upwards. */
  predicate InOrder(order: SortOrder, a: Notification, b: Notification) {
    match order
    case Newest => a.createdAt >= b.createdAt
    case Oldest => a.createdAt <= b.createdAt
  }

  predicate SortedBy(s: seq<Notification>, order: SortOrder) {
    forall i, j :: 0 <= i < j < |s| ==> InOrder(order, s[i], s[j])
  }

  /** Inserts `x` before the first element it may precede. */
  function Insert(x: Notification, s: seq<Notification>, order: SortOrder): (r: seq<Notification>)
    ensures multiset(r) == multiset(s) + multiset{x}
    ensures forall y :: y in r <==> y == x || y in s
  {
    if |s| == 0 then [x]
    else if InOrder(order, x, s[0]) then [x] + s
    else
      assert s == [s[0]] + s[1..];
      [s[0]] + Insert(x, s[1..], order)
  }

  /** Insertion keeps a sorted list sorted. */
  lemma {:induction false} InsertSorted(x: Notification, s: seq<Notification>, order: SortOrder)
    requires SortedBy(s, order)
    ensures SortedBy(Insert(x, s, order), order)
    decreases |s|
  {
    if |s| > 0 && !InOrder(order, x, s[0]) {
      var t := Insert(x, s[1..], order);
      InsertSorted(x, s[1..], order);
      assert InOrder(order, s[0], x);
      forall y | y in t
        ensures InOrder(order, s[0], y)
      {
        if y != x {
          var j :| 0 <= j < |s[1..]| && s[1..][j] == y;
          assert s[j + 1] == y;
        }
      }
      var r := [s[0]] + t;
      forall i, j | 0 <= i < j < |r|
        ensures InOrder(order, r[i], r[j])
      {
        if i == 0 {
          assert r[j] == t[j - 1] && t[j - 1] in t;
        } else {
          assert r[i] == t[i - 1] && r[j] == t[j - 1];
        }
      }
    }
  }

  /** The comparator sort of the page (a stable sort on `createdAt`). */
  function SortByTime(s: seq<Notification>, order: SortOrder): (r: seq<Notification>)
    ensures multiset(r) == multiset(s)
    ensures SortedBy(r, order)
  {
    if |s| == 0 then []
    else
      assert s == [s[0]] + s[1..];
      var t := SortByTime(s[1..], order);
      InsertSorted(s[0], t, order);
      Insert(s[0], t, order)
  }

  /** The notifications of `s` created at time `t`, in their order in `s`. */
  function CreatedAt(s: seq<Notification>, t: int): (r: seq<Notification>)
    ensures forall x :: x in r ==> x in s && x.createdAt == t
  {
    if |s| == 0 then []
    else if s[0].createdAt == t then [s[0]] + CreatedAt(s[1..], t)
    else CreatedAt(s[1..], t)
  }

  /** Selecting by creation time distributes over putting one element first. */
  lemma CreatedAtCons(y: Notification, s: seq<Notification>, t: int)
    ensures CreatedAt([y] + s, t) == (if y.createdAt == t then [y] else []) + CreatedAt(s, t)
  {
    assert ([y] + s)[1..] == s;
  }

  /** The part of `[x]` created at `t`. */
  function Own(x: Notification, t: int): (r: seq<Notification>)
    ensures r == CreatedAt([x], t)
  {
    CreatedAtCons(x, [], t);
    if x.createdAt == t then [x] else []
  }

  /** Two elements with different creation times can trade places as far as
      selecting one creation time is concerned. */
  lemma OwnCommute(a: Notification, x: Notification, z: seq<Notification>, t: int)
    requires a.createdAt != x.createdAt
    ensures Own(a, t) + (Own(x, t) + z) == Own(x, t) + (Own(a, t) + z)
  {
  }

  /** Inserting `x` puts it ahead of every element with its own creation
      time: the elements it passes are strictly before it in the order. */
  lemma {:induction false} InsertStable(x: Notification, s: seq<Notification>, order: SortOrder, t: int)
    ensures CreatedAt(Insert(x, s, order), t) == Own(x, t) + CreatedAt(s, t)
    decreases |s|
  {
    if |s| == 0 {
      CreatedAtCons(x, [], t);
    } else if InOrder(order, x, s[0]) {
      CreatedAtCons(x, s, t);
    } else {
      var rest := Insert(x, s[1..], order);
      var tail := CreatedAt(s[1..], t);
      assert Insert(x, s, order) == [s[0]] + rest;
      assert s == [s[0]] + s[1..];
      InsertStable(x, s[1..], order, t);
      CreatedAtCons(s[0], rest, t);
      CreatedAtCons(s[0], s[1..], t);
      OwnCommute(s[0], x, tail, t);
    }
  }

  /** The sort is stable: for every creation time, the notifications created
      then keep their relative order. */
  lemma {:induction false} SortStable(s: seq<Notification>, order: SortOrder, t: int)
    ensures CreatedAt(SortByTime(s, order), t) == CreatedAt(s, t)
    decreases |s|
  {
    if |s| > 0 {
      SortStable(s[1..], order, t);
      InsertStable(s[0], SortByTime(s[1..], order), order, t);
      assert SortByTime(s, order) == Insert(s[0], SortByTime(s[1..], order), order);
    }
  }

  /** The decorated and sorted list the page starts from. */
  function Arrange(raw: seq<Notification>, readIds: set<string>, order: SortOrder): (r: seq<Notification>)
    ensures multiset(r) == multiset(Decorate(raw, readIds))
    ensures SortedBy(r, order)
    ensures forall x :: x in r ==> (x.read <==> x.id in readIds)
    ensures forall x :: x in r <==> x in Decorate(raw, readIds)
  {
    var d := Decorate(raw, readIds);
    var r := SortByTime(d, order);
    assert forall x :: x in r <==> x in multiset(d);
    r
  }

  // ---------------------------------------------------------------- filtering

  predicate MatchesType(filter: TypeFilter, n: Notification) {
    filter.All? || n.kind == filter.kind
  }

  /** Title or message contains the query, both lower-cased. */
  predicate MatchesQuery(query: string, n: Notification) {
    Includes(ToLower(n.title), ToLower(query)) || Includes(ToLower(n.message), ToLower(query))
  }

  predicate Matches(filter: TypeFilter, query: string, n: Notification) {
    MatchesType(filter, n) && MatchesQuery(query, n)
  }

  /** The notifications that pass both filters, in their original order. */
  function FilterList(s: seq<Notification>, filter: TypeFilter, query: string): (r: seq<Notification>)
    ensures |r| <= |s|
    ensures forall x :: x in r <==> x in s && Matches(filter, query, x)
    ensures forall x {:trigger multiset(r)[x]} :: multiset(r)[x] == if Matches(filter, query, x) then multiset(s)[x] else 0
  {
    if |s| == 0 then []
    else
      var rest := FilterList(s[1..], filter, query);
      assert s == [s[0]] + s[1..];
      assert forall x :: x in s <==> x == s[0] || x in s[1..];
      if Matches(filter, query, s[0]) then [s[0]] + rest else rest
  }

  /** `a` is obtained from `b` by deleting elements. */
  predicate IsSubsequence(a: seq<Notification>, b: seq<Notification>)
    decreases |b|
  {
    |a| == 0 || (|b| > 0 && ((a[0] == b[0] && IsSubsequence(a[1..], b[1..])) || IsSubsequence(a, b[1..])))
  }

  /** A subsequence of a sorted list is sorted and takes its items from the list. */
  lemma {:induction false} SubsequenceSorted(a: seq<Notification>, b: seq<Notification>, order: SortOrder)
    requires IsSubsequence(a, b)
    requires SortedBy(b, order)
    ensures SortedBy(a, order)
    ensures forall x :: x in a ==> x in b
    decreases |b|
  {
    if |a| > 0 {
      assert SortedBy(b[1..], order);
      if a[0] == b[0] && IsSubsequence(a[1..], b[1..]) {
        SubsequenceSorted(a[1..], b[1..], order);
        forall x | x in a
          ensures x in b
        {
          if x != a[0] {
            assert x in a[1..];
          }
        }
        forall i, j | 0 <= i < j < |a|
          ensures InOrder(order, a[i], a[j])
        {
          if i == 0 {
            assert a[j] in a[1..];
            var k :| 0 <= k < |b[1..]| && b[1..][k] == a[j];
            assert b[k + 1] == a[j];
          } else {
            assert a[i] == a[1..][i - 1] && a[j] == a[1..][j - 1];
          }
        }
      } else {
        SubsequenceSorted(a, b[1..], order);
      }
    }
  }

  /** Filtering keeps the order of the list it filters. */
  lemma {:induction false} FilterIsSubsequence(s: seq<Notification>, filter: TypeFilter, query: string)
    ensures IsSubsequence(FilterList(s, filter, query), s)
    decreases |s|
  {
    if |s| > 0 {
      var r := FilterList(s, filter, query);
      FilterIsSubsequence(s[1..], filter, query);
      if Matches(filter, query, s[0]) {
        assert r[0] == s[0] && r[1..] == FilterList(s[1..], filter, query);
      }
    }
  }

  /** The list the page shows, before pagination. */
  function View(raw: seq<Notification>, readIds: set<string>, order: SortOrder, filter: TypeFilter, query: string): (r: seq<Notification>)
    ensures IsSubsequence(r, Arrange(raw, readIds, order))
    ensures forall x :: x in r ==> Matches(filter, query, x) && (x.read <==> x.id in readIds)
    ensures forall x :: x in Arrange(raw, readIds, order) && Matches(filter, query, x) ==> x in r
    ensures forall x {:trigger multiset(r)[x]} :: multiset(r)[x] == if Matches(filter, query, x) then multiset(Decorate(raw, readIds))[x] else 0
  {
    var a := Arrange(raw, readIds, order);
    FilterIsSubsequence(a, filter, query);
    FilterList(a, filter, query)
  }

  // ---------------------------------------------------------------- read flags do not move items

  lemma StripAllCons(a: Notification, t: seq<Notification>)
    ensures StripAll([a] + t) == [Strip(a)] + StripAll(t)
  {
  }

  lemma {:induction false} InsertStrip(x: Notification, s: seq<Notification>, order: SortOrder)
    ensures StripAll(Insert(x, s, order)) == Insert(Strip(x), StripAll(s), order)
    decreases |s|
  {
    if |s| == 0 {
      StripAllCons(x, []);
    } else {
      assert s == [s[0]] + s[1..];
      StripAllCons(s[0], s[1..]);
      var ss := StripAll(s);
      assert ss[0] == Strip(s[0]) && ss[1..] == StripAll(s[1..]);
      if InOrder(order, x, s[0]) {
        StripAllCons(x, s);
      } else {
        InsertStrip(x, s[1..], order);
        StripAllCons(s[0], Insert(x, s[1..], order));
      }
    }
  }

  lemma {:induction false} SortStrip(s: seq<Notification>, order: SortOrder)
    ensures StripAll(SortByTime(s, order)) == SortByTime(StripAll(s), order)
    decreases |s|
  {
    if |s| > 0 {
      var ss := StripAll(s);
      assert ss[0] == Strip(s[0]) && ss[1..] == StripAll(s[1..]);
      var t := SortByTime(s[1..], order);
      assert SortByTime(s, order) == Insert(s[0], t, order);
      assert SortByTime(ss, order) == Insert(ss[0], SortByTime(ss[1..], order), order);
      SortStrip(s[1..], order);
      InsertStrip(s[0], t, order);
    }
  }

  /** One filtering step: the head is kept exactly when it matches. */
  lemma FilterStep(s: seq<Notification>, filter: TypeFilter, query: string)
    requires |s| > 0
    ensures FilterList(s, filter, query) == (if Matches(filter, query, s[0]) then [s[0]] else []) + FilterList(s[1..], filter, query)
  {
  }

  lemma {:induction false} FilterStrip(s: seq<Notification>, filter: TypeFilter, query: string)
    ensures StripAll(FilterList(s, filter, query)) == FilterList(StripAll(s), filter, query)
    decreases |s|
  {
    if |s| > 0 {
      var rest := FilterList(s[1..], filter, query);
      var ss := StripAll(s);
      var m := Matches(filter, query, s[0]);
      FilterStrip(s[1..], filter, query);
      assert s == [s[0]] + s[1..];
      StripAllCons(s[0], s[1..]);
      assert ss[0] == Strip(s[0]) && ss[1..] == StripAll(s[1..]);
      assert Matches(filter, query, ss[0]) == m;
      FilterStep(s, filter, query);
      FilterStep(ss, filter, query);
      StripAllCons(s[0], rest);
      assert StripAll((if m then [s[0]] else []) + rest) == (if m then [ss[0]] else []) + StripAll(rest);
    }
  }

  /** The read-id set changes only read flags: the page lists the same
      notifications in the same order whatever has been read. */
  lemma ViewIgnoresReadIds(raw: seq<Notification>, ids1: set<string>, ids2: set<string>, order: SortOrder, filter: TypeFilter, query: string)
    ensures StripAll(View(raw, ids1, order, filter, query)) == StripAll(View(raw, ids2, order, filter, query))
    ensures |View(raw, ids1, order, filter, query)| == |View(raw, ids2, order, filter, query)|
  {
    var d1, d2 := Decorate(raw, ids1), Decorate(raw, ids2);
    assert StripAll(d1) == StripAll(d2);
    SortStrip(d1, order);
    SortStrip(d2, order);
    FilterStrip(SortByTime(d1, order), filter, query);
    FilterStrip(SortByTime(d2, order), filter, query);
  }

  // ---------------------------------------------------------------- pagination

  /** The number of pages of eight needed for `n` items. */
  function TotalPages(n: nat): (r: nat)
    ensures r * ItemsPerPage >= n
    ensures r == 0 || (r - 1) * ItemsPerPage < n
  {
    CeilDiv(n, ItemsPerPage)
  }

  /** The eight items of page `page` (counted from 1), fewer on the last page. */
  function PageSlice(s: seq<Notification>, page: int): (r: seq<Notification>)
    ensures |r| <= ItemsPerPage
    ensures 1 <= page ==> forall i :: 0 <= i < |r| ==> (page - 1) * ItemsPerPage + i < |s| && r[i] == s[(page - 1) * ItemsPerPage + i]
  {
    Slice(s, (page - 1) * ItemsPerPage, page * ItemsPerPage)
  }

  /** Every existing page holds at least one item. */
  lemma PageSliceNonEmpty(s: seq<Notification>, page: int)
    ensures 1 <= page <= TotalPages(|s|) ==> |PageSlice(s, page)| > 0
  {
    if 1 <= page <= TotalPages(|s|) {
      assert (page - 1) * ItemsPerPage < |s|;
    }
  }

  /** Pages `1..k` laid end to end. */
  function ConcatPages(s: seq<Notification>, k: nat): seq<Notification> {
    if k == 0 then [] else ConcatPages(s, k - 1) + PageSlice(s, k)
  }

  lemma {:induction false} ConcatPagesPrefix(s: seq<Notification>, k: nat)
    ensures ConcatPages(s, k) == s[..Min(k * ItemsPerPage, |s|)]
  {
    if k > 0 {
      ConcatPagesPrefix(s, k - 1);
      var a, b := Min((k - 1) * ItemsPerPage, |s|), Min(k * ItemsPerPage, |s|);
      assert PageSlice(s, k) == s[a..b];
      assert s[..a] + s[a..b] == s[..b];
    }
  }

  /** The pages `1..TotalPages` together are exactly the list. */
  lemma PagesCoverList(s: seq<Notification>)
    ensures ConcatPages(s, TotalPages(|s|)) == s
  {
    ConcatPagesPrefix(s, TotalPages(|s|));
  }

  /** The "start-end of total" label of a page. */
  datatype RangeLabel = RangeLabel(start: int, end: int, total: nat)

  function Label(page: int, n: nat): (r: RangeLabel)
    ensures r.total == n
    ensures 1 <= page <= TotalPages(n) ==>
      && 1 <= r.start <= r.end <= n
      && r.end - r.start + 1 <= ItemsPerPage
      && (r.end < n ==> r.end - r.start + 1 == ItemsPerPage)
  {
    RangeLabel((page - 1) * ItemsPerPage + 1, Min(page * ItemsPerPage, n), n)
  }

  /** On every existing page the label counts exactly the items shown, and
      names positions inside the list. */
  lemma LabelMatchesSlice(s: seq<Notification>, page: int)
    requires 1 <= page <= TotalPages(|s|)
    ensures Label(page, |s|).end - Label(page, |s|).start + 1 == |PageSlice(s, page)|
    ensures 1 <= Label(page, |s|).start <= Label(page, |s|).end <= |s|
  {
    assert (page - 1) * ItemsPerPage <= (TotalPages(|s|) - 1) * ItemsPerPage;
  }

  // ---------------------------------------------------------------- page window

  /** The range of numbered page buttons around the current page. */
  datatype PageWindow = PageWindow(first: int, last: int)

  function Window(current: int, total: int): (w: PageWindow)
    ensures 1 <= current <= total ==>
      && 1 <= w.first <= current <= w.last <= total
      && w.last - w.first + 1 == Min(MaxVisiblePages, total)
  {
    var start := Max(1, current - MaxVisiblePages / 2);
    var end := Min(total, start + MaxVisiblePages - 1);
    var start' := if end - start + 1 < MaxVisiblePages then Max(1, end - MaxVisiblePages + 1) else start;
    PageWindow(start', end)
  }

  /** One element of the pagination bar. */
  datatype PageControl = PageButton(page: int) | Ellipsis

  function Buttons(from: int, to: int): (r: seq<PageControl>)
    ensures |r| == Max(0, to - from + 1)
    ensures forall i :: 0 <= i < |r| ==> r[i] == PageButton(from + i)
    ensures forall p :: PageButton(p) in r <==> from <= p <= to
    ensures Ellipsis !in r
  {
    var r := seq(Max(0, to - from + 1), i => PageButton(from + i));
    forall p | from <= p <= to
      ensures PageButton(p) in r
    {
      assert r[p - from] == PageButton(p);
    }
    r
  }

  /** Two neighbouring controls are well placed: consecutive buttons carry
      consecutive pages, and an ellipsis sits only between buttons. */
  predicate WellPlaced(r: seq<PageControl>) {
    && (forall i :: 0 <= i < |r| - 1 && r[i].PageButton? && r[i + 1].PageButton? ==> r[i + 1].page == r[i].page + 1)
    && (forall i :: 0 <= i < |r| && r[i].Ellipsis? ==>
          0 < i < |r| - 1 && r[i - 1].PageButton? && r[i + 1].PageButton? && r[i + 1].page >= r[i - 1].page + 2)
  }

  /** The bar for a window `[first, last]` of `total` pages: a first-page
      button when the window starts after page 1 (with an ellipsis when page 2
      is also hidden), the window, and symmetrically a last-page button. */
  function Bar(first: int, last: int, total: int): (r: seq<PageControl>)
    ensures forall p :: PageButton(p) in r <==> (first > 1 && p == 1) || first <= p <= last || (last < total && p == total)
    ensures Ellipsis in r <==> first > 2 || last < total - 1
  {
    var left := if first > 1 then [PageButton(1)] + (if first > 2 then [Ellipsis] else []) else [];
    var right := if last < total then (if last < total - 1 then [Ellipsis] else []) + [PageButton(total)] else [];
    left + Buttons(first, last) + right
  }

  /** The pagination bar rendered under the list. */
  function Controls(current: int, total: int): (r: seq<PageControl>)
    ensures 1 <= current <= total ==> PageButton(1) in r && PageButton(current) in r && PageButton(total) in r
    ensures 1 <= current <= total ==> forall p :: PageButton(p) in r ==> 1 <= p <= total
    ensures 1 <= current <= total ==> forall p :: PageButton(p) in r ==> p == 1 || p == total || current - 2 <= p <= current + 2
  {
    var w := Window(current, total);
    Bar(w.first, w.last, total)
  }

  /** The element at position `i` of a bar, spelled out piece by piece. */
  lemma BarAt(first: int, last: int, total: int, i: int)
    requires 1 <= first <= last <= total
    requires 0 <= i < |Bar(first, last, total)|
    ensures var n := if first > 2 then 2 else if first > 1 then 1 else 0;
      var m := last - first + 1;
      var r := Bar(first, last, total);
      && (i < n ==> r[i] == (if i == 0 then PageButton(1) else Ellipsis))
      && (n <= i < n + m ==> r[i] == PageButton(first + i - n))
      && (n + m <= i ==> r[i] == (if i == |r| - 1 then PageButton(total) else Ellipsis))
  {
  }

  /** An ellipsis stands only between two buttons whose pages are at least two apart. */
  lemma BarEllipses(first: int, last: int, total: int)
    requires 1 <= first <= last <= total
    ensures var r := Bar(first, last, total);
      forall i :: 0 <= i < |r| && r[i].Ellipsis? ==>
        0 < i < |r| - 1 && r[i - 1].PageButton? && r[i + 1].PageButton? && r[i + 1].page >= r[i - 1].page + 2
  {
    var r := Bar(first, last, total);
    forall i | 0 <= i < |r| && r[i].Ellipsis?
      ensures 0 < i < |r| - 1 && r[i - 1].PageButton? && r[i + 1].PageButton? && r[i + 1].page >= r[i - 1].page + 2
    {
      BarAt(first, last, total, i);
      BarAt(first, last, total, i - 1);
      BarAt(first, last, total, i + 1);
    }
  }

  /** Neighbouring buttons carry consecutive pages. */
  lemma BarConsecutive(first: int, last: int, total: int)
    requires 1 <= first <= last <= total
    ensures var r := Bar(first, last, total);
      forall i :: 0 <= i < |r| - 1 && r[i].PageButton? && r[i + 1].PageButton? ==> r[i + 1].page == r[i].page + 1
  {
    var r := Bar(first, last, total);
    forall i | 0 <= i < |r| - 1 && r[i].PageButton? && r[i + 1].PageButton?
      ensures r[i + 1].page == r[i].page + 1
    {
      BarAt(first, last, total, i);
      BarAt(first, last, total, i + 1);
    }
  }

  /** For a current page inside `[1, total]` the bar starts at page 1, ends
      at the last page, shows the current page, numbers neighbouring buttons
      consecutively and puts an ellipsis exactly where pages are skipped. */
  lemma ControlsWellFormed(current: int, total: int)
    requires 1 <= current <= total
    ensures var r := Controls(current, total);
      && |r| > 0 && r[0] == PageButton(1) && r[|r| - 1] == PageButton(total)
      && PageButton(current) in r
      && WellPlaced(r)
  {
    var w := Window(current, total);
    BarEnds(w.first, w.last, total, current);
    BarWellPlaced(w.first, w.last, total);
  }

  /** A bar starts at page 1, ends at the last page and shows every page of its window. */
  lemma BarEnds(first: int, last: int, total: int, current: int)
    requires 1 <= first <= current <= last <= total
    ensures var r := Bar(first, last, total);
      && |r| > 0 && r[0] == PageButton(1) && r[|r| - 1] == PageButton(total)
      && PageButton(current) in r
  {
    var r := Bar(first, last, total);
    BarAt(first, last, total, 0);
    BarAt(first, last, total, |r| - 1);
    var n := if first > 2 then 2 else if first > 1 then 1 else 0;
    BarAt(first, last, total, n + current - first);
  }

  lemma BarWellPlaced(first: int, last: int, total: int)
    requires 1 <= first <= last <= total
    ensures WellPlaced(Bar(first, last, total))
  {
    BarEllipses(first, last, total);
    BarConsecutive(first, last, total);
  }

  /** The previous/next buttons never leave `[1, totalPages]`, and each is a
      no-op exactly when it is disabled (on the first, resp. last, page). */
  function PrevPage(current: int): (r: int)
    ensures current > 1 ==> r == current - 1
    ensures current <= 1 ==> r == 1
  {
    Max(1, current - 1)
  }

  function NextPage(current: int, total: int): (r: int)
    ensures current < total ==> r == current + 1
    ensures current >= total ==> r == total
  {
    Min(total, current + 1)
  }

  lemma PrevNextClamp(current: int, total: int)
    requires 1 <= current <= total
    ensures 1 <= PrevPage(current) <= total && 1 <= NextPage(current, total) <= total
    ensures PrevPage(current) == current <==> current == 1
    ensures NextPage(current, total) == current <==> current == total
  {
  }
}
