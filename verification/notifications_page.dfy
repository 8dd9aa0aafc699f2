/** The notification history page as a state machine: the current page,
    the filters, the in-memory read-id set and the browser storage it writes
    its read flags to. The notifications themselves come from outside (the
    page generates demonstration data) and are a parameter `raw`. */
module NotificationsPage {
  import opened JsValues
  import opened JsStrings
  import opened JsMath
  import opened NotificationModel
  import opened ReadState
  import opened NotificationList

  datatype PageState = PageState(
    page: int,
    filter: TypeFilter,
    query: string,
    order: SortOrder,
    readIds: set<string>,
    storage: Storage)

  /** The page as first rendered: page 1, no filter, no search, newest
      first, read ids rebuilt from storage. */
  function Init(storage: Storage): (st: PageState)
    ensures st.page == 1 && st.filter == All && st.query == "" && st.order == Newest
    ensures st.readIds == ReadIds(storage) && st.storage == storage
  {
    PageState(1, All, "", Newest, ReadIds(storage), storage)
  }

  /** The filtered, sorted list. */
  function Listed(raw: seq<Notification>, st: PageState): (r: seq<Notification>)
    ensures SortedBy(r, st.order)
    ensures forall x :: x in r ==> Matches(st.filter, st.query, x) && (x.read <==> x.id in st.readIds)
    ensures forall x :: x in r <==> x in Decorate(raw, st.readIds) && Matches(st.filter, st.query, x)
  {
    var a := Arrange(raw, st.readIds, st.order);
    var r := View(raw, st.readIds, st.order, st.filter, st.query);
    SubsequenceSorted(r, a, st.order);
    r
  }

  /** The number of pages of eight that the listed notifications fill. */
  function Pages(raw: seq<Notification>, st: PageState): (r: nat)
    ensures r * ItemsPerPage >= |Listed(raw, st)|
    ensures r == 0 || (r - 1) * ItemsPerPage < |Listed(raw, st)|
    ensures r == 0 <==> |Listed(raw, st)| == 0
  {
    TotalPages(|Listed(raw, st)|)
  }

  /** The notifications of the current page. */
  function Shown(raw: seq<Notification>, st: PageState): (r: seq<Notification>)
    ensures |r| <= ItemsPerPage
    ensures 1 <= st.page ==> var l, from := Listed(raw, st), (st.page - 1) * ItemsPerPage;
      forall i :: 0 <= i < |r| ==> from + i < |l| && r[i] == l[from + i]
    ensures 1 <= st.page <= Pages(raw, st) ==> |r| > 0
  {
    var l := Listed(raw, st);
    PageSliceNonEmpty(l, st.page);
    PageSlice(l, st.page)
  }

  /** The unread notifications of a list, in order. */
  function Unread(s: seq<Notification>): (r: seq<Notification>)
    ensures |r| <= |s|
    ensures forall x :: x in r <==> x in s && !x.read
    ensures |r| == 0 <==> forall x :: x in s ==> x.read
  {
    if |s| == 0 then []
    else
      var rest := Unread(s[1..]);
      assert forall x :: x in s <==> x == s[0] || x in s[1..];
      if !s[0].read then [s[0]] + rest else rest
  }

  /** The ids of a list, in order. */
  function Ids(s: seq<Notification>): (r: seq<string>)
    ensures |r| == |s| && forall i :: 0 <= i < |s| ==> r[i] == s[i].id
    ensures forall x :: x in s ==> x.id in r
    ensures forall id :: id in r ==> exists x :: x in s && x.id == id
  {
    var r := seq(|s|, i requires 0 <= i < |s| => s[i].id);
    assert forall i :: 0 <= i < |s| ==> r[i] == s[i].id;
    r
  }

  /** The "mark all as read" button is shown while the listed notifications
      include an unread one. */
  predicate MarkAllShown(raw: seq<Notification>, st: PageState) {
    |Unread(Listed(raw, st))| > 0
  }

  // ---------------------------------------------------------------- marking read

  /** Marks one notification read: a no-op when it already is, otherwise
      adds the id and stores its flag. */
  function MarkAsRead(st: PageState, id: string): (r: PageState)
    ensures id in r.readIds
    ensures id in st.readIds ==> r == st
    ensures id !in st.readIds ==> r.readIds == st.readIds + {id} && IsFlagged(r.storage, ReadKey(id))
    ensures SameOutside(st.storage, r.storage, {ReadKey(id)})
    ensures r.page == st.page && r.filter == st.filter && r.query == st.query && r.order == st.order
  {
    if id in st.readIds then st
    else st.(readIds := st.readIds + {id}, storage := st.storage[ReadKey(id) := Flag])
  }

  /** Marking read twice is marking read once. */
  lemma MarkAsReadIdempotent(st: PageState, id: string)
    ensures MarkAsRead(MarkAsRead(st, id), id) == MarkAsRead(st, id)
  {
  }

  /** The ids of the listed notifications. */
  function ListedIds(raw: seq<Notification>, st: PageState): set<string> {
    set x | x in Listed(raw, st) :: x.id
  }

  /** The ids of the listed unread notifications, in order. */
  function UnreadIds(raw: seq<Notification>, st: PageState): (ids: seq<string>)
    ensures forall id :: id in ids ==> id in ListedIds(raw, st)
    ensures forall x :: x in Listed(raw, st) && !x.read ==> x.id in ids
    ensures |ids| == 0 <==> !MarkAllShown(raw, st)
  {
    var listed := Listed(raw, st);
    var unread := Unread(listed);
    var ids := Ids(unread);
    forall id | id in ids
      ensures id in ListedIds(raw, st)
    {
      var x :| x in unread && x.id == id;
      assert x in listed;
    }
    ids
  }

  /** Marks every listed unread notification read, and only those; a no-op
      when there is none. */
  function MarkAllAsRead(raw: seq<Notification>, st: PageState): (r: PageState)
    ensures !MarkAllShown(raw, st) ==> r == st
    ensures st.readIds <= r.readIds
    ensures r.readIds - st.readIds <= ListedIds(raw, st)
    ensures SameOutside(st.storage, r.storage, FlagKeys(UnreadIds(raw, st)))
    ensures forall x :: x in Listed(raw, st) ==> x.id in r.readIds
    ensures forall x :: x in Listed(raw, st) && !x.read ==> IsFlagged(r.storage, ReadKey(x.id))
    ensures forall id :: id in r.readIds - st.readIds ==> IsFlagged(r.storage, ReadKey(id))
    ensures FlagsKept(st.storage, r.storage)
    ensures r.page == st.page && r.filter == st.filter && r.query == st.query && r.order == st.order
  {
    var ids := UnreadIds(raw, st);
    if |ids| == 0 then st
    else
      AddAll(st, ids)
  }

  /** Adds every id of `ids` to the read set and stores its flag. */
  function AddAll(st: PageState, ids: seq<string>): (r: PageState)
    ensures r.readIds == st.readIds + (set id | id in ids)
    ensures forall id :: id in ids ==> IsFlagged(r.storage, ReadKey(id))
    ensures SameOutside(st.storage, r.storage, FlagKeys(ids))
    ensures FlagsKept(st.storage, r.storage)
    ensures r.page == st.page && r.filter == st.filter && r.query == st.query && r.order == st.order
  {
    st.(readIds := st.readIds + (set id | id in ids), storage := PersistAll(st.storage, ids))
  }

  /** After "mark all as read" nothing listed is unread: the listed
      notifications are re-derived from the new read set, and every one of
      them is read. */
  lemma MarkAllAsReadClearsUnread(raw: seq<Notification>, st: PageState)
    ensures !MarkAllShown(raw, MarkAllAsRead(raw, st))
  {
    var r := MarkAllAsRead(raw, st);
    var after := Listed(raw, r);
    forall x | x in after
      ensures x.read
    {
      var d' := Decorate(raw, r.readIds);
      assert x in d';
      var i :| 0 <= i < |raw| && d'[i] == x;
      var y := Decorate(raw, st.readIds)[i];
      assert Strip(y) == Strip(x);
      assert Matches(st.filter, st.query, y);
      assert y in Listed(raw, st);
    }
  }

  // ---------------------------------------------------------------- storage events

  /** The storage listener: another tab changed storage, and the read set is
      replaced by the one rebuilt from it. */
  function OnStorage(st: PageState, storage: Storage): (r: PageState)
    ensures r.readIds == ReadIds(storage) && r.storage == storage
    ensures r.page == st.page && r.filter == st.filter && r.query == st.query && r.order == st.order
  {
    st.(readIds := ReadIds(storage), storage := storage)
  }

  /** Every in-memory read id is backed by a stored flag. */
  predicate Synced(st: PageState) {
    st.readIds <= ReadIds(st.storage)
  }

  // ---------------------------------------------------------------- events

  datatype PageEvent =
    | SetFilter(filter: TypeFilter)
    | SetQuery(query: string)
    | SetOrder(order: SortOrder)
    | GoTo(page: int)
    | Prev
    | Next
    | Click(id: string)
    | MarkAll
    | StorageChanged(storage: Storage)

  /** One user or browser event. The pagination controls exist only when
      there is more than one page, and a page button only for pages of the bar. */
  function Step(raw: seq<Notification>, st: PageState, e: PageEvent): (r: PageState)
    ensures !(e.Click? || e.MarkAll? || e.StorageChanged?) ==> r.readIds == st.readIds && r.storage == st.storage
    ensures (e.Click? || e.MarkAll? || e.StorageChanged? || e.GoTo? || e.Prev? || e.Next?) ==>
      r.filter == st.filter && r.query == st.query && r.order == st.order
    ensures (e.Click? || e.MarkAll? || e.StorageChanged?) ==> r.page == st.page
    ensures (e.GoTo? || e.Prev? || e.Next?) && Pages(raw, st) <= 1 ==> r == st
    ensures e.GoTo? && r.page != st.page ==> PageButton(r.page) in Controls(st.page, Pages(raw, st))
  {
    var total := Pages(raw, st);
    match e
    case SetFilter(f) => st.(filter := f, page := 1)
    case SetQuery(q) => st.(query := q, page := 1)
    case SetOrder(o) => st.(order := o, page := 1)
    case GoTo(p) => if total > 1 && PageButton(p) in Controls(st.page, total) then st.(page := p) else st
    case Prev => if total > 1 then st.(page := PrevPage(st.page)) else st
    case Next => if total > 1 then st.(page := NextPage(st.page, total)) else st
    case Click(id) => MarkAsRead(st, id)
    case MarkAll => MarkAllAsRead(raw, st)
    case StorageChanged(s) => OnStorage(st, s)
  }

  /** Changing the filter, the search or the order returns to page 1. */
  lemma ChangingViewResetsPage(raw: seq<Notification>, st: PageState, e: PageEvent)
    requires e.SetFilter? || e.SetQuery? || e.SetOrder?
    ensures Step(raw, st, e).page == 1
    ensures Step(raw, st, e).readIds == st.readIds && Step(raw, st, e).storage == st.storage
  {
  }

  /** The current page is always an existing page (page 1 when the list is empty). */
  predicate ValidPage(raw: seq<Notification>, st: PageState) {
    1 <= st.page <= Max(1, Pages(raw, st))
  }

  /** A state that differs from `st` only in its read state lists the same
      number of pages. */
  lemma PagesIgnoreReadState(raw: seq<Notification>, st: PageState, r: PageState)
    requires r.filter == st.filter && r.query == st.query && r.order == st.order
    ensures Pages(raw, r) == Pages(raw, st)
  {
    ViewIgnoresReadIds(raw, st.readIds, r.readIds, st.order, st.filter, st.query);
  }

  /** Every event keeps the current page in range. */
  lemma StepKeepsValidPage(raw: seq<Notification>, st: PageState, e: PageEvent)
    requires ValidPage(raw, st)
    ensures ValidPage(raw, Step(raw, st, e))
  {
    var r := Step(raw, st, e);
    var total := Pages(raw, st);
    match e
    case SetFilter(_) =>
    case SetQuery(_) =>
    case SetOrder(_) =>
    case GoTo(p) =>
      if total > 1 && PageButton(p) in Controls(st.page, total) {
        ControlsWellFormed(st.page, total);
        var c := Controls(st.page, total);
        var k :| 0 <= k < |c| && c[k] == PageButton(p);
        BarPagesInRange(st.page, total, k);
      }
    case Prev =>
    case Next =>
    case Click(_) => PagesIgnoreReadState(raw, st, r);
    case MarkAll => PagesIgnoreReadState(raw, st, r);
    case StorageChanged(_) => PagesIgnoreReadState(raw, st, r);
  }

  /** Every button of the bar names a page in `[1, total]`. */
  lemma BarPagesInRange(current: int, total: int, k: int)
    requires 1 <= current <= total
    requires 0 <= k < |Controls(current, total)| && Controls(current, total)[k].PageButton?
    ensures 1 <= Controls(current, total)[k].page <= total
  {
    var w := Window(current, total);
    BarAt(w.first, w.last, total, k);
  }

  /** Read state only grows while storage keeps its flags: no event unmarks
      a notification, provided marked ids do not contain `-read` and any
      external storage change keeps the flags already set. */
  lemma ReadNeverReverts(raw: seq<Notification>, st: PageState, e: PageEvent)
    requires Synced(st)
    requires e.Click? ==> !Includes(e.id, KeySuffix)
    requires forall x :: x in raw ==> !Includes(x.id, KeySuffix)
    requires e.StorageChanged? ==> FlagsKept(st.storage, e.storage)
    ensures st.readIds <= Step(raw, st, e).readIds
    ensures Synced(Step(raw, st, e))
  {
    match e
    case Click(id) =>
      assert Step(raw, st, e) == MarkAsRead(st, id);
      ClickKeepsSynced(st, id);
    case MarkAll =>
      assert Step(raw, st, e) == MarkAllAsRead(raw, st);
      MarkAllKeepsSynced(raw, st);
    case StorageChanged(s) =>
      assert Step(raw, st, e) == OnStorage(st, s);
      ReadIdsMonotone(st.storage, s);
    case SetFilter(_) =>
    case SetQuery(_) =>
    case SetOrder(_) =>
    case GoTo(p) =>
      assert Step(raw, st, e).readIds == st.readIds && Step(raw, st, e).storage == st.storage;
    case Prev =>
    case Next =>
  }

  /** Marking one notification read backs the new id with a stored flag. */
  lemma ClickKeepsSynced(st: PageState, id: string)
    requires Synced(st)
    requires !Includes(id, KeySuffix)
    ensures Synced(MarkAsRead(st, id))
  {
    if id !in st.readIds {
      FlagAddsId(st.storage, id);
    }
  }

  /** Every listed id is the id of one of the page's notifications. */
  lemma ListedIdFromRaw(raw: seq<Notification>, st: PageState, id: string)
    requires id in ListedIds(raw, st)
    ensures exists n :: n in raw && n.id == id
  {
    var x :| x in Listed(raw, st) && x.id == id;
    var d := Decorate(raw, st.readIds);
    assert x in d;
    var j :| 0 <= j < |raw| && d[j] == x;
    assert raw[j] in raw && raw[j].id == id;
  }

  /** "Mark all as read" backs every id it adds with a stored flag. */
  lemma MarkAllKeepsSynced(raw: seq<Notification>, st: PageState)
    requires Synced(st)
    requires forall x :: x in raw ==> !Includes(x.id, KeySuffix)
    ensures Synced(MarkAllAsRead(raw, st))
  {
    var r := MarkAllAsRead(raw, st);
    ReadIdsMonotone(st.storage, r.storage);
    forall id | id in r.readIds - st.readIds
      ensures id in ReadIds(r.storage)
    {
      ListedIdFromRaw(raw, st, id);
      FlaggedIdIsRead(r.storage, id);
    }
  }

  /** The page as first rendered is synced, and a later storage event keeps
      every id marked since: what was marked read in memory is still read
      after the read set is rebuilt from storage. */
  lemma ReloadKeepsMarks(st: PageState, storage: Storage)
    requires Synced(st)
    requires FlagsKept(st.storage, storage)
    ensures Synced(Init(st.storage))
    ensures st.readIds <= OnStorage(st, storage).readIds
  {
    ReadIdsMonotone(st.storage, storage);
  }
}
