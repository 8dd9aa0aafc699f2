/** The notification bell of the header. It derives its notifications from
    the signed-in user's flags (today only an "email not confirmed" notice),
    counts the unread ones for a badge, and marks notifications read both in
    a per-mount id set and in browser storage. The translated title and
    message and the creation time are inputs. */
module NotificationBell {
  import opened JsValues
  import opened NotificationModel
  import opened ReadState

  const EmailConfirmationId: string := "email-confirmation"
  const ProfileRoute: string := "/profile"

  /** The bell's properties: both are optional. */
  datatype BellProps = BellProps(userEmail: Option<string>, isEmailConfirmed: Option<bool>)

  /** The ids marked read since the bell was mounted, browser storage, and
      whether the dropdown is open. */
  datatype BellState = BellState(session: set<string>, storage: Storage, isOpen: bool)

  function Mount(storage: Storage): (st: BellState)
    ensures st.session == {} && st.storage == storage && !st.isOpen
  {
    BellState({}, storage, false)
  }

  /** A notification is read when marked in this mount or flagged in storage. */
  predicate IsRead(st: BellState, id: string) {
    id in st.session || IsFlagged(st.storage, ReadKey(id))
  }

  /** The notice is due when the e-mail is not confirmed and there is an
      e-mail: an absent flag counts as unconfirmed, and an absent or empty
      e-mail as none. */
  predicate NeedsConfirmation(props: BellProps) {
    !props.isEmailConfirmed.GetOr(false) && TruthyString(props.userEmail)
  }

  /** The bell's notifications. */
  function Derive(props: BellProps, st: BellState, title: string, message: string, now: int): (r: seq<Notification>)
    ensures |r| <= 1
    ensures |r| == 1 <==> props.isEmailConfirmed != Some(true) && props.userEmail.Some? && props.userEmail.value != ""
    ensures |r| == 1 ==>
      && r[0].id == EmailConfirmationId && r[0].kind == EmailConfirmation
      && r[0].actionUrl == Some(ProfileRoute)
      && (r[0].read <==> IsRead(st, EmailConfirmationId))
  {
    if NeedsConfirmation(props) then
      [Notification(EmailConfirmationId, EmailConfirmation, title, message,
                    IsRead(st, EmailConfirmationId), now, Some(ProfileRoute))]
    else []
  }

  /** The number of unread notifications. */
  function UnreadCount(s: seq<Notification>): (n: nat)
    ensures n <= |s|
    ensures n == 0 <==> forall i :: 0 <= i < |s| ==> s[i].read
    ensures n == |s| <==> forall i :: 0 <= i < |s| ==> !s[i].read
  {
    if |s| == 0 then 0
    else (if s[0].read then 0 else 1) + UnreadCount(s[1..])
  }

  /** The badge text: hidden at zero, the count itself up to nine, `9+` above. */
  function Badge(count: nat): (r: Option<string>)
    ensures r.None? <==> count == 0
    ensures count > 9 ==> r == Some("9+")
    ensures 0 < count <= 9 ==> |r.value| == 1 && r.value[0] as int - '0' as int == count
  {
    if count == 0 then None
    else if count > 9 then Some("9+")
    else Some([(count + '0' as int) as char])
  }

  /** Marks one notification read in this mount and in storage. */
  function MarkAsRead(st: BellState, id: string): (r: BellState)
    ensures IsRead(r, id) && id in r.session && IsFlagged(r.storage, ReadKey(id))
    ensures st.session <= r.session && FlagsKept(st.storage, r.storage)
    ensures SameOutside(st.storage, r.storage, {ReadKey(id)})
    ensures r.isOpen == st.isOpen
  {
    st.(session := st.session + {id}, storage := st.storage[ReadKey(id) := Flag])
  }

  /** Marking read twice is marking read once. */
  lemma MarkAsReadIdempotent(st: BellState, id: string)
    ensures MarkAsRead(MarkAsRead(st, id), id) == MarkAsRead(st, id)
  {
  }

  /** Marks every current notification read. The per-mount set is replaced
      by the current ids, not extended, but every stored flag stays. */
  function MarkAllAsRead(st: BellState, current: seq<Notification>): (r: BellState)
    ensures r.session == set n | n in current :: n.id
    ensures forall n :: n in current ==> IsFlagged(r.storage, ReadKey(n.id))
    ensures FlagsKept(st.storage, r.storage)
    ensures r.isOpen == st.isOpen
  {
    var ids := seq(|current|, i requires 0 <= i < |current| => current[i].id);
    assert forall n :: n in current ==> n.id in ids by {
      forall n | n in current
        ensures n.id in ids
      {
        var i :| 0 <= i < |current| && current[i] == n;
        assert ids[i] == n.id;
      }
    }
    st.(session := set n | n in current :: n.id, storage := PersistAll(st.storage, ids))
  }

  /** After "mark all as read" the badge is hidden. */
  lemma MarkAllAsReadHidesBadge(props: BellProps, st: BellState, title: string, message: string, now: int)
    ensures var r := MarkAllAsRead(st, Derive(props, st, title, message, now));
      Badge(UnreadCount(Derive(props, r, title, message, now))).None?
  {
    var cur := Derive(props, st, title, message, now);
    var r := MarkAllAsRead(st, cur);
    if |cur| == 1 {
      assert cur[0] in cur;
      assert IsRead(r, EmailConfirmationId);
    }
  }

  /** Every id in the per-mount set also has its flag stored. */
  predicate SessionPersisted(st: BellState) {
    forall id :: id in st.session ==> IsFlagged(st.storage, ReadKey(id))
  }

  /** Neither marking operation unmarks anything: with the per-mount set
      backed by storage, a read notification stays read, even though "mark
      all" drops ids from the per-mount set. */
  lemma ReadStaysRead(st: BellState, id: string, other: string, current: seq<Notification>)
    requires SessionPersisted(st)
    requires IsRead(st, id)
    ensures SessionPersisted(MarkAsRead(st, other)) && IsRead(MarkAsRead(st, other), id)
    ensures SessionPersisted(MarkAllAsRead(st, current)) && IsRead(MarkAllAsRead(st, current), id)
  {
    var r := MarkAllAsRead(st, current);
    forall x | x in r.session
      ensures IsFlagged(r.storage, ReadKey(x))
    {
      var n :| n in current && n.id == x;
    }
  }

  /** Clicking a notification: it is marked read; when it links somewhere (a
      non-empty link) the bell navigates there and closes, otherwise it stays
      as it is. */
  datatype ClickResult = ClickResult(state: BellState, navigateTo: Option<string>)

  function Click(st: BellState, n: Notification): (r: ClickResult)
    ensures IsRead(r.state, n.id)
    ensures r.navigateTo.Some? <==> TruthyString(n.actionUrl)
    ensures r.navigateTo.Some? ==> r.navigateTo == n.actionUrl
    ensures r.state.isOpen == (st.isOpen && !TruthyString(n.actionUrl))
    ensures r.state.storage == MarkAsRead(st, n.id).storage && r.state.session == MarkAsRead(st, n.id).session
  {
    var marked := MarkAsRead(st, n.id);
    if TruthyString(n.actionUrl) then ClickResult(marked.(isOpen := false), n.actionUrl)
    else ClickResult(marked, None)
  }

  /** The bell button toggles the dropdown; a click outside closes it. */
  function Toggle(st: BellState): (r: BellState)
    ensures r.isOpen != st.isOpen && r.session == st.session && r.storage == st.storage
  {
    st.(isOpen := !st.isOpen)
  }

  function ClickOutside(st: BellState): (r: BellState)
    ensures !r.isOpen && r.session == st.session && r.storage == st.storage
  {
    st.(isOpen := false)
  }

  /** Clicking the bell's notice shows it read from then on and clears the
      badge; the count falls by one exactly when the notice was unread. */
  lemma ClickReadsNotice(props: BellProps, st: BellState, title: string, message: string, now: int)
    requires |Derive(props, st, title, message, now)| == 1
    ensures var before := Derive(props, st, title, message, now);
      var after := Derive(props, Click(st, before[0]).state, title, message, now);
      && |after| == 1 && after[0].read
      && UnreadCount(after) == 0
      && UnreadCount(before) == (if before[0].read then 0 else 1)
      && Badge(UnreadCount(after)).None?
  {
  }

  /** Opening, closing and clicking outside change nothing the bell lists. */
  lemma DropdownKeepsNotifications(props: BellProps, st: BellState, title: string, message: string, now: int)
    ensures Derive(props, Toggle(st), title, message, now) == Derive(props, st, title, message, now)
    ensures Derive(props, ClickOutside(st), title, message, now) == Derive(props, st, title, message, now)
    ensures Toggle(Toggle(st)) == st && ClickOutside(ClickOutside(st)) == ClickOutside(st)
    ensures ClickOutside(Toggle(ClickOutside(st))) == ClickOutside(st)
  {
  }

  /** Marking the confirmation notice read survives a remount: a new bell
      over the same storage, with an empty per-mount set, still shows it read. */
  lemma MarkSurvivesRemount(props: BellProps, st: BellState, title: string, message: string, now: int)
    ensures var s := Derive(props, Mount(MarkAsRead(st, EmailConfirmationId).storage), title, message, now);
      UnreadCount(s) == 0
  {
  }
}
