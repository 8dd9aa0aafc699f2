# social-app: decision logic of the client, in Dafny

A model of the logic inside social-app, a React/TypeScript client, and proofs
about it. The components render; the model keeps only what they decide:

- **The notification centre page.** Read flags are kept in browser storage under
  `notification-<id>-read`, and the read set is rebuilt from storage by parsing
  those keys. The list is decorated with read flags, sorted by time, filtered
  by type and by case-insensitive search, and paginated eight per page. A
  three-wide page window is shown, with first and last buttons and ellipses.
  Marking one item or all items read is modelled too.
- **The notification bell.** It derives an "e-mail not confirmed" notice, shows
  an unread badge capped at `9+`, and handles mark-as-read, mark-all and click.
- **The session controller** (`useAuth`). The start-up probe, login success,
  logout, profile update and fatal-error dismissal form a state machine over
  the user, the fatal error, the initialising flag and the token cookie.
- **The response interceptor** of the API client. A 401 triggers one refresh
  followed by one retry.
- **The password-strength meter.** It has a score from 0 to 4, a label, a
  colour and filled bar segments.
- **The error-message extractor.** It is copied into four forms.
- **The forms:** sign-in, forgot password, reset password, registration and
  profile editing. Each has its submit and settle transitions.
- **The sidebar's active-route rule** and its collapse requests.

Browser storage is a `map<string, string>`. The token cookie is an
`Option<string>`. Server calls are `Outcome`s: a value, or an error that may
carry a status and a body. Navigation, calls issued and callbacks fired are
values that the transitions return. Translated texts are represented by their
translation keys. Timestamps are integers.

Modules and files:

| file | modules |
|---|---|
| js_values.dfy | `JsValues`: `Option`, JSON values, truthiness, optional member access |
| js_strings.dfy | `JsStrings`: `startsWith`, `endsWith`, `includes`, first-occurrence `replace`, ASCII `toLowerCase` |
| js_arrays.dfy | `JsMath` (`min`, `max`, ceiling division), `JsArrays` (`slice`) |
| notification.dfy | `NotificationModel`: the notification record and its type |
| read_state.dfy | `ReadState`: storage keys, parsing them, the rebuilt read set |
| notification_list.dfy | `NotificationList`: decorate, sort, filter, paginate, page window |
| notifications_page.dfy | `NotificationsPage`: page state and its events |
| notification_bell.dfy | `NotificationBell` |
| http.dfy | `Http` (responses, errors, outcomes), `Users` (the user record) |
| interceptor.dfy | `Interceptor` |
| error_detail.dfy | `ErrorDetail` |
| session.dfy | `Session` |
| password_strength.dfy | `PasswordStrength` |
| login_form.dfy, forgot_password_form.dfy, reset_password_form.dfy, register_form.dfy, edit_profile_form.dfy | one module per form |
| sidebar.dfy | `Sidebar` |

## Model

| member | source | states |
|---|---|---|
| JsStrings.IndexOf | src/components/Notifications/NotificationsPage.tsx:52 | the position `replace` acts on: present iff the pattern occurs, and no earlier occurrence exists |
| JsStrings.ReplaceFirst | src/components/Notifications/NotificationsPage.tsx:52 | with an occurrence, the result is the text before the FIRST occurrence, the replacement, and the text after it; with none, the string is unchanged |
| JsStrings.IncludesLowerIff | src/components/Notifications/NotificationsPage.tsx:102-103 | lower-casing both strings and searching holds iff the query occurs in the text at some position ignoring ASCII case |
| JsMath.CeilDiv | src/components/Notifications/NotificationsPage.tsx:108 | the rounded-up quotient is the least count of `d`-sized groups that covers `n` |
| JsArrays.Slice | src/components/Notifications/NotificationsPage.tsx:109-112 | `slice` never grows the array, and for ordered non-negative bounds it is the clamped sub-range |
| JsValues.Member | src/components/Auth/ResetPassword.tsx:41-47 | optional member access yields a value only on an object that has the member |
| JsValues.First | src/components/Auth/ResetPassword.tsx:45 | `detail[0]` yields a value only on a non-empty array, and then its first element |
| ReadState.ReadKey | src/components/Notifications/NotificationsPage.tsx:118 | the written key starts with `notification-`, ends with `-read`, and wraps the id |
| ReadState.ParseKey | src/components/Notifications/NotificationsPage.tsx:51-52 | a key yields an id iff it has both the prefix and the suffix |
| ReadState.ReadIds | src/components/Notifications/NotificationsPage.tsx:46-59 | the rebuilt set holds the parsed id of every key whose value is exactly `"true"`, and nothing else |
| ReadState.ParseReadKey | src/components/Notifications/NotificationsPage.tsx:52 | parsing the key written for an id gives the id back, when the id does not contain `-read` (the key itself is written at line 118) |
| ReadState.ParseReadKeyCounterexample | src/components/Notifications/NotificationsPage.tsx:52 | the id `a-readb` parses back as `ab-read`: the second replace strips the inner `-read` (the key itself is written at line 118) |
| ReadState.FlagAddsId | src/components/Notifications/NotificationsPage.tsx:53-54 | storing `"true"` under an id's key adds exactly that id to the rebuilt set (the flag itself is written at line 118) |
| ReadState.OnlyTrueCounts | src/components/Notifications/NotificationsPage.tsx:53 | storing any other value under a key acts as removing the key |
| ReadState.ReadIdsMonotone | src/components/Notifications/NotificationsPage.tsx:62-75 | storage that keeps every flag rebuilds a superset of the read ids |
| ReadState.FlaggedIdIsRead | src/components/Notifications/NotificationsPage.tsx:46-59 | an id free of `-read` whose flag is stored is in the rebuilt set (the flag itself is written at line 118) |
| ReadState.PersistAll | src/components/ui/NotificationBell.tsx:66-68 | storing `"true"` for each id in turn flags every id, keeps all other flags, and changes no other key |
| NotificationList.Decorate | src/components/Notifications/NotificationsPage.tsx:86-89 | same length and items except `read`, which holds iff the id is in the read set |
| NotificationList.Insert | src/components/Notifications/NotificationsPage.tsx:92-96 | inserting adds exactly one copy of the item |
| NotificationList.InsertSorted | src/components/Notifications/NotificationsPage.tsx:92-96 | inserting into a sorted list keeps it sorted |
| NotificationList.SortByTime | src/components/Notifications/NotificationsPage.tsx:92-96 | the sort is a permutation; under `newest` times do not increase, under `oldest` they do not decrease |
| NotificationList.InsertStable | src/components/Notifications/NotificationsPage.tsx:92-96 | insertion puts the new item ahead of every item with its own creation time and keeps their order |
| NotificationList.SortStable | src/components/Notifications/NotificationsPage.tsx:92-96 | the sort is stable: for every creation time, the items created then keep their relative order |
| NotificationList.Arrange | src/components/Notifications/NotificationsPage.tsx:84-97 | the sorted list is a permutation of the decorated list, and each `read` equals membership in the read set |
| NotificationList.FilterList | src/components/Notifications/NotificationsPage.tsx:99-106 | an item is kept iff it matches the type filter (`all` matches everything) and contains the query in title or message ignoring case, and every copy of a kept item is kept |
| NotificationList.FilterIsSubsequence | src/components/Notifications/NotificationsPage.tsx:99-106 | filtering keeps the order of the sorted list |
| NotificationList.SubsequenceSorted | src/components/Notifications/NotificationsPage.tsx:99-106 | filtering a sorted list leaves it sorted and adds no item |
| NotificationList.View | src/components/Notifications/NotificationsPage.tsx:84-106 | the listed items are an order-preserving subsequence of the sorted list, exactly the matching items with correct read flags, each as many times as in the decorated list |
| NotificationList.InsertStrip | src/components/Notifications/NotificationsPage.tsx:92-96 | the insertion position does not depend on read flags |
| NotificationList.SortStrip | src/components/Notifications/NotificationsPage.tsx:92-96 | sorting commutes with forgetting read flags |
| NotificationList.FilterStrip | src/components/Notifications/NotificationsPage.tsx:99-106 | filtering commutes with forgetting read flags |
| NotificationList.ViewIgnoresReadIds | src/components/Notifications/NotificationsPage.tsx:84-106 | two read sets list the same items in the same order and the same number of them |
| NotificationList.TotalPages | src/components/Notifications/NotificationsPage.tsx:108 | the page count is the least number of eight-item pages covering the list (eight is the page size of line 34) |
| NotificationList.PageSlice | src/components/Notifications/NotificationsPage.tsx:109-112 | a page holds at most eight items, and its `i`-th item is item `(page-1)*8+i` of the list |
| NotificationList.PageSliceNonEmpty | src/components/Notifications/NotificationsPage.tsx:109-112 | every existing page holds at least one item |
| NotificationList.PagesCoverList | src/components/Notifications/NotificationsPage.tsx:108-112 | pages `1..totalPages`, concatenated, give back the filtered list |
| NotificationList.ConcatPagesPrefix | src/components/Notifications/NotificationsPage.tsx:109-112 | the first `k` pages are the prefix of `8k` items, clamped to the list |
| NotificationList.Label | src/components/Notifications/NotificationsPage.tsx:291-295 | on every existing page, `1 <= start <= end <= total`; a page holds at most eight items, and every page but the last exactly eight |
| NotificationList.LabelMatchesSlice | src/components/Notifications/NotificationsPage.tsx:291-295 | on every existing page, `end - start + 1` is the size of the page and both lie within the list |
| NotificationList.Window | src/components/Notifications/NotificationsPage.tsx:310-317 | for `1 <= current <= total`, `1 <= start <= current <= end <= total` and the window has `min(3, total)` pages |
| NotificationList.Buttons | src/components/Notifications/NotificationsPage.tsx:336-351 | one button per page of the window, in order |
| NotificationList.Bar | src/components/Notifications/NotificationsPage.tsx:320-366 | the bar shows a button for page 1 iff the window starts after it, for every page of the window, and for the last page iff the window ends before it; an ellipsis appears iff a page is skipped at either end |
| NotificationList.Controls | src/components/Notifications/NotificationsPage.tsx:308-366 | for a current page in range the bar shows page 1, the current page and the last page, and only pages in range: the ends and pages at most two away from the current one |
| NotificationList.BarAt | src/components/Notifications/NotificationsPage.tsx:320-366 | the position of every control: a first-page button iff the window starts after page 1, an ellipsis iff it starts after page 2, then the window, and symmetrically at the end |
| NotificationList.BarEllipses | src/components/Notifications/NotificationsPage.tsx:330-356 | an ellipsis stands only between two buttons that skip at least one page |
| NotificationList.BarConsecutive | src/components/Notifications/NotificationsPage.tsx:320-366 | adjacent buttons show consecutive pages |
| NotificationList.BarEnds | src/components/Notifications/NotificationsPage.tsx:320-366 | for a window inside `[1, total]`, the bar opens with page 1, closes with the last page, and shows the current page when the window holds it |
| NotificationList.BarWellPlaced | src/components/Notifications/NotificationsPage.tsx:320-366 | ellipses only stand between buttons that skip pages, and adjacent buttons show consecutive pages |
| NotificationList.ControlsWellFormed | src/components/Notifications/NotificationsPage.tsx:308-366 | the bar starts at page 1, ends at the last page, contains the current page, and is well placed |
| NotificationList.PrevNextClamp | src/components/Notifications/NotificationsPage.tsx:299-300 | previous and next stay in `[1, totalPages]`, and each is a no-op exactly when it is disabled (the next button is at lines 373-374) |
| NotificationList.PrevPage | src/components/Notifications/NotificationsPage.tsx:299 | the previous page, but never before page 1 |
| NotificationList.NextPage | src/components/Notifications/NotificationsPage.tsx:373 | the next page, but never after the last page |
| NotificationsPage.Init | src/components/Notifications/NotificationsPage.tsx:40-59 | the page opens on page 1, all types, empty search, newest first, with the read set rebuilt from storage |
| NotificationsPage.Listed | src/components/Notifications/NotificationsPage.tsx:84-106 | the listed items are sorted in the chosen order, and are exactly the raw items, with their read flags set from the read set, that match the filter and the search |
| NotificationsPage.Pages | src/components/Notifications/NotificationsPage.tsx:108 | the least number of eight-item pages covering the listed items; none iff nothing is listed |
| NotificationsPage.Shown | src/components/Notifications/NotificationsPage.tsx:109-112 | at most eight items; item `i` is listed item `(page-1)*8+i`; an existing page is never empty |
| NotificationsPage.Unread | src/components/Notifications/NotificationsPage.tsx:122 | the unread items of a list; none iff every item is read (the same count drives the button at line 153) |
| NotificationsPage.MarkAsRead | src/components/Notifications/NotificationsPage.tsx:114-119 | a read id leaves the state unchanged; otherwise the id is added and its flag stored, and no other key changes |
| NotificationsPage.MarkAsReadIdempotent | src/components/Notifications/NotificationsPage.tsx:114-119 | marking twice is marking once |
| NotificationsPage.UnreadIds | src/components/Notifications/NotificationsPage.tsx:122-123 | the ids of the listed unread items; empty iff the "mark all" button is hidden |
| NotificationsPage.MarkAllAsRead | src/components/Notifications/NotificationsPage.tsx:121-131 | no-op without listed unread items; otherwise every listed item becomes read and every listed unread item flagged, only listed ids are added, no key outside the flags of the listed unread ids changes, and no flag is lost |
| NotificationsPage.AddAll | src/components/Notifications/NotificationsPage.tsx:125-130 | the read set grows by exactly the given ids, each of them gets its flag, no other key changes, and the view settings stay |
| NotificationsPage.MarkAllAsReadClearsUnread | src/components/Notifications/NotificationsPage.tsx:121-131 | after "mark all" the listed unread count is zero (the button is shown by line 153) |
| NotificationsPage.OnStorage | src/components/Notifications/NotificationsPage.tsx:62-75 | a storage event replaces the read set by exactly the set rebuilt from storage |
| NotificationsPage.ChangingViewResetsPage | src/components/Notifications/NotificationsPage.tsx:188-224 | changing the filter, search or order returns to page 1 and leaves the read state alone |
| NotificationsPage.Step | src/components/Notifications/NotificationsPage.tsx:188-374 | only a click, "mark all" or a storage event touches the read state, and those keep the page and view; the pagination events do nothing with one page or none, and a page button only leads to a page the bar shows (the marking events are lines 114-131) |
| NotificationsPage.PagesIgnoreReadState | src/components/Notifications/NotificationsPage.tsx:84-108 | the page count does not depend on the read state |
| NotificationsPage.StepKeepsValidPage | src/components/Notifications/NotificationsPage.tsx:288-374 | every event keeps the current page between 1 and the page count (the events are those of lines 108-131 and the page buttons) |
| NotificationsPage.BarPagesInRange | src/components/Notifications/NotificationsPage.tsx:308-366 | every page button names a page in `[1, totalPages]` |
| NotificationsPage.ListedIdFromRaw | src/components/Notifications/NotificationsPage.tsx:84-106 | every listed id belongs to a raw notification |
| NotificationsPage.MarkAllKeepsSynced | src/components/Notifications/NotificationsPage.tsx:121-131 | after "mark all" every in-memory read id still has its stored flag |
| NotificationsPage.ClickKeepsSynced | src/components/Notifications/NotificationsPage.tsx:114-119 | clicking an id free of `-read` keeps every in-memory read id backed by a stored flag that rebuilds it |
| NotificationsPage.ReadNeverReverts | src/components/Notifications/NotificationsPage.tsx:114-131 | no event unmarks an id, and every in-memory read id stays backed by storage, as long as storage events keep flags (storage events are handled at lines 62-75) |
| NotificationsPage.ReloadKeepsMarks | src/components/Notifications/NotificationsPage.tsx:46-75 | a reopened page rebuilds every stored mark, and a storage event keeps every id marked in memory |
| NotificationBell.Mount | src/components/ui/NotificationBell.tsx:13-19 | the bell mounts closed with an empty per-mount read set |
| NotificationBell.IsRead | src/components/ui/NotificationBell.tsx:28-29 | a notification is read when marked in this mount or when its flag is stored |
| NotificationBell.Derive | src/components/ui/NotificationBell.tsx:22-43 | exactly one notice (`email-confirmation`, e-mail confirmation type, link `/profile`) iff the e-mail is not confirmed and the address is non-empty; its `read` is the bell's read test |
| NotificationBell.UnreadCount | src/components/ui/NotificationBell.tsx:56 | the count is zero iff every item is read, and the full length iff none is |
| NotificationBell.Badge | src/components/ui/NotificationBell.tsx:113-117 | hidden iff the count is zero, `9+` above nine, otherwise the single digit of the count |
| NotificationBell.MarkAsRead | src/components/ui/NotificationBell.tsx:58-61 | the id joins the per-mount set and its flag is stored; nothing is lost and no other key changes |
| NotificationBell.MarkAsReadIdempotent | src/components/ui/NotificationBell.tsx:58-61 | marking twice is marking once |
| NotificationBell.MarkAllAsRead | src/components/ui/NotificationBell.tsx:63-69 | the per-mount set becomes exactly the current ids (replaced, not extended); every current id is flagged and no flag is lost |
| NotificationBell.MarkAllAsReadHidesBadge | src/components/ui/NotificationBell.tsx:63-69 | after "mark all" the badge is hidden (the count is line 56 and the badge line 113) |
| NotificationBell.ReadStaysRead | src/components/ui/NotificationBell.tsx:58-69 | while the per-mount set is backed by storage, neither marking operation makes a read item unread, even though "mark all" shrinks the set (read state is checked at lines 28-29) |
| NotificationBell.Click | src/components/ui/NotificationBell.tsx:71-77 | a click always marks the item read; it navigates to the link and closes the dropdown iff the link is non-empty |
| NotificationBell.Toggle | src/components/ui/NotificationBell.tsx:104 | the bell button flips the dropdown and touches nothing else |
| NotificationBell.ClickOutside | src/components/ui/NotificationBell.tsx:46-54 | a click outside closes the dropdown and touches nothing else |
| NotificationBell.ClickReadsNotice | src/components/ui/NotificationBell.tsx:71-77 | clicking the notice shows it read from then on and hides the badge; the count falls by one exactly when it was unread |
| NotificationBell.DropdownKeepsNotifications | src/components/ui/NotificationBell.tsx:46-54 | opening, closing and clicking outside change nothing listed; two toggles restore the state and clicking outside twice is clicking once (the toggle is line 104) |
| NotificationBell.MarkSurvivesRemount | src/components/ui/NotificationBell.tsx:58-61 | a notice marked read is still read by a freshly mounted bell over the same storage (storage is read back at lines 28-29) |
| Http.StatusOf | src/hooks/useAuth.ts:24 | the status is present iff the server answered |
| Http.DetailOf | src/components/Auth/ResetPassword.tsx:41 | `error.response?.data?.detail` is present iff there is a response whose body is an object with a `detail` member |
| Interceptor.BaseUrl | src/lib/axios.ts:4 | a non-empty setting is the base; an unset or empty one falls back to `http://localhost:8000`; the base is never empty |
| Interceptor.RefreshUrl | src/lib/axios.ts:21 | the refresh endpoint is `/refresh` under the same base |
| Interceptor.RefreshUrlDeterminesBase | src/lib/axios.ts:21 | stripping `/refresh` from the refresh address gives back the API base, so two settings share a refresh address iff they share a base; unset and empty settings both mean the local server |
| Interceptor.OnError | src/lib/axios.ts:11-36 | refresh-and-retry iff the status is 401 and the request is untagged, and the retry is the same request tagged; otherwise the original error is rejected |
| Interceptor.Dispatch | src/lib/axios.ts:9-38 | a response passes through unchanged; a rejected error is the original one; a failed refresh rejects with the refresh error and sends nothing more; otherwise the tagged retry's outcome is final; at most two sends and one refresh |
| Interceptor.TaggedRequestSentOnce | src/lib/axios.ts:36 | a tagged request is sent once and never refreshed (the guard on the tag is line 15) |
| Interceptor.AtMostOneRetry | src/lib/axios.ts:15-27 | for any server, at most one refresh and two sends, and after a retry the result is the tagged request's own outcome |
| Interceptor.PersistentUnauthorizedRejected | src/lib/axios.ts:15-36 | a server that always answers 401 is asked twice, refreshed once, and the call rejects with a 401 |
| ErrorDetail.Extract | src/components/login/Login.tsx:31-38 | a string detail verbatim (even empty); an array's first `msg` if truthy; an object's `msg` if truthy; else the fallback |
| ErrorDetail.MessageFor | src/components/Profile/EditProfile.tsx:32-39 | without a response the message is the fallback |
| ErrorDetail.ExtractComesFrom | src/components/Auth/ForgotPassword.tsx:19-26 | every message is the fallback, the detail string, or a truthy `msg` of the detail or its first element |
| ErrorDetail.FormsAgreeUpToFallback | src/components/Auth/ResetPassword.tsx:41-48 | the four copies give the same message unless both fall back |
| ErrorDetail.ExtractShown | src/components/login/Login.tsx:31-40 | with a non-empty fallback the message is shown unless the detail is the empty string (the message is rendered at line 76) |
| Session.Initial | src/hooks/useAuth.ts:9-11 | the controller starts with no user, no fatal error, and initialising |
| Session.ServerFault | src/hooks/useAuth.ts:24 | the failed start-up query counts as a fault when there was no response or the status is 500 or more |
| Session.Start | src/hooks/useAuth.ts:15-42 | the probe runs iff the token is non-empty; a user signs in; a missing response or a 5xx sets the fatal error with the error's message and keeps the token; any other failure removes the token and the user; initialising ends on every path |
| Session.Logout | src/hooks/useAuth.ts:44-48 | the token and user are dropped and the app goes to `/login`, with no server call |
| Session.LoginSucceeded | src/hooks/useAuth.ts:50-62 | a fetched user is stored and the app goes home; any failure, 401 included, sets the fatal error |
| Session.UpdateUser | src/hooks/useAuth.ts:64-66 | replaces the user and nothing else |
| Session.ResetFatalError | src/hooks/useAuth.ts:68-71 | clears the fatal error and the user |
| Session.StartPhases | src/hooks/useAuth.ts:15-42 | after start-up the app is signed out iff there is no token or the session was refused, fatal iff the server faulted, signed in iff a user came back |
| Session.RefusalIsNotFatal | src/hooks/useAuth.ts:24-32 | a refused session is never fatal and drops the token |
| Session.LoginPhases | src/hooks/useAuth.ts:50-62 | after the login form succeeded, a fetched user signs in (unless a fatal error is showing) and any failed fetch is fatal; the login never ends signed out |
| Session.RefusalFatalOnlyAfterLogin | src/hooks/useAuth.ts:50-62 | the same refused query signs out at start-up but is fatal after a login (start-up treats refusals at lines 24-32) |
| Session.UpdateKeepsSession | src/hooks/useAuth.ts:64-66 | an update keeps a signed-in session signed in, signs in a signed-out one, leaves loading and fatal phases as they were, and a logout forgets it |
| Session.SignedOutAfterLogoutOrReset | src/hooks/useAuth.ts:44-71 | after logout or a dismissed fatal error nobody is signed in |
| PasswordStrength.Strength | src/components/Register/Register.tsx:15-23 | the score lies in 0..4 and is 0 for an empty password |
| PasswordStrength.StrengthCountsCriteria | src/components/Auth/ResetPassword.tsx:53-61 | a non-empty password scores the number of criteria it meets: length at least 8, both cases, a digit, a character outside `[A-Za-z0-9]` |
| PasswordStrength.MetGrows | src/components/Register/Register.tsx:18-21 | appending characters keeps every criterion met |
| PasswordStrength.StrengthMonotone | src/components/Register/Register.tsx:15-23 | appending characters never lowers the score |
| PasswordStrength.StrongPassword | src/components/Register/Register.tsx:18-21 | meeting all four criteria scores 4 |
| PasswordStrength.Label | src/components/Register/Register.tsx:47-56 | scores 0..4 get the table's entry for that score, anything else the empty default; the reset form's translation keys (src/components/Auth/ResetPassword.tsx lines 74-83) are a second table for the same lookup |
| PasswordStrength.Colour | src/components/Register/Register.tsx:36-45 | every colour differs from the unfilled segment colour, and the default repeats the colour of score 0 |
| PasswordStrength.ScoresDistinguished | src/components/Auth/ResetPassword.tsx:63-83 | scores 0..4 have five distinct labels, keys and colours |
| PasswordStrength.DefaultUnreachable | src/components/Register/Register.tsx:54 | no password reaches the default label branch |
| PasswordStrength.Segments | src/components/Register/Register.tsx:159-166 | segment `step` is coloured iff the score is at least `step` |
| PasswordStrength.FilledSegments | src/components/Auth/ResetPassword.tsx:212-218 | exactly `strength` of the four segments are filled |
| LoginForm.Init | src/components/login/Login.tsx:15-17 | the form starts empty, with no error shown and nothing pending |
| LoginForm.Submit | src/components/login/Login.tsx:44-50 | nothing while pending; otherwise the error is cleared and the call goes out with the typed e-mail and password (the button is disabled at line 136) |
| LoginForm.Settle | src/components/login/Login.tsx:19-41 | on success the cookie holds the returned token and the same token is handed to the caller; on failure the extracted message is shown with the sign-in fallback |
| LoginForm.NoStaleError | src/components/login/Login.tsx:30-48 | after a submit and its answer, no error from an earlier attempt is shown |
| LoginForm.FailureShown | src/components/login/Login.tsx:38-40 | a failure without a detail shows the fallback |
| ForgotPasswordForm.Init | src/components/Auth/ForgotPassword.tsx:9-11 | the form starts unsubmitted with no error |
| ForgotPasswordForm.ScreenOf | src/components/Auth/ForgotPassword.tsx:40 | the confirmation screen shows iff the request was submitted |
| ForgotPasswordForm.Submit | src/components/Auth/ForgotPassword.tsx:32-38 | nothing while pending; otherwise the error is cleared and the request goes out (the button is disabled at line 123) |
| ForgotPasswordForm.Settle | src/components/Auth/ForgotPassword.tsx:13-29 | `submitted` becomes true only on success; a failure shows the extracted message with its fallback |
| ForgotPasswordForm.ConfirmationOnlyOnSuccess | src/components/Auth/ForgotPassword.tsx:40 | from the form, the confirmation screen is reached iff the request succeeds (the confirmation screen is chosen at lines 15-17) |
| ResetPasswordForm.Init | src/components/Auth/ResetPassword.tsx:10-16 | the form starts verifying, not successful, nothing pending |
| ResetPasswordForm.Verify | src/components/Auth/ResetPassword.tsx:18-33 | the verify call is made iff the token is non-empty; the form opens iff it succeeds, otherwise the link is invalid |
| ResetPasswordForm.Submit | src/components/Auth/ResetPassword.tsx:85-93 | nothing while pending; different passwords show the mismatch message with no call; otherwise the error is cleared and the call carries the token (or `''`) and the password (the button is disabled at line 236; the token comes from line 36) |
| ResetPasswordForm.Settle | src/components/Auth/ResetPassword.tsx:35-51 | success is set only by a successful call; a failure shows the extracted message with `common.error` as fallback |
| ResetPasswordForm.MeterOf | src/components/Auth/ResetPassword.tsx:205-219 | the meter shows iff the password is non-empty, with a non-empty label and `strength` filled segments |
| ResetPasswordForm.OnlyConfirmedPasswordsSent | src/components/Auth/ResetPassword.tsx:85-93 | the server only receives a password that equals its confirmation |
| ResetPasswordForm.CallCarriesToken | src/components/Auth/ResetPassword.tsx:36 | a present token is sent unchanged |
| RegisterForm.Step | src/components/Register/Register.tsx:25-34 | submit sets loading and is a no-op while loading; the timer clears loading; each typing event replaces only its own field (name at line 98, e-mail at 121, password at 144) and leaves loading alone (the button is disabled at line 178) |
| RegisterForm.Run | src/components/Register/Register.tsx:8-11 | over any run of events a field changes only if its own typing event occurs, and a run of typing alone leaves loading as it was |
| RegisterForm.LastNameWins | src/components/Register/Register.tsx:98 | the name held is the last name typed |
| RegisterForm.LastEmailWins | src/components/Register/Register.tsx:121 | the e-mail held is the last e-mail typed |
| RegisterForm.StaysLoading | src/components/Register/Register.tsx:25-34 | a loading form stays loading through any run of events without the timer |
| RegisterForm.LoadingUntilTimer | src/components/Register/Register.tsx:25-34 | after a submit only the timer ends loading |
| RegisterForm.TimerEndsLoading | src/components/Register/Register.tsx:30-33 | a run that ends with the timer leaves the form not loading |
| RegisterForm.MeterOf | src/components/Register/Register.tsx:152-167 | the meter shows iff the password is non-empty, with a non-empty label and `strength` filled segments |
| EditProfileForm.Init | src/components/Profile/EditProfile.tsx:19-22 | the name starts as the user's name; password and messages start empty |
| EditProfileForm.Payload | src/components/Profile/EditProfile.tsx:25 | the payload always has the name, has the password iff one was typed, and has no other member |
| EditProfileForm.PayloadOmitsEmail | src/components/Profile/EditProfile.tsx:118-122 | the e-mail is never sent (the e-mail field is read-only state from line 25) |
| EditProfileForm.EmailReadOnly | src/components/Profile/EditProfile.tsx:118-122 | the shown e-mail is the user's: neither submitting nor settling changes it, and no update carries one |
| EditProfileForm.Submit | src/components/Profile/EditProfile.tsx:46-53 | nothing while pending; otherwise both messages are cleared and the update goes out with the payload (the button is disabled at line 175) |
| EditProfileForm.Settle | src/components/Profile/EditProfile.tsx:24-44 | on success the caller gets the returned user and the app goes to `/profile` carrying the success key, and a message travels only with that navigation; on failure the extracted message is shown, the success message cleared, and nothing navigates |
| EditProfileForm.SubmitThenSettle | src/components/Profile/EditProfile.tsx:24-53 | one submission that settles: success leaves no error and navigates with the success key; failure shows the error, keeps what was typed, and a second submit sends the same update again |
| Sidebar.IsActive | src/components/Layout/Sidebar.tsx:51-54 | `/` is active iff the path is exactly `/`; any other route is active iff the path starts with it |
| Sidebar.ActiveItems | src/components/Layout/Sidebar.tsx:81-82 | a menu item is highlighted iff its route is active |
| Sidebar.SettingsLightsProfileToo | src/components/Layout/Sidebar.tsx:32-54 | on `/profile/edit` the profile and settings items are lit, the others are not |
| Sidebar.ProfilePrefixIsTextual | src/components/Layout/Sidebar.tsx:53 | any path that begins with `/profile`, such as `/profileX`, lights the profile item |
| Sidebar.DashboardExact | src/components/Layout/Sidebar.tsx:24-54 | the dashboard is lit iff the path is `/`, and then no other item is |
| Sidebar.OnEvent | src/components/Layout/Sidebar.tsx:59-77 | the toggle asks for the opposite state; the backdrop exists only while expanded and asks to collapse; an item navigates to its route; logout fires only on its button (items navigate at line 86 and logout is line 117) |
| Sidebar.ToggleTwiceRestores | src/components/Layout/Sidebar.tsx:73 | two toggles ask for the starting state again |

## Left out

- LoginForm.Submit: models the submit handler only. The browser's constraint validation is not modelled: `required` and `type="email"` at src/components/login/Login.tsx:97-114 keep the handler from running on an empty or malformed field, and the model would still send that call.
- ForgotPasswordForm.Submit: models the handler only. The browser check of the `required` e-mail field (src/components/Auth/ForgotPassword.tsx:111-116) is not modelled, so an empty e-mail is sent.
- ResetPasswordForm.Submit: models the handler only. The `required` password fields (src/components/Auth/ResetPassword.tsx:202, 231) are not checked, so two empty matching passwords are sent.
- EditProfileForm.Submit: models the handler only. The `required` name field (src/components/Profile/EditProfile.tsx:146) is not checked, so an empty name is sent.
- RegisterForm.Step: a submit sets loading even when a `required` field is empty (src/components/Register/Register.tsx:101, 124, 147), because the browser's form validation is not modelled.
- Rendering: JSX, CSS classes, icons and the per-type colour and icon tables of the page and the bell. Only the strength colours are kept, as tags.
- Logging (`console.*`), the query-cache invalidation after a profile update, `history` and `window.location`: they have no effect on the modelled state.
- The mock notification generator of the page. The raw notifications are a parameter.
- Concurrency. Each event runs to completion. React batching, in-flight promises after unmount, and races between tabs are not modelled. A storage event is a single step that carries the whole new storage.
- Time. `createdAt` is an integer, and the bell's creation time is a parameter.
- Locale. `toLowerCase` folds ASCII letters only, and `toLocaleDateString` is left out.
- Translation. `t()` is not modelled; messages are their translation keys, and the bell's title and message are parameters.
- `Array.prototype.sort` is modelled as a stable insertion sort on `createdAt`. The comparator's difference of timestamps orders the same way, and equal timestamps keep their input order as in a stable sort (`NotificationList.SortStable`). ECMAScript has required a stable sort since the 2019 edition.
- Browser storage enumeration order: the rebuilt read set does not depend on it.
- Networking. Each server answer is a parameter: the probe, the login, the updates and the refresh. `src/services/auth.service.ts` has no `getUser`, `passwordResetRequest`, `passwordResetVerify` or `passwordReset`. The calls that use them are modelled by the outcome they would settle with, and a call that throws is an `Err` outcome like any other rejection.
- The interceptor's server is a function of the request. Its tagged retry may get a different answer from the untagged first try, but two identical requests get the same answer.
- The refresh call goes through the bare client. It is a single outcome and never passes through `Interceptor.Dispatch`, so it cannot recurse.
- `src/App.tsx` renders the sign-in form without its success callback. Each file is modelled as written, and the callback is the `handedOver` value of `LoginForm.Settle`.
- The registration form's timer is the `TimerFired` event. Its 1.5 s delay is not modelled.
- The type definitions of the user record are not part of this model. `Users.User` carries the fields the modelled components read.
- NotificationsPage.ReadNeverReverts: assumes that notification ids do not contain `-read`, because such an id is stored under a key that parses to a different id (see `ReadState.ParseReadKeyCounterexample`). It also assumes that a storage event keeps every flag. Another tab can clear storage, and then marks are lost.
- PasswordStrength.Strength: counts characters as Dafny characters. The browser's `length` counts UTF-16 code units, so a character outside the Basic Multilingual Plane counts twice there.
