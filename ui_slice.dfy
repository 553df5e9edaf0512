/** The client's UI store: the colour theme, the notification list, the
    post-editor and image-preview modals, the toast and the sidebar. Each
    reducer is a method that updates the state in place; the unread-count
    selector is a function of the notification list. */
module UiSlice {
  import opened Common

  /** A notification as the list keeps it. `id` defaults to the clock in
      milliseconds and `timestamp` to the current time; `body` stands for
      the remaining fields of the payload (title, message, kind), which the
      reducers carry along without looking at them. */
  datatype Notification = Notification(id: int, timestamp: int, read: bool, body: string)

  /** The payload of `addNotification`. Its fields are spread over the
      defaults, so any of `id`, `timestamp` and `read` it carries wins. */
  datatype NotificationPayload = NotificationPayload(id: Option<int>, timestamp: Option<int>, read: Option<bool>, body: string)

  datatype Modals = Modals(isCreatePostExpanded: bool, isImagePreviewOpen: bool, currentImageUrl: Option<string>)

  /** `message` is whatever the payload carried, possibly nothing. */
  datatype Toast = Toast(isVisible: bool, message: Option<string>, kind: string)

  datatype Sidebar = Sidebar(isOpen: bool, activeTab: string)

  /** `toggleTheme`: "midnight" becomes "light", anything else "midnight". */
  function Toggled(theme: string): (r: string)
    ensures r == "light" <==> theme == "midnight"
    ensures r == "midnight" <==> theme != "midnight"
  {
    if theme == "midnight" then "light" else "midnight"
  }

  /** Between the two themes the application offers, toggling twice is the identity. */
  lemma ToggleTwice(theme: string)
    requires theme == "midnight" || theme == "light"
    ensures Toggled(Toggled(theme)) == theme
  {
  }

  /** The notification `addNotification` builds: defaults, then the payload. */
  function NewNotification(payload: NotificationPayload, clock: int, isoTime: int): (n: Notification)
    ensures n.id == OrElse(payload.id, clock, clock)
    ensures n.timestamp == OrElse(payload.timestamp, isoTime, isoTime)
    ensures n.read == (payload.read.Some? && payload.read.value)
    ensures n.body == payload.body
  {
    Notification(
      if payload.id.Some? then payload.id.value else clock,
      if payload.timestamp.Some? then payload.timestamp.value else isoTime,
      if payload.read.Some? then payload.read.value else false,
      payload.body)
  }

  /** The entries `!notif.read` keeps. */
  function Unread(ns: seq<Notification>): seq<Notification>
  {
    Filter(ns, (n: Notification) => !n.read)
  }

  /** `selectUnreadNotificationsCount`. */
  function UnreadCount(ns: seq<Notification>): (c: nat)
    ensures c <= |ns|
  {
    |Unread(ns)|
  }

  /** The count is zero exactly when every entry has been read. */
  lemma {:induction false} UnreadCountZero(ns: seq<Notification>)
    ensures UnreadCount(ns) == 0 <==> forall i :: 0 <= i < |ns| ==> ns[i].read
  {
    if forall i :: 0 <= i < |ns| ==> ns[i].read {
      FilterNone(ns, (n: Notification) => !n.read);
    } else {
      var i :| 0 <= i < |ns| && !ns[i].read;
      FilterMembers(ns, (n: Notification) => !n.read);
      assert ns[i] in Unread(ns);
    }
  }

  /** A new entry adds one to the count exactly when it is unread. */
  lemma AddedCount(n: Notification, ns: seq<Notification>)
    ensures UnreadCount([n] + ns) == UnreadCount(ns) + (if n.read then 0 else 1)
  {
    assert ([n] + ns)[1..] == ns;
  }

  /** `removeNotification`: the entries whose id differs from `id`. */
  function Removed(ns: seq<Notification>, id: int): seq<Notification>
  {
    Filter(ns, (n: Notification) => n.id != id)
  }

  /** Removal drops every entry with the id, keeps every other entry as
      many times as it occurred, and keeps their order. */
  lemma RemovedSpec(ns: seq<Notification>, id: int)
    ensures forall n: Notification :: n in Removed(ns, id) <==> n in ns && n.id != id
    ensures forall n: Notification :: n.id != id ==> multiset(Removed(ns, id))[n] == multiset(ns)[n]
    ensures IsSubsequence(Removed(ns, id), ns)
  {
    FilterMembers(ns, (n: Notification) => n.id != id);
    FilterIsSubsequence(ns, (n: Notification) => n.id != id);
    forall n: Notification | n.id != id
      ensures multiset(Removed(ns, id))[n] == multiset(ns)[n]
    {
      FilterCount(ns, (n: Notification) => n.id != id, n);
    }
  }

  /** Removal never raises the unread count. */
  lemma {:induction false} RemovedUnread(ns: seq<Notification>, id: int)
    ensures UnreadCount(Removed(ns, id)) <= UnreadCount(ns)
  {
    if ns != [] {
      RemovedUnread(ns[1..], id);
      assert ns == [ns[0]] + ns[1..];
      AddedCount(ns[0], ns[1..]);
      if ns[0].id != id {
        assert Removed(ns, id) == [ns[0]] + Removed(ns[1..], id);
        AddedCount(ns[0], Removed(ns[1..], id));
      } else {
        assert Removed(ns, id) == Removed(ns[1..], id);
      }
    }
  }

  /** `markNotificationAsRead`: the first entry with the id becomes read. */
  function MarkRead(ns: seq<Notification>, id: int): (r: seq<Notification>)
    ensures |r| == |ns|
    ensures forall i :: 0 <= i < |ns| ==> r[i] == ns[i].(read := r[i].read)
  {
    if ns == [] then []
    else if ns[0].id == id then [ns[0].(read := true)] + ns[1..]
    else [ns[0]] + MarkRead(ns[1..], id)
  }

  /** When the first entry with the id sits at `k`, exactly that entry changes. */
  lemma {:induction false} MarkReadAt(ns: seq<Notification>, id: int, k: int)
    requires 0 <= k < |ns| && ns[k].id == id
    requires forall j :: 0 <= j < k ==> ns[j].id != id
    ensures MarkRead(ns, id) == ns[k := ns[k].(read := true)]
  {
    if k > 0 {
      MarkReadAt(ns[1..], id, k - 1);
      assert ns[1..][k - 1 := ns[k].(read := true)] == ns[k := ns[k].(read := true)][1..];
    }
  }

  /** With no entry with the id, nothing changes. */
  lemma {:induction false} MarkReadAbsent(ns: seq<Notification>, id: int)
    requires forall j :: 0 <= j < |ns| ==> ns[j].id != id
    ensures MarkRead(ns, id) == ns
  {
    if ns != [] {
      MarkReadAbsent(ns[1..], id);
      assert ns == [ns[0]] + ns[1..];
    }
  }

  /** Marking the same id twice is marking it once. */
  lemma {:induction false} MarkReadIdempotent(ns: seq<Notification>, id: int)
    ensures MarkRead(MarkRead(ns, id), id) == MarkRead(ns, id)
  {
    if ns != [] && ns[0].id != id {
      MarkReadIdempotent(ns[1..], id);
    }
  }

  /** The first entry with the id, if any, decides whether the count drops:
      by one when it was unread, not at all otherwise. */
  lemma {:induction false} MarkReadCount(ns: seq<Notification>, id: int, k: int)
    requires 0 <= k < |ns| && ns[k].id == id
    requires forall j :: 0 <= j < k ==> ns[j].id != id
    ensures UnreadCount(MarkRead(ns, id)) == UnreadCount(ns) - (if ns[k].read then 0 else 1)
  {
    var r := MarkRead(ns, id);
    if k == 0 {
      AddedCount(ns[0], ns[1..]);
      assert ns == [ns[0]] + ns[1..];
      AddedCount(ns[0].(read := true), ns[1..]);
    } else {
      MarkReadCount(ns[1..], id, k - 1);
      assert r == [ns[0]] + MarkRead(ns[1..], id);
      AddedCount(ns[0], MarkRead(ns[1..], id));
      assert ns == [ns[0]] + ns[1..];
      AddedCount(ns[0], ns[1..]);
    }
  }

  class UiState {
    var theme: string
    var notifications: seq<Notification>
    var modals: Modals
    var toast: Toast
    var sidebar: Sidebar

    /** `initialState`. */
    constructor()
      ensures theme == "midnight" && notifications == []
      ensures modals == Modals(false, false, None)
      ensures toast == Toast(false, Some(""), "info")
      ensures sidebar == Sidebar(false, "home")
    {
      theme := "midnight";
      notifications := [];
      modals := Modals(false, false, None);
      toast := Toast(false, Some(""), "info");
      sidebar := Sidebar(false, "home");
    }

    /** `selectUnreadNotificationsCount`. */
    function UnreadNotificationsCount(): (c: nat)
      reads this
      ensures c <= |notifications|
    {
      UnreadCount(notifications)
    }

    method SetTheme(t: string)
      modifies this
      ensures theme == t
      ensures notifications == old(notifications) && modals == old(modals) && toast == old(toast) && sidebar == old(sidebar)
    {
      theme := t;
    }

    method ToggleTheme()
      modifies this
      ensures theme == Toggled(old(theme))
      ensures notifications == old(notifications) && modals == old(modals) && toast == old(toast) && sidebar == old(sidebar)
    {
      theme := Toggled(theme);
    }

    /** `addNotification`: the new entry goes first, the others stay. */
    method AddNotification(payload: NotificationPayload, clock: int, isoTime: int)
      modifies this
      ensures notifications == [NewNotification(payload, clock, isoTime)] + old(notifications)
      ensures UnreadCount(notifications) == UnreadCount(old(notifications)) + (if payload.read.Some? && payload.read.value then 0 else 1)
      ensures theme == old(theme) && modals == old(modals) && toast == old(toast) && sidebar == old(sidebar)
    {
      var n := NewNotification(payload, clock, isoTime);
      AddedCount(n, notifications);
      notifications := [n] + notifications;
    }

    /** `removeNotification`. */
    method RemoveNotification(id: int)
      modifies this
      ensures notifications == Removed(old(notifications), id)
      ensures UnreadCount(notifications) <= UnreadCount(old(notifications))
      ensures theme == old(theme) && modals == old(modals) && toast == old(toast) && sidebar == old(sidebar)
    {
      RemovedUnread(notifications, id);
      notifications := Filter(notifications, (n: Notification) => n.id != id);
    }

    /** `markNotificationAsRead`: finds the first entry with the id and sets
        its flag in place. */
    method MarkNotificationAsRead(id: int)
      modifies this
      ensures notifications == MarkRead(old(notifications), id)
      ensures theme == old(theme) && modals == old(modals) && toast == old(toast) && sidebar == old(sidebar)
    {
      var k := 0;
      while k < |notifications|
        invariant 0 <= k <= |notifications|
        invariant forall j :: 0 <= j < k ==> notifications[j].id != id
      {
        if notifications[k].id == id {
          MarkReadAt(notifications, id, k);
          notifications := notifications[k := notifications[k].(read := true)];
          return;
        }
        k := k + 1;
      }
      MarkReadAbsent(notifications, id);
    }

    method ClearAllNotifications()
      modifies this
      ensures notifications == [] && UnreadCount(notifications) == 0
      ensures theme == old(theme) && modals == old(modals) && toast == old(toast) && sidebar == old(sidebar)
    {
      notifications := [];
    }

    method SetCreatePostExpanded(expanded: bool)
      modifies this
      ensures modals == old(modals).(isCreatePostExpanded := expanded)
      ensures theme == old(theme) && notifications == old(notifications) && toast == old(toast) && sidebar == old(sidebar)
    {
      modals := modals.(isCreatePostExpanded := expanded);
    }

    /** `openImagePreview`: open, showing the payload's URL. */
    method OpenImagePreview(url: Option<string>)
      modifies this
      ensures modals == old(modals).(isImagePreviewOpen := true, currentImageUrl := url)
      ensures theme == old(theme) && notifications == old(notifications) && toast == old(toast) && sidebar == old(sidebar)
    {
      modals := modals.(isImagePreviewOpen := true, currentImageUrl := url);
    }

    method CloseImagePreview()
      modifies this
      ensures modals == old(modals).(isImagePreviewOpen := false, currentImageUrl := None)
      ensures theme == old(theme) && notifications == old(notifications) && toast == old(toast) && sidebar == old(sidebar)
    {
      modals := modals.(isImagePreviewOpen := false, currentImageUrl := None);
    }

    /** `showToast`: a visible toast replacing the old one, of kind "info"
        unless the payload names a non-empty one. */
    method ShowToast(message: Option<string>, kind: Option<string>)
      modifies this
      ensures toast.isVisible && toast.message == message
      ensures Truthy(kind) ==> toast.kind == kind.value
      ensures !Truthy(kind) ==> toast.kind == "info"
      ensures theme == old(theme) && notifications == old(notifications) && modals == old(modals) && sidebar == old(sidebar)
    {
      toast := Toast(true, message, OrElse(kind, "", "info"));
    }

    /** `hideToast`: only the visibility changes; message and kind stay. */
    method HideToast()
      modifies this
      ensures toast == old(toast).(isVisible := false)
      ensures theme == old(theme) && notifications == old(notifications) && modals == old(modals) && sidebar == old(sidebar)
    {
      toast := toast.(isVisible := false);
    }

    method ToggleSidebar()
      modifies this
      ensures sidebar == old(sidebar).(isOpen := !old(sidebar).isOpen)
      ensures theme == old(theme) && notifications == old(notifications) && modals == old(modals) && toast == old(toast)
    {
      sidebar := sidebar.(isOpen := !sidebar.isOpen);
    }

    method SetSidebarTab(tab: string)
      modifies this
      ensures sidebar == old(sidebar).(activeTab := tab)
      ensures theme == old(theme) && notifications == old(notifications) && modals == old(modals) && toast == old(toast)
    {
      sidebar := sidebar.(activeTab := tab);
    }

    method CloseSidebar()
      modifies this
      ensures sidebar == old(sidebar).(isOpen := false)
      ensures theme == old(theme) && notifications == old(notifications) && modals == old(modals) && toast == old(toast)
    {
      sidebar := sidebar.(isOpen := false);
    }
  }
}
