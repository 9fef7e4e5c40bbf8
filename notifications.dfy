/** The notification centre: a list of notifications edited by mark-as-read,
    mark-all, delete and clear-read, a filtered view, two counters and the
    relative age shown beside each entry. */
module Notifications {
  import opened Text
  import opened Query
  import opened Loans

  datatype Kind = Reminder | Overdue | Approval | Info | Success | Warning {
    function Name(): string {
      match this
      case Reminder => "reminder"
      case Overdue => "overdue"
      case Approval => "approval"
      case Info => "info"
      case Success => "success"
      case Warning => "warning"
    }
  }

  /** A notification; an absent `actionRequired` is false, and `timestamp` is
      the instant in milliseconds. */
  datatype Notification = Notification(
    id: int,
    kind: Kind,
    title: string,
    message: string,
    timestamp: int,
    isRead: bool,
    actionRequired: bool)

  // ---------------------------------------------------------------------------
  // Edits of the list

  /** `markAsRead`: the entries with that id become read; nothing else changes. */
  function MarkAsRead(ns: seq<Notification>, id: int): (r: seq<Notification>)
    ensures |r| == |ns|
    ensures forall i :: 0 <= i < |ns| && ns[i].id != id ==> r[i] == ns[i]
    ensures forall i :: 0 <= i < |ns| && ns[i].id == id ==> r[i] == ns[i].(isRead := true)
  {
    seq(|ns|, i requires 0 <= i < |ns| => if ns[i].id == id then ns[i].(isRead := true) else ns[i])
  }

  /** `markAllAsRead`: every entry becomes read; nothing else changes. */
  function MarkAllAsRead(ns: seq<Notification>): (r: seq<Notification>)
    ensures |r| == |ns|
    ensures forall i :: 0 <= i < |ns| ==> r[i] == ns[i].(isRead := true)
  {
    seq(|ns|, i requires 0 <= i < |ns| => ns[i].(isRead := true))
  }

  function IdIsNot(id: int): Notification -> bool {
    (n: Notification) => n.id != id
  }

  /** `deleteNotification`. */
  function Delete(ns: seq<Notification>, id: int): seq<Notification> {
    Filter(ns, IdIsNot(id))
  }

  predicate IsUnread(n: Notification) {
    !n.isRead
  }

  /** `clearAllRead`: keeps the unread entries. */
  function ClearAllRead(ns: seq<Notification>): seq<Notification> {
    Filter(ns, IsUnread)
  }

  predicate PendingAction(n: Notification) {
    n.actionRequired && !n.isRead
  }

  function UnreadCount(ns: seq<Notification>): nat {
    |Filter(ns, IsUnread)|
  }

  function ActionRequiredCount(ns: seq<Notification>): nat {
    |Filter(ns, PendingAction)|
  }

  /** After marking all as read nothing is unread, and marking again changes nothing. */
  lemma MarkAllAsReadSpec(ns: seq<Notification>)
    ensures UnreadCount(MarkAllAsRead(ns)) == 0
    ensures ActionRequiredCount(MarkAllAsRead(ns)) == 0
    ensures MarkAllAsRead(MarkAllAsRead(ns)) == MarkAllAsRead(ns)
  {
    FilterKeepsNone(MarkAllAsRead(ns), IsUnread);
    FilterKeepsNone(MarkAllAsRead(ns), PendingAction);
  }

  function UnreadOtherThan(id: int): Notification -> bool {
    (n: Notification) => !n.isRead && n.id != id
  }

  /** Marking one id as read leaves unread exactly the unread entries with other
      ids, so the unread count never goes up. */
  lemma {:induction false} MarkAsReadUnreadCount(ns: seq<Notification>, id: int)
    ensures UnreadCount(MarkAsRead(ns, id)) == |Filter(ns, UnreadOtherThan(id))|
    ensures UnreadCount(MarkAsRead(ns, id)) <= UnreadCount(ns)
  {
    if ns != [] {
      MarkAsReadUnreadCount(ns[1..], id);
      var r := MarkAsRead(ns, id);
      assert r[1..] == MarkAsRead(ns[1..], id);
    }
    FilterMonotone(ns, UnreadOtherThan(id), IsUnread);
  }

  /** Deleting an id removes exactly the entries with that id, keeps every other
      entry as many times as it was there, and keeps their order. */
  lemma DeleteSpec(ns: seq<Notification>, more: seq<Notification>, id: int, n: Notification)
    ensures n in Delete(ns, id) <==> n in ns && n.id != id
    ensures n.id != id ==> multiset(Delete(ns, id))[n] == multiset(ns)[n]
    ensures Delete(ns + more, id) == Delete(ns, id) + Delete(more, id)
  {
    FilterMembership(ns, IdIsNot(id), n);
    FilterMultiplicity(ns, IdIsNot(id), n);
    FilterAppend(ns, more, IdIsNot(id));
  }

  /** Clearing the read entries keeps exactly the unread ones in order, so the
      unread count stays and clearing again changes nothing. */
  lemma ClearAllReadSpec(ns: seq<Notification>, n: Notification)
    ensures n in ClearAllRead(ns) <==> n in ns && !n.isRead
    ensures UnreadCount(ClearAllRead(ns)) == UnreadCount(ns)
    ensures ClearAllRead(ClearAllRead(ns)) == ClearAllRead(ns)
  {
    FilterMembership(ns, IsUnread, n);
    FilterIdempotent(ns, IsUnread);
  }

  /** The badge counts are ordered: pending actions, then unread, then all. */
  lemma CountsOrdered(ns: seq<Notification>)
    ensures ActionRequiredCount(ns) <= UnreadCount(ns) <= |ns|
  {
    FilterMonotone(ns, PendingAction, IsUnread);
  }

  // ---------------------------------------------------------------------------
  // The filtered view

  /** The read-state dropdown. */
  datatype ReadFilter = All | Unread | ActionRequired

  predicate MatchesFilter(filter: ReadFilter, n: Notification) {
    filter == All || (filter == Unread && !n.isRead) || (filter == ActionRequired && n.actionRequired)
  }

  function Shown(filter: ReadFilter, selectedType: string): Notification -> bool {
    (n: Notification) => MatchesFilter(filter, n) && (selectedType == "all" || n.kind.Name() == selectedType)
  }

  function FilteredNotifications(ns: seq<Notification>, filter: ReadFilter, selectedType: string): seq<Notification> {
    Filter(ns, Shown(filter, selectedType))
  }

  /** An entry is shown exactly when it passes both dropdowns; both on their
      first choice show the whole list. */
  lemma FilteredSpec(ns: seq<Notification>, filter: ReadFilter, selectedType: string, n: Notification)
    ensures n in FilteredNotifications(ns, filter, selectedType) <==>
            && n in ns
            && (filter.All? || (filter.Unread? && !n.isRead) || (filter.ActionRequired? && n.actionRequired))
            && (selectedType == "all" || n.kind.Name() == selectedType)
    ensures FilteredNotifications(ns, All, "all") == ns
  {
    FilterMembership(ns, Shown(filter, selectedType), n);
    FilterKeepsAll(ns, Shown(All, "all"));
  }

  /** "Action requise" also lists entries already read, so it can show more
      entries than the counter of pending actions says. */
  lemma ActionFilterCoversCounter(ns: seq<Notification>)
    ensures ActionRequiredCount(ns) <= |FilteredNotifications(ns, ActionRequired, "all")|
  {
    FilterMonotone(ns, PendingAction, Shown(ActionRequired, "all"));
  }

  lemma ActionFilterShowsReadEntries(n: Notification)
    requires n.actionRequired && n.isRead
    ensures ActionRequiredCount([n]) == 0 && FilteredNotifications([n], ActionRequired, "all") == [n]
  {
  }

  // ---------------------------------------------------------------------------
  // The relative age

  /** The bucket `formatTimestamp` chooses for an age. */
  datatype Age = LessThanHour | Hours(hours: nat) | Days(days: nat)

  /** Whole hours, rounded down; under an hour (or in the future) is one bucket,
      then hours up to 23, then whole days. */
  function AgeOf(diffMs: int): (a: Age)
    ensures a.LessThanHour? <==> diffMs < MsPerHour
    ensures a.Hours? ==> 1 <= a.hours < 24 && a.hours * MsPerHour <= diffMs < (a.hours + 1) * MsPerHour
    ensures a.Days? ==> 1 <= a.days && a.days * MsPerDay <= diffMs < (a.days + 1) * MsPerDay
  {
    var h := FloorDiv(diffMs, MsPerHour);
    if h < 1 then LessThanHour
    else if h < 24 then Hours(h)
    else
      var d := FloorDiv(h, 24);
      assert d * MsPerDay == (24 * d) * MsPerHour;
      assert (d + 1) * MsPerDay == (24 * d + 24) * MsPerHour;
      assert (24 * d) * MsPerHour <= h * MsPerHour;
      assert (h + 1) * MsPerHour <= (24 * d + 24) * MsPerHour;
      Days(d)
  }

  const UnderAnHour := "Il y a moins d'une heure"
  const Ago := "Il y a "

  function Count(a: Age): nat
    requires !a.LessThanHour?
  {
    if a.Hours? then a.hours else a.days
  }

  function Unit(a: Age): string
    requires !a.LessThanHour?
  {
    if a.Hours? then " heure" + PluralS(a.hours) else " jour" + PluralS(a.days)
  }

  /** "Il y a moins d'une heure", "Il y a N heure(s)" or "Il y a N jour(s)". */
  function Render(a: Age): string {
    if a.LessThanHour? then UnderAnHour else Ago + NatToString(Count(a)) + Unit(a)
  }

  function FormatTimestamp(timestampMs: int, nowMs: int): string {
    Render(AgeOf(nowMs - timestampMs))
  }

  /** The eighth character is a digit exactly when a number of hours or days is shown. */
  lemma RenderShape(a: Age)
    ensures |Render(a)| > 7 && (IsDigit(Render(a)[7]) <==> !a.LessThanHour?)
  {
    if !a.LessThanHour? {
      assert Render(a)[7] == NatToString(Count(a))[0];
    }
  }

  /** The text tells the bucket back: different buckets never read the same. */
  lemma RenderInjective(a1: Age, a2: Age)
    requires Render(a1) == Render(a2)
    ensures a1 == a2
  {
    RenderShape(a1);
    RenderShape(a2);
    if !a1.LessThanHour? {
      NumberInContext(Ago, Count(a1), Unit(a1), Count(a2), Unit(a2));
      assert Unit(a1)[1] == Unit(a2)[1];
    }
  }

  /** The text ends in "s" exactly when more than one hour or day is counted. */
  lemma RenderPlural(a: Age)
    requires !a.LessThanHour?
    ensures Render(a)[|Render(a)| - 1] == 's' <==> Count(a) > 1
  {
  }

  // ---------------------------------------------------------------------------
  // The page state

  class Page {
    var notifications: seq<Notification>
    var filter: ReadFilter
    var selectedType: string

    constructor (initial: seq<Notification>)
      ensures notifications == initial && filter == All && selectedType == "all"
    {
      notifications := initial;
      filter := All;
      selectedType := "all";
    }

    function Filtered(): seq<Notification>
      reads this
    {
      FilteredNotifications(notifications, filter, selectedType)
    }

    function Unread(): nat
      reads this
    {
      UnreadCount(notifications)
    }

    function PendingActions(): nat
      reads this
    {
      ActionRequiredCount(notifications)
    }

    method MarkOneAsRead(id: int)
      modifies this
      ensures notifications == MarkAsRead(old(notifications), id)
      ensures filter == old(filter) && selectedType == old(selectedType)
      ensures Unread() <= old(Unread())
    {
      MarkAsReadUnreadCount(notifications, id);
      notifications := MarkAsRead(notifications, id);
    }

    method MarkEveryAsRead()
      modifies this
      ensures notifications == MarkAllAsRead(old(notifications))
      ensures filter == old(filter) && selectedType == old(selectedType)
      ensures Unread() == 0 && PendingActions() == 0
    {
      MarkAllAsReadSpec(notifications);
      notifications := MarkAllAsRead(notifications);
    }

    method DeleteNotification(id: int)
      modifies this
      ensures notifications == Delete(old(notifications), id)
      ensures filter == old(filter) && selectedType == old(selectedType)
    {
      notifications := Delete(notifications, id);
    }

    method ClearRead()
      modifies this
      ensures notifications == ClearAllRead(old(notifications))
      ensures filter == old(filter) && selectedType == old(selectedType)
      ensures Unread() == old(Unread()) && Unread() == |notifications|
    {
      var n := notifications;
      FilterIdempotent(n, IsUnread);
      FilterKeepsAll(Filter(n, IsUnread), IsUnread);
      notifications := ClearAllRead(notifications);
    }
  }
}
