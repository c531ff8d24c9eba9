/**
 * The notification list store of src/lib/stores/notifications.ts: a
 * writable cell holding the list, newest first, whose operations replace
 * the list by a transformed copy, and the derived unread count. Generated
 * ids and the clock are parameters; timestamps are milliseconds since the
 * epoch.
 */
module Notifications {

  /** `AppNotification`; `kind` is its `type` field. */
  datatype AppNotification = AppNotification(
    id: string, title: string, message: string, timestamp: int, read: bool, kind: string)

  /** What `add` receives: a notification without id, timestamp and read flag. */
  datatype Draft = Draft(title: string, message: string, kind: string)

  const DayMs := 86400000

  /** The two mock notifications the store starts with, at clock reading `now`. */
  function Initial(now: int): seq<AppNotification> {
    [ AppNotification("1", "Welcome!", "Welcome to the Scan-In System.", now, false, "info"),
      AppNotification("2", "System Update", "The system was updated successfully.", now - DayMs, true, "success") ]
  }

  /** `unreadCount`: the number of entries not yet read. */
  function UnreadCount(items: seq<AppNotification>): (n: nat)
    ensures n <= |items|
    ensures n == 0 <==> forall i :: 0 <= i < |items| ==> items[i].read
  {
    if items == [] then 0
    else (if items[0].read then 0 else 1) + UnreadCount(items[1..])
  }

  lemma InitialHasOneUnread(now: int)
    ensures |Initial(now)| == 2 && UnreadCount(Initial(now)) == 1
  {
    assert Initial(now)[1..][1..] == [];
  }

  function Added(items: seq<AppNotification>, d: Draft, id: string, now: int): seq<AppNotification> {
    [AppNotification(id, d.title, d.message, now, false, d.kind)] + items
  }

  function MarkedRead(items: seq<AppNotification>, id: string): (r: seq<AppNotification>)
    ensures |r| == |items|
    ensures forall i :: 0 <= i < |items| ==>
      r[i] == if items[i].id == id then items[i].(read := true) else items[i]
  {
    seq(|items|, i requires 0 <= i < |items| => if items[i].id == id then items[i].(read := true) else items[i])
  }

  function AllRead(items: seq<AppNotification>): (r: seq<AppNotification>)
    ensures |r| == |items| && forall i :: 0 <= i < |items| ==> r[i] == items[i].(read := true)
  {
    seq(|items|, i requires 0 <= i < |items| => items[i].(read := true))
  }

  /** `remove`: every entry with that id goes, the others keep their order. */
  function Removed(items: seq<AppNotification>, id: string): (r: seq<AppNotification>)
    ensures forall n :: n in r <==> n in items && n.id != id
    ensures |r| <= |items|
  {
    if items == [] then []
    else (if items[0].id == id then [] else [items[0]]) + Removed(items[1..], id)
  }

  /** `add` puts one unread entry in front and keeps the rest; it raises the unread count by one. */
  lemma AddedIsUnreadHead(items: seq<AppNotification>, d: Draft, id: string, now: int)
    ensures var r := Added(items, d, id, now);
      |r| == |items| + 1 && r[1..] == items && r[0].id == id && !r[0].read && r[0].timestamp == now
      && UnreadCount(r) == UnreadCount(items) + 1
  {
    var r := Added(items, d, id, now);
    assert r[1..] == items;
  }

  /** Removing a freshly added entry gives back the list it was added to. */
  lemma {:induction false} RemoveUndoesAdd(items: seq<AppNotification>, d: Draft, id: string, now: int)
    requires forall i :: 0 <= i < |items| ==> items[i].id != id
    ensures Removed(Added(items, d, id, now), id) == items
  {
    assert Added(items, d, id, now)[1..] == items;
    RemoveKeepsOthers(items, id);
  }

  /** Removing an id that no entry carries changes nothing. */
  lemma {:induction false} RemoveKeepsOthers(items: seq<AppNotification>, id: string)
    requires forall i :: 0 <= i < |items| ==> items[i].id != id
    ensures Removed(items, id) == items
    decreases |items|
  {
    if items != [] {
      RemoveKeepsOthers(items[1..], id);
      assert [items[0]] + items[1..] == items;
    }
  }

  /** `remove` keeps order: removing from a concatenation removes from each part in place. */
  lemma {:induction false} RemoveKeepsOrder(a: seq<AppNotification>, b: seq<AppNotification>, id: string)
    ensures Removed(a + b, id) == Removed(a, id) + Removed(b, id)
    decreases |a|
  {
    if a == [] {
      assert a + b == b;
    } else {
      assert (a + b)[0] == a[0] && (a + b)[1..] == a[1..] + b;
      RemoveKeepsOrder(a[1..], b, id);
    }
  }

  /** `markAllAsRead` leaves nothing unread. */
  lemma AllReadHasNoUnread(items: seq<AppNotification>)
    ensures UnreadCount(AllRead(items)) == 0
  {
  }

  /** Marking one id read lowers the unread count by the unread entries with that id and by nothing else. */
  lemma {:induction false} MarkedReadCount(items: seq<AppNotification>, id: string)
    ensures UnreadCount(MarkedRead(items, id)) == UnreadCount(items) - UnreadWithId(items, id)
    decreases |items|
  {
    if items != [] {
      MarkedReadCount(items[1..], id);
      assert MarkedRead(items, id)[1..] == MarkedRead(items[1..], id);
    }
  }

  function UnreadWithId(items: seq<AppNotification>, id: string): (n: nat)
    ensures n <= UnreadCount(items)
  {
    if items == [] then 0
    else (if !items[0].read && items[0].id == id then 1 else 0) + UnreadWithId(items[1..], id)
  }

  /** The store cell. */
  class NotificationStore {
    var items: seq<AppNotification>

    /** The store as created at clock reading `now`. */
    constructor (now: int)
      ensures items == Initial(now)
    {
      items := Initial(now);
    }

    /** `add`: `id` is the `crypto.randomUUID()` value and `now` the clock reading. */
    method Add(d: Draft, id: string, now: int)
      modifies this
      ensures items == Added(old(items), d, id, now)
    {
      items := [AppNotification(id, d.title, d.message, now, false, d.kind)] + items;
    }

    method MarkAsRead(id: string)
      modifies this
      ensures items == MarkedRead(old(items), id)
    {
      items := MarkedRead(items, id);
    }

    method MarkAllAsRead()
      modifies this
      ensures items == AllRead(old(items))
    {
      items := AllRead(items);
    }

    method Remove(id: string)
      modifies this
      ensures items == Removed(old(items), id)
    {
      items := Removed(items, id);
    }

    method Clear()
      modifies this
      ensures items == []
    {
      items := [];
    }
  }
}
