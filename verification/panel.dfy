/** The client-side logic of the notification panel: the relative-time label
    and the local list of notifications with its unread count, mark-all,
    mark-on-click and clear. Requests are modelled only by whether one is
    sent and whether it throws. */
module NotificationPanel {
  import opened Common
  import opened Seqs

  /** A notification as the panel holds it. */
  datatype Item = Item(
    id: Id,
    title: string,
    message: string,
    createdAt: string,
    read: bool,
    kind: string,
    linkUrl: Option<string>)

  datatype Panel = Panel(items: seq<Item>, loading: bool)

  // ---- relative time ----

  function DigitChar(d: nat): (c: char)
    requires d < 10
    ensures '0' <= c <= '9'
  {
    "0123456789"[d]
  }

  predicate AllDigits(s: string) {
    forall i :: 0 <= i < |s| ==> '0' <= s[i] <= '9'
  }

  /** Decimal rendering of a natural number, as a template literal prints it. */
  function NatToString(n: nat): (r: string)
    ensures |r| > 0 && AllDigits(r)
  {
    if n < 10 then [DigitChar(n)] else NatToString(n / 10) + [DigitChar(n % 10)]
  }

  /** Reading a string of decimal digits back as a number. */
  function ParseNat(s: string): nat
    requires AllDigits(s)
  {
    if s == [] then 0 else ParseNat(s[..|s| - 1]) * 10 + (s[|s| - 1] as int - '0' as int)
  }

  /** The number in a label reads back as the number that was rendered. */
  lemma {:induction false} NatToStringRoundTrip(n: nat)
    ensures ParseNat(NatToString(n)) == n
  {
    if n >= 10 {
      var s := NatToString(n);
      assert s[..|s| - 1] == NatToString(n / 10);
      NatToStringRoundTrip(n / 10);
      assert "0123456789"[n % 10] as int - '0' as int == n % 10;
    } else {
      assert "0123456789"[n] as int - '0' as int == n;
    }
  }

  /** Whole hours from whole minutes agree with whole hours from seconds. */
  lemma HoursFromMinutes(s: int)
    ensures (s / 60) / 60 == s / 3600
  {
    var q := s / 3600;
    var r := s % 3600;
    assert s == 3600 * q + r && 0 <= r < 3600;
    assert s / 60 == 60 * q + r / 60;
  }

  /** Whole days from whole hours agree with whole days from seconds. */
  lemma DaysFromHours(s: int)
    ensures (s / 3600) / 24 == s / 86400
  {
    var q := s / 86400;
    var r := s % 86400;
    assert s == 86400 * q + r && 0 <= r < 86400;
    assert s / 3600 == 24 * q + r / 3600;
  }

  /** `formatTimeAgo`, from the elapsed milliseconds (now minus the
      notification's creation time). A negative elapsed time, a timestamp in
      the future, reads "just now". */
  function FormatTimeAgo(elapsedMs: int): (r: string)
    ensures var s := elapsedMs / 1000;
            && (s < 60 ==> r == "just now")
            && (60 <= s < 3600 ==> 1 <= s / 60 <= 59 && r == NatToString(s / 60) + "m ago")
            && (3600 <= s < 86400 ==> 1 <= s / 3600 <= 23 && r == NatToString(s / 3600) + "h ago")
            && (86400 <= s ==> 1 <= s / 86400 && r == NatToString(s / 86400) + "d ago")
  {
    var seconds := elapsedMs / 1000;
    if seconds < 60 then "just now"
    else
      var minutes := seconds / 60;
      if minutes < 60 then NatToString(minutes) + "m ago"
      else
        var hours := minutes / 60;
        HoursFromMinutes(seconds);
        if hours < 24 then NatToString(hours) + "h ago"
        else
          DaysFromHours(seconds);
          NatToString(hours / 24) + "d ago"
  }

  // ---- the local list ----

  function IsUnread(n: Item): bool {
    !n.read
  }

  /** The number of unread items, counted one by one. */
  function CountUnread(items: seq<Item>): nat {
    if items == [] then 0 else (if items[0].read then 0 else 1) + CountUnread(items[1..])
  }

  /** Filtering for unread items keeps exactly the items counted. */
  lemma {:induction false} FilterUnreadCount(items: seq<Item>)
    ensures |Filter(items, IsUnread)| == CountUnread(items)
  {
    if items != [] {
      FilterUnreadCount(items[1..]);
    }
  }

  /** `notifications.filter((n) => !n.read).length`. */
  function UnreadCount(items: seq<Item>): (c: nat)
    ensures c == CountUnread(items)
    ensures c <= |items|
    ensures c == 0 <==> forall i :: 0 <= i < |items| ==> items[i].read
  {
    var unread := Filter(items, IsUnread);
    FilterUnreadCount(items);
    assert unread != [] ==> unread[0] in unread;
    assert forall i :: 0 <= i < |items| && !items[i].read ==> items[i] in unread;
    |unread|
  }

  /** Every item read, nothing else about them changed. */
  function AllRead(items: seq<Item>): seq<Item> {
    seq(|items|, i requires 0 <= i < |items| => items[i].(read := true))
  }

  /** The item with this id read, every other item as it was. */
  function ReadOne(items: seq<Item>, id: Id): seq<Item> {
    seq(|items|, i requires 0 <= i < |items| => if items[i].id == id then items[i].(read := true) else items[i])
  }

  /** `markAllAsRead`: after the request (whatever its status) the list is all
      read; only a request that throws leaves it alone. */
  function MarkAllAsRead(p: Panel, requestThrows: bool): (p': Panel)
    ensures p'.loading == p.loading && |p'.items| == |p.items|
    ensures requestThrows ==> p' == p
    ensures !requestThrows ==> forall i :: 0 <= i < |p.items| ==>
              p'.items[i].read && p'.items[i].(read := p.items[i].read) == p.items[i]
    ensures !requestThrows ==> UnreadCount(p'.items) == 0
  {
    if requestThrows then p else p.(items := AllRead(p.items))
  }

  /** `clearAll`: empties the local list only; nothing is sent. */
  function ClearAll(p: Panel): (p': Panel)
    ensures p'.items == [] && p'.loading == p.loading
  {
    p.(items := [])
  }

  /** What a click does: the new panel, whether a mark-read request was sent,
      and where the router goes, if anywhere. */
  datatype Click = Click(panel: Panel, requestSent: bool, navigateTo: Option<string>)

  /** `handleNotificationClick`: an unread item is marked read (with a request
      for its id); a read item sends nothing and changes nothing; a truthy
      link closes the panel and navigates. */
  function HandleClick(p: Panel, n: Item, requestThrows: bool): (c: Click)
    ensures c.requestSent <==> !n.read
    ensures n.read || requestThrows ==> c.panel == p
    ensures |c.panel.items| == |p.items| && c.panel.loading == p.loading
    ensures forall i :: 0 <= i < |p.items| && p.items[i].id != n.id ==> c.panel.items[i] == p.items[i]
    ensures !n.read && !requestThrows ==> forall i :: 0 <= i < |p.items| && p.items[i].id == n.id ==>
              c.panel.items[i].read && c.panel.items[i].(read := p.items[i].read) == p.items[i]
    ensures c.navigateTo == (if Truthy(n.linkUrl) then n.linkUrl else None)
  {
    var items := if !n.read && !requestThrows then ReadOne(p.items, n.id) else p.items;
    Click(p.(items := items), !n.read, if Truthy(n.linkUrl) then n.linkUrl else None)
  }

  ghost predicate DistinctIds(items: seq<Item>) {
    forall i, j :: 0 <= i < j < |items| ==> items[i].id != items[j].id
  }

  /** Clicking an unread item of the list, its id unique, lowers the unread
      count by exactly one. */
  lemma {:induction false} ClickCountsDown(items: seq<Item>, n: Item)
    requires n in items && !n.read && DistinctIds(items)
    ensures UnreadCount(ReadOne(items, n.id)) == UnreadCount(items) - 1
    decreases |items|
  {
    var rest := items[1..];
    assert items == [items[0]] + rest;
    var marked := ReadOne(items, n.id);
    assert marked == [marked[0]] + ReadOne(rest, n.id);
    if items[0] == n {
      assert forall i :: 0 <= i < |rest| ==> rest[i].id != n.id;
      assert ReadOne(rest, n.id) == rest;
    } else {
      assert items[0].id != n.id by {
        var k :| 0 <= k < |items| && items[k] == n;
      }
      ClickCountsDown(rest, n);
    }
  }

  /** "Mark all as read" is disabled with nothing unread or while loading. */
  predicate MarkAllDisabled(p: Panel) {
    UnreadCount(p.items) == 0 || p.loading
  }

  /** "Clear all" is disabled with an empty list or while loading. */
  predicate ClearAllDisabled(p: Panel) {
    |p.items| == 0 || p.loading
  }

  /** Once everything is read, "Mark all as read" is disabled; once cleared,
      both buttons are. */
  lemma ButtonsAfterActions(p: Panel)
    ensures MarkAllDisabled(MarkAllAsRead(p, false))
    ensures MarkAllDisabled(ClearAll(p)) && ClearAllDisabled(ClearAll(p))
  {
  }

  /** Outside loading, "Mark all as read" is enabled exactly when some item
      is unread. */
  lemma MarkAllEnabledIff(p: Panel)
    requires !p.loading
    ensures !MarkAllDisabled(p) <==> exists i :: 0 <= i < |p.items| && !p.items[i].read
  {
  }
}
