/** The notification dispatcher: notify one account, or every account but the
    actor. Both are best-effort: a failed insert leaves the store as it was and
    is never reported to the caller, which is why both return only a store. */
module Notifications {
  import opened Common
  import opened Seqs
  import opened Store

  /** The arguments both senders share: type, title, message and optional link. */
  datatype Content = Content(kind: string, title: string, message: string, linkUrl: Option<string>)

  /** A new row as the database stores it: unread, stamped with `now`. */
  function Compose(id: Id, userId: Id, c: Content, now: int): Notification {
    Notification(id, userId, c.kind, c.title, c.message, c.linkUrl, false, now)
  }

  predicate Carries(n: Notification, c: Content) {
    n.kind == c.kind && n.title == c.title && n.message == c.message && n.linkUrl == c.linkUrl
  }

  function OfKind(userId: Id, kind: string): Notification -> bool {
    (n: Notification) => n.userId == userId && n.kind == kind
  }

  /** How many of `ns` are addressed to `userId` with type `kind`. */
  function Received(ns: seq<Notification>, userId: Id, kind: string): nat {
    |Filter(ns, OfKind(userId, kind))|
  }

  /** `createNotification`: one insert, whose failures (a recipient that is
      not an account, an id already in use, a database error) are caught. */
  function CreateNotification(s: Store, userId: Id, c: Content, w: DbWrite, now: int): (s': Store)
    ensures s'.users == s.users && s'.projects == s.projects
    ensures s'.tasks == s.tasks && s'.milestones == s.milestones
    ensures s' == s || s'.notifications == s.notifications + [Compose(w.ids(0), userId, c, now)]
    ensures s' != s <==> !w.fault && HasUser(s, userId) && w.ids(0) !in NotificationIds(s.notifications)
  {
    if !w.fault && HasUser(s, userId) && w.ids(0) !in NotificationIds(s.notifications) then
      var n := Compose(w.ids(0), userId, c, now);
      assert |s.notifications + [n]| != |s.notifications|;
      s.(notifications := s.notifications + [n])
    else
      s
  }

  /** Creating a notification for one account leaves every other account's
      inbox as it was, and adds exactly the new row to the recipient's. */
  lemma CreateNotificationInboxes(s: Store, userId: Id, c: Content, w: DbWrite, now: int, u: Id)
    ensures var s' := CreateNotification(s, userId, c, w, now);
            && (u != userId ==> Inbox(s'.notifications, u) == Inbox(s.notifications, u))
            && (s' != s ==> Inbox(s'.notifications, userId) == Inbox(s.notifications, userId) + [Compose(w.ids(0), userId, c, now)])
  {
    var s' := CreateNotification(s, userId, c, w, now);
    if s' != s {
      var n := Compose(w.ids(0), userId, c, now);
      FilterConcat(s.notifications, [n], ToUser(u));
      FilterConcat(s.notifications, [n], ToUser(userId));
    }
  }


  /** The ids of every account but the actor, in store order
      (`user.findMany({ where: { id: { not: actorId } } })`). */
  function Recipients(users: seq<User>, actorId: Id): (r: seq<Id>)
    ensures |r| <= |users|
    ensures forall id :: id in r <==> id in UserIds(users) && id != actorId
    ensures UniqueUserIds(users) ==> Distinct(r)
  {
    if users == [] then []
    else
      var rest := Recipients(users[1..], actorId);
      assert users == [users[0]] + users[1..];
      assert UserIds(users) == {users[0].id} + UserIds(users[1..]);
      assert UniqueUserIds(users) ==> UniqueUserIds(users[1..]) && users[0].id !in UserIds(users[1..]);
      (if users[0].id != actorId then [users[0].id] else []) + rest
  }

  /** One row per recipient, the k-th taking id `w.ids(from + k)`. */
  function Batch(rs: seq<Id>, c: Content, w: DbWrite, from: nat, now: int): (b: seq<Notification>)
    ensures |b| == |rs|
    ensures forall k :: 0 <= k < |b| ==> b[k] == Compose(w.ids(from + k), rs[k], c, now)
  {
    if rs == [] then []
    else [Compose(w.ids(from), rs[0], c, now)] + Batch(rs[1..], c, w, from + 1, now)
  }

  /** Every row of a batch is unread, dated `now`, carries the content and
      goes to one of the recipients. */
  lemma BatchRows(rs: seq<Id>, c: Content, w: DbWrite, from: nat, now: int)
    ensures forall n :: n in Batch(rs, c, w, from, now) ==>
              n.userId in rs && Carries(n, c) && !n.read && n.createdAt == now
  {
    var b := Batch(rs, c, w, from, now);
    forall n | n in b ensures n.userId in rs && Carries(n, c) && !n.read && n.createdAt == now {
      var k :| 0 <= k < |b| && b[k] == n;
      assert n.userId == rs[k];
    }
  }

  /** Counting over a row followed by more rows. */
  lemma ReceivedCons(n: Notification, ns: seq<Notification>, u: Id, kind: string)
    ensures Received([n] + ns, u, kind) == (if n.userId == u && n.kind == kind then 1 else 0) + Received(ns, u, kind)
  {
    FilterConcat([n], ns, OfKind(u, kind));
  }

  /** The tail of a sequence without repetition has none, and misses its head. */
  lemma DistinctTail<T>(xs: seq<T>)
    requires xs != [] && Distinct(xs)
    ensures Distinct(xs[1..]) && xs[0] !in xs[1..]
  {
  }

  /** Rows addressed one-to-one to recipients without repetition, all of
      one type, reach each recipient exactly once, and nobody else. */
  lemma {:induction false} RowsReachEachOnce(b: seq<Notification>, rs: seq<Id>, bkind: string, u: Id, kind: string)
    requires |b| == |rs| && Distinct(rs)
    requires forall k :: 0 <= k < |b| ==> b[k].userId == rs[k] && b[k].kind == bkind
    ensures Received(b, u, kind) == (if u in rs && kind == bkind then 1 else 0)
    decreases |b|
  {
    if b != [] {
      assert b == [b[0]] + b[1..];
      ReceivedCons(b[0], b[1..], u, kind);
      DistinctTail(rs);
      RowsReachEachOnce(b[1..], rs[1..], bkind, u, kind);
      assert u in rs <==> u == rs[0] || u in rs[1..] by {
        assert rs == [rs[0]] + rs[1..];
      }
    }
  }

  /** A batch built from recipients without repetition reaches each of them
      exactly once, and nobody else. */
  lemma BatchReachesEachOnce(rs: seq<Id>, c: Content, w: DbWrite, from: nat, now: int, u: Id, kind: string)
    requires Distinct(rs)
    ensures Received(Batch(rs, c, w, from, now), u, kind) == (if u in rs && kind == c.kind then 1 else 0)
  {
    RowsReachEachOnce(Batch(rs, c, w, from, now), rs, c.kind, u, kind);
  }

  /** Whether the batch insert of `notifyAllTeamMembers` goes through. */
  predicate BatchAccepted(s: Store, actorId: Id, w: DbWrite) {
    !w.fault && FreshIds(w, |Recipients(s.users, actorId)|, NotificationIds(s.notifications))
  }

  /** `notifyAllTeamMembers`: one notification for every account but the
      actor, inserted in one batch; with nobody to notify nothing is written,
      and a failed batch is caught and writes nothing either. */
  function NotifyAllTeamMembers(s: Store, actorId: Id, c: Content, w: DbWrite, now: int): (s': Store)
    ensures s'.users == s.users && s'.projects == s.projects
    ensures s'.tasks == s.tasks && s'.milestones == s.milestones
    ensures |s'.notifications| >= |s.notifications|
    ensures s'.notifications[..|s.notifications|] == s.notifications
    ensures forall n :: n in s'.notifications[|s.notifications|..] ==>
              && n.userId != actorId
              && n.userId in UserIds(s.users)
              && Carries(n, c) && !n.read && n.createdAt == now
    ensures !BatchAccepted(s, actorId, w) ==> s' == s
    ensures (forall u :: u in UserIds(s.users) ==> u == actorId) ==> s' == s
  {
    var rs := Recipients(s.users, actorId);
    if |rs| == 0 then s
    else if !BatchAccepted(s, actorId, w) then s
    else
      var b := Batch(rs, c, w, 0, now);
      var ns := s.notifications + b;
      assert ns[..|s.notifications|] == s.notifications;
      assert ns[|s.notifications|..] == b;
      BatchRows(rs, c, w, 0, now);
      s.(notifications := ns)
  }

  /** What one fan-out adds, counted per account and type: one row of its
      type for every account but the actor when the batch goes through,
      and nothing of any other type. */
  lemma {:induction false} FanOutCounts(s: Store, actorId: Id, c: Content, w: DbWrite, now: int, u: Id, kind: string)
    requires UniqueUserIds(s.users)
    requires BatchAccepted(s, actorId, w)
    ensures var s' := NotifyAllTeamMembers(s, actorId, c, w, now);
            Received(s'.notifications[|s.notifications|..], u, kind) ==
              (if kind == c.kind && u in UserIds(s.users) && u != actorId then 1 else 0)
  {
    var rs := Recipients(s.users, actorId);
    if |rs| > 0 {
      assert NotifyAllTeamMembers(s, actorId, c, w, now).notifications[|s.notifications|..] == Batch(rs, c, w, 0, now);
      BatchReachesEachOnce(rs, c, w, 0, now, u, kind);
    } else {
      assert NotifyAllTeamMembers(s, actorId, c, w, now) == s;
      assert s.notifications[|s.notifications|..] == [];
    }
  }

  /** A single notification keeps the store's integrity. */
  lemma CreateNotificationPreservesValid(s: Store, userId: Id, c: Content, w: DbWrite, now: int)
    requires Valid(s)
    ensures Valid(CreateNotification(s, userId, c, w, now))
  {
    var s' := CreateNotification(s, userId, c, w, now);
    if s' != s {
      var n := Compose(w.ids(0), userId, c, now);
      assert s'.notifications == s.notifications + [n];
      assert forall i :: 0 <= i < |s.notifications| ==> s.notifications[i] in s.notifications;
    }
  }

  /** Appending rows whose ids a write made fresh keeps notification ids
      unique. */
  lemma AppendFreshUnique(ns: seq<Notification>, b: seq<Notification>, w: DbWrite)
    requires UniqueNotifications(ns)
    requires forall k :: 0 <= k < |b| ==> b[k].id == w.ids(k)
    requires FreshIds(w, |b|, NotificationIds(ns))
    ensures UniqueNotifications(ns + b)
  {
    var all := ns + b;
    forall i, j | 0 <= i < j < |all| ensures all[i].id != all[j].id {
      if j < |ns| {
        assert all[i] == ns[i] && all[j] == ns[j];
      } else if i < |ns| {
        assert all[j] == b[j - |ns|] && all[i] in ns;
      } else {
        assert all[i] == b[i - |ns|] && all[j] == b[j - |ns|];
      }
    }
  }

  /** Appending rows for existing accounts under ids a write made fresh
      keeps the store's integrity. */
  lemma AppendFreshValid(s: Store, b: seq<Notification>, w: DbWrite)
    requires Valid(s)
    requires forall k :: 0 <= k < |b| ==> b[k].id == w.ids(k) && HasUser(s, b[k].userId)
    requires FreshIds(w, |b|, NotificationIds(s.notifications))
    ensures Valid(s.(notifications := s.notifications + b))
  {
    AppendFreshUnique(s.notifications, b, w);
    var s' := s.(notifications := s.notifications + b);
    forall n | n in s'.notifications ensures HasUser(s, n.userId) {
      if n !in s.notifications {
        var k :| 0 <= k < |s'.notifications| && s'.notifications[k] == n;
        assert n == b[k - |s.notifications|];
      }
    }
  }

  /** A fan-out keeps the store's integrity: the batch ids are fresh and
      every recipient is an account. */
  lemma NotifyAllPreservesValid(s: Store, actorId: Id, c: Content, w: DbWrite, now: int)
    requires Valid(s)
    ensures Valid(NotifyAllTeamMembers(s, actorId, c, w, now))
  {
    var rs := Recipients(s.users, actorId);
    if |rs| > 0 && BatchAccepted(s, actorId, w) {
      var b := Batch(rs, c, w, 0, now);
      assert forall k :: 0 <= k < |b| ==> b[k].id == w.ids(k) && HasUser(s, b[k].userId) by {
        assert forall k :: 0 <= k < |b| ==> b[k].userId == rs[k] && rs[k] in rs;
      }
      AppendFreshValid(s, b, w);
    }
  }
}
