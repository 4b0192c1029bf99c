/** `GET /api/notifications` (the caller's twenty newest) and
    `PUT /api/notifications` (mark as read, all or by id). Both are scoped to
    the caller: whatever ids the body names, another account's rows are never
    returned or touched. */
module NotificationsRoute {
  import opened Common
  import opened Seqs
  import opened Store
  import opened Auth

  const Unauthorized := "Unauthorized"
  const FetchFailed := "Failed to fetch notifications"
  const UpdateFailed := "Failed to update notifications"

  /** The `take` of the listing query. */
  const PageSize: nat := 20

  function NotificationCreatedAt(n: Notification): int {
    n.createdAt
  }

  function Min(a: nat, b: nat): nat {
    if a <= b then a else b
  }

  /** The first `k` of a newest-first list are never older than the rest. */
  lemma {:induction false} PrefixNewest(sorted: seq<Notification>, k: nat)
    requires k <= |sorted|
    requires SortedDesc(sorted, NotificationCreatedAt)
    ensures multiset(sorted) == multiset(sorted[..k]) + multiset(sorted[k..])
    ensures forall n, m :: n in sorted[..k] && m in sorted[k..] ==> n.createdAt >= m.createdAt
  {
    assert sorted == sorted[..k] + sorted[k..];
    forall n, m | n in sorted[..k] && m in sorted[k..]
      ensures n.createdAt >= m.createdAt
    {
      var i :| 0 <= i < k && sorted[i] == n;
      var j :| 0 <= j < |sorted[k..]| && sorted[k..][j] == m;
      assert sorted[k + j] == m;
      assert NotificationCreatedAt(sorted[i]) >= NotificationCreatedAt(sorted[k + j]);
    }
  }

  /** What a prefix leaves out of a bag is what follows it. */
  lemma LeftOutFollows(sorted: seq<Notification>, k: nat)
    requires k <= |sorted|
    requires multiset(sorted) == multiset(sorted[..k]) + multiset(sorted[k..])
    ensures multiset(sorted[..k]) <= multiset(sorted)
    ensures forall m :: m in multiset(sorted) - multiset(sorted[..k]) ==> m in sorted[k..]
  {
    assert multiset(sorted) - multiset(sorted[..k]) == multiset(sorted[k..]);
  }

  /** A prefix of a newest-first list is newest-first. */
  lemma PrefixSorted(sorted: seq<Notification>, k: nat)
    requires k <= |sorted|
    requires SortedDesc(sorted, NotificationCreatedAt)
    ensures SortedDesc(sorted[..k], NotificationCreatedAt)
  {
    assert forall i :: 0 <= i < k ==> sorted[..k][i] == sorted[i];
  }

  /** The newest `k` of `mine`. */
  function Page(mine: seq<Notification>, k: nat): (page: seq<Notification>)
    requires k <= |mine|
    ensures |page| == k
    ensures SortedDesc(page, NotificationCreatedAt)
    ensures multiset(page) <= multiset(mine)
    ensures forall n, m :: n in page && m in multiset(mine) - multiset(page) ==> n.createdAt >= m.createdAt
  {
    var sorted := SortDesc(mine, NotificationCreatedAt);
    PrefixNewest(sorted, k);
    LeftOutFollows(sorted, k);
    PrefixSorted(sorted, k);
    sorted[..k]
  }

  /** `GET`: the caller's notifications, newest first, at most `PageSize` of
      them; any of the caller's notifications left out is no newer than every
      one returned. */
  function Latest(session: Option<Session>, s: Store, fault: bool): (r: Response<seq<Notification>>)
    ensures CallerId(session).None? ==> r == Error(StatusUnauthorized, Unauthorized)
    ensures CallerId(session).Some? && fault ==> r == Error(StatusInternal, FetchFailed)
    ensures CallerId(session).Some? && !fault ==>
              var callerId := CallerId(session).value;
              var mine := Inbox(s.notifications, callerId);
              && r.Json? && r.status == StatusOk
              && |r.value| == Min(PageSize, |mine|)
              && (forall n :: n in r.value ==> n in s.notifications && n.userId == callerId)
              && SortedDesc(r.value, NotificationCreatedAt)
              && multiset(r.value) <= multiset(mine)
              && (forall n, m :: n in r.value && m in multiset(mine) - multiset(r.value) ==> n.createdAt >= m.createdAt)
  {
    match CallerId(session)
    case None => Error(StatusUnauthorized, Unauthorized)
    case Some(callerId) =>
      if fault then Error(StatusInternal, FetchFailed)
      else
        var mine := Inbox(s.notifications, callerId);
        var page := Page(mine, Min(PageSize, |mine|));
        assert forall n :: n in page ==> n in multiset(mine);
        Json(StatusOk, page)
  }

  /** The body of a `PUT`: `ids` is present only when it is an array;
      `markAll` is its truthiness. */
  datatype MarkInput = MarkInput(ids: Option<seq<Id>>, markAll: bool)

  /** Whether the body asks for any update at all. */
  predicate Updates(b: MarkInput) {
    b.markAll || (b.ids.Some? && |b.ids.value| > 0)
  }

  /** The body asks for `n` to be read on behalf of `callerId`: it is the
      caller's and either everything or its id was named. */
  predicate Asked(n: Notification, callerId: Id, b: MarkInput) {
    n.userId == callerId && (b.markAll || (b.ids.Some? && |b.ids.value| > 0 && n.id in b.ids.value))
  }

  /** The `where` of the update: the caller's unread rows for `markAll`,
      otherwise the caller's rows among `ids`. */
  predicate Selected(n: Notification, callerId: Id, b: MarkInput) {
    && n.userId == callerId
    && (if b.markAll then !n.read else b.ids.Some? && n.id in b.ids.value)
  }

  function MarkSelected(ns: seq<Notification>, callerId: Id, b: MarkInput): seq<Notification> {
    seq(|ns|, i requires 0 <= i < |ns| => if Selected(ns[i], callerId, b) then ns[i].(read := true) else ns[i])
  }

  /** `PUT`: marks the selected rows read and replies `{ success: true }`;
      `body` is `None` when the request body is not JSON or is `null`;
      `fault` is a database error in the update. */
  function MarkRead(session: Option<Session>, body: Option<MarkInput>, s: Store, fault: bool): (o: Outcome<bool>)
    ensures CallerId(session).None? ==> o == Outcome(Error(StatusUnauthorized, Unauthorized), s)
    ensures o.response.status != StatusOk ==> o.store == s
    ensures o.response.status == StatusOk <==>
              CallerId(session).Some? && body.Some? && !(Updates(body.value) && fault)
    ensures o.response.status == StatusOk ==> o.response == Json(StatusOk, true)
    ensures o.store.users == s.users && o.store.projects == s.projects
    ensures o.store.tasks == s.tasks && o.store.milestones == s.milestones
    ensures |o.store.notifications| == |s.notifications|
    ensures forall i :: 0 <= i < |s.notifications| ==>
              o.store.notifications[i].(read := s.notifications[i].read) == s.notifications[i]
    ensures forall i :: 0 <= i < |s.notifications| ==>
              (o.store.notifications[i].read <==>
                 s.notifications[i].read
                 || (o.response.status == StatusOk && Asked(s.notifications[i], CallerId(session).value, body.value)))
  {
    match CallerId(session)
    case None => Outcome(Error(StatusUnauthorized, Unauthorized), s)
    case Some(callerId) =>
      if body.None? then Outcome(Error(StatusInternal, UpdateFailed), s)
      else if !Updates(body.value) then Outcome(Json(StatusOk, true), s)
      else if fault then Outcome(Error(StatusInternal, UpdateFailed), s)
      else Outcome(Json(StatusOk, true), s.(notifications := MarkSelected(s.notifications, callerId, body.value)))
  }

  /** Another account's notifications are never changed, whatever the body. */
  lemma OthersUntouched(session: Option<Session>, body: Option<MarkInput>, s: Store, fault: bool, i: nat)
    requires i < |s.notifications|
    requires CallerId(session).None? || s.notifications[i].userId != CallerId(session).value
    ensures MarkRead(session, body, s, fault).store.notifications[i] == s.notifications[i]
  {
  }

  /** A truthy `markAll` wins over `ids`. */
  lemma MarkAllWins(session: Option<Session>, ids: Option<seq<Id>>, s: Store, fault: bool)
    ensures MarkRead(session, Some(MarkInput(ids, true)), s, fault) == MarkRead(session, Some(MarkInput(None, true)), s, fault)
  {
    var o1 := MarkRead(session, Some(MarkInput(ids, true)), s, fault);
    var o2 := MarkRead(session, Some(MarkInput(None, true)), s, fault);
    assert o1.store.notifications == o2.store.notifications;
  }

  /** Repeating a `PUT` changes nothing more. */
  lemma {:induction false} MarkReadIdempotent(session: Option<Session>, body: Option<MarkInput>, s: Store, fault: bool)
    ensures var once := MarkRead(session, body, s, fault).store;
            MarkRead(session, body, once, fault).store == once
  {
    var once := MarkRead(session, body, s, fault).store;
    var twice := MarkRead(session, body, once, fault).store;
    assert twice.notifications == once.notifications;
  }

  /** Marking read keeps the store's integrity. */
  lemma MarkReadPreservesValid(session: Option<Session>, body: Option<MarkInput>, s: Store, fault: bool)
    requires Valid(s)
    ensures Valid(MarkRead(session, body, s, fault).store)
  {
    var o := MarkRead(session, body, s, fault);
    assert forall i :: 0 <= i < |s.notifications| ==>
      o.store.notifications[i].id == s.notifications[i].id && o.store.notifications[i].userId == s.notifications[i].userId;
    assert forall n :: n in o.store.notifications ==> HasUser(s, n.userId);
  }

  /** A body asking for nothing (no truthy `markAll`, no non-empty `ids`)
      still succeeds, and changes nothing. */
  lemma NothingAskedNothingChanges(session: Option<Session>, b: MarkInput, s: Store, fault: bool)
    requires CallerId(session).Some? && !Updates(b)
    ensures MarkRead(session, Some(b), s, fault) == Outcome(Json(StatusOk, true), s)
  {
  }
}
