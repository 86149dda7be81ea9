/** The notification log: a member's paginated listing, the organizers'
    broadcast, and the per-member fan-out that broadcasting and meeting
    confirmation share. */
module Notifications {
  import opened Api
  import opened Text
  import opened Tables
  import opened Query

  // ---------------------------------------------------------------- fan-out

  /** The subject and text every member receives. */
  datatype Message = Message(subject: Option<string>, body: string)

  /** `member.contact_channel || 'email'`. */
  function ChannelOf(u: User): string {
    if u.contactChannel.Some? && u.contactChannel.value != "" then u.contactChannel.value else "email"
  }

  function Letter(id: Id, u: User, msg: Message, now: Timestamp): Notification {
    Notification(id, u.id, ChannelOf(u), msg.subject, msg.body, now)
  }

  /** The rows the `for (const member of members)` loop inserts: one per
      member in table order, drawing consecutive ids from `firstId`. */
  function Fanout(users: seq<User>, firstId: Id, msg: Message, now: Timestamp): (ns: seq<Notification>)
    ensures |ns| == |users|
    ensures forall i :: 0 <= i < |users| ==>
      && ns[i].id == firstId + i && ns[i].userId == users[i].id && ns[i].channel == ChannelOf(users[i])
      && ns[i].subject == msg.subject && ns[i].body == msg.body
  {
    seq(|users|, i requires 0 <= i < |users| => Letter(firstId + i, users[i], msg, now))
  }

  lemma FanoutSnoc(users: seq<User>, i: nat, firstId: Id, msg: Message, now: Timestamp)
    requires i < |users|
    ensures Fanout(users[..i + 1], firstId, msg, now)
         == Fanout(users[..i], firstId, msg, now) + [Letter(firstId + i, users[i], msg, now)]
  {
  }

  predicate Addressed(userId: Id, n: Notification) {
    n.userId == userId
  }

  /** The fan-out addresses each member as many times as the users table
      lists them. */
  lemma {:induction false} FanoutCount(users: seq<User>, firstId: Id, msg: Message, now: Timestamp, userId: Id)
    ensures Count(Fanout(users, firstId, msg, now), (n: Notification) => Addressed(userId, n))
         == Count(users, (u: User) => u.id == userId)
  {
    if users != [] {
      var ns := Fanout(users, firstId, msg, now);
      var tail := Fanout(users[1..], firstId + 1, msg, now);
      assert ns[1..] == tail by {
        forall i | 0 <= i < |tail| ensures ns[1..][i] == tail[i] {
          assert tail[i] == Letter(firstId + 1 + i, users[1..][i], msg, now);
        }
      }
      FanoutCount(users[1..], firstId + 1, msg, now, userId);
    }
  }

  /** With distinct user ids, every member gets exactly one row and nobody
      else gets any. */
  lemma FanoutOncePerMember(users: seq<User>, firstId: Id, msg: Message, now: Timestamp, userId: Id)
    requires forall i, j :: 0 <= i < j < |users| ==> users[i].id != users[j].id
    ensures Count(Fanout(users, firstId, msg, now), (n: Notification) => Addressed(userId, n))
         == if UserIndex(users, userId) >= 0 then 1 else 0
  {
    FanoutCount(users, firstId, msg, now, userId);
    UserIdCount(users, userId);
  }

  /** The insert loop: one `INSERT INTO notifications` per member. */
  method NotifyAll(db: Db, members: seq<User>, msg: Message, now: Timestamp)
    requires db.Valid()
    modifies db
    ensures db.Valid()
    ensures db.Snapshot() == old(db.Snapshot()).(
      notifications := old(db.notifications) + Fanout(members, old(db.nextId), msg, now),
      nextId := old(db.nextId) + |members|)
  {
    ghost var s1 := db.Snapshot();
    var i := 0;
    while i < |members|
      invariant 0 <= i <= |members|
      invariant db.Valid()
      invariant db.Snapshot() == s1.(notifications := s1.notifications + Fanout(members[..i], s1.nextId, msg, now),
                                     nextId := s1.nextId + i)
    {
      FanoutSnoc(members, i, s1.nextId, msg, now);
      db.InsertNotification(Letter(db.nextId, members[i], msg, now));
      i := i + 1;
    }
    assert members[..i] == members;
  }

  // ---------------------------------------------------------------- listing

  /** `parseInt(x) || d`: an absent, unparsable (None) or zero value gives
      the default. */
  function OrDefault(x: Option<int>, d: int): int {
    if x.None? || x.value == 0 then d else x.value
  }

  /** `(page - 1) * limit`. */
  function Offset(page: Option<int>, limit: Option<int>): int {
    (OrDefault(page, 1) - 1) * OrDefault(limit, 20)
  }

  function NewestKey(n: Notification): (int, int) {
    (-n.createdAt, 0)
  }

  /** The caller's notifications, newest first. */
  function Inbox(s: State, userId: Id): (ns: seq<Notification>)
    ensures SortedBy(ns, NewestKey)
    ensures multiset(ns) == multiset(Filter(s.notifications, (n: Notification) => Addressed(userId, n)))
  {
    SortBy(Filter(s.notifications, (n: Notification) => Addressed(userId, n)), NewestKey)
  }

  /** The response of `GET /api/notifications`. */
  datatype Page = Page(notifications: seq<Notification>, total: nat, page: int, limit: int)

  /** `GET /api/notifications?page=&limit=`: the validators are declared
      but their result is never consulted, so a negative page or limit
      reaches the database, whose negative OFFSET or LIMIT fails. */
  function ListNotifications(s: State, caller: Caller, page: Option<int>, limit: Option<int>): (r: Result<Page>)
    ensures r.Err? <==> OrDefault(limit, 20) < 0 || Offset(page, limit) < 0
    ensures r.Err? ==> r.error == ServerError
    ensures r.Ok? ==> r.value.page == OrDefault(page, 1) && r.value.limit == OrDefault(limit, 20)
  {
    var p := OrDefault(page, 1);
    var l := OrDefault(limit, 20);
    var offset := Offset(page, limit);
    if l < 0 || offset < 0 then Err(ServerError)
    else
      Ok(Page(Window(Inbox(s, caller.id), offset, l), Count(s.notifications, (n: Notification) => Addressed(caller.id, n)), p, l))
  }

  /** A page holds only the caller's notifications, newest first: at most
      `limit` of them, the ones at positions `offset = (page - 1) * limit`
      onwards of the caller's whole inbox. */
  lemma PageIsSliceOfInbox(s: State, caller: Caller, page: Option<int>, limit: Option<int>)
    requires ListNotifications(s, caller, page, limit).Ok?
    ensures var r := ListNotifications(s, caller, page, limit).value;
      var offset := Offset(page, limit);
      && |r.notifications| <= OrDefault(limit, 20)
      && (forall i :: 0 <= i < |r.notifications| ==>
            r.notifications[i] == Inbox(s, caller.id)[offset + i]
            && r.notifications[i].userId == caller.id)
      && (forall i, j :: 0 <= i < j < |r.notifications| ==>
            r.notifications[i].createdAt >= r.notifications[j].createdAt)
  {
    var mine := Inbox(s, caller.id);
    var offset := Offset(page, limit);
    var w := Window(mine, offset, OrDefault(limit, 20));
    assert ListNotifications(s, caller, page, limit).value.notifications == w;
    InboxNewestFirst(s, caller.id);
    WindowNewestFirst(mine, offset, OrDefault(limit, 20));
  }

  /** A window of a newest-first list is newest first. */
  lemma WindowNewestFirst(rows: seq<Notification>, offset: nat, l: nat)
    requires forall i, j :: 0 <= i < j < |rows| ==> rows[i].createdAt >= rows[j].createdAt
    ensures var w := Window(rows, offset, l);
      forall i, j :: 0 <= i < j < |w| ==> w[i].createdAt >= w[j].createdAt
  {
    var w := Window(rows, offset, l);
    forall i, j | 0 <= i < j < |w| ensures w[i].createdAt >= w[j].createdAt {
      assert w[i] == rows[offset + i] && w[j] == rows[offset + j];
    }
  }

  /** `OFFSET offset LIMIT l`: the rows from position `offset` on, at most
      `l` of them, none when the offset is past the end. */
  function Window<T>(rows: seq<T>, offset: nat, l: nat): (w: seq<T>)
    ensures |w| <= l
    ensures forall i :: 0 <= i < |w| ==> offset + i < |rows| && w[i] == rows[offset + i]
    ensures |w| == if offset + l <= |rows| then l else if offset <= |rows| then |rows| - offset else 0
  {
    var from := if offset < |rows| then offset else |rows|;
    var to := if offset + l < |rows| then offset + l else |rows|;
    rows[from..to]
  }

  /** The inbox holds only the member's notifications, newest first. */
  lemma InboxNewestFirst(s: State, userId: Id)
    ensures forall i :: 0 <= i < |Inbox(s, userId)| ==> Inbox(s, userId)[i].userId == userId
    ensures forall i, j :: 0 <= i < j < |Inbox(s, userId)| ==> Inbox(s, userId)[i].createdAt >= Inbox(s, userId)[j].createdAt
  {
    var mine := Inbox(s, userId);
    forall i | 0 <= i < |mine| ensures mine[i].userId == userId {
      assert mine[i] in multiset(Filter(s.notifications, (n: Notification) => Addressed(userId, n)));
    }
    forall i, j | 0 <= i < j < |mine| ensures mine[i].createdAt >= mine[j].createdAt {
      assert KeyLeq(NewestKey(mine[i]), NewestKey(mine[j]));
    }
  }

  /** With no query parameters the first 20 notifications are listed. */
  lemma DefaultPage(s: State, caller: Caller)
    ensures ListNotifications(s, caller, None, None).Ok?
    ensures ListNotifications(s, caller, None, None).value.page == 1
    ensures ListNotifications(s, caller, None, None).value.limit == 20
    ensures ListNotifications(s, caller, None, None).value.notifications
         == Inbox(s, caller.id)[..if |Inbox(s, caller.id)| < 20 then |Inbox(s, caller.id)| else 20]
  {
  }

  /** `total` counts all of the caller's notifications, whichever page is
      asked for. */
  lemma TotalIgnoresPage(s: State, caller: Caller, page: Option<int>, limit: Option<int>)
    requires ListNotifications(s, caller, page, limit).Ok?
    ensures ListNotifications(s, caller, page, limit).value.total == |Inbox(s, caller.id)|
    ensures ListNotifications(s, caller, page, limit).value.total
         == ListNotifications(s, caller, None, None).value.total
  {
    var f := Filter(s.notifications, (n: Notification) => Addressed(caller.id, n));
    assert |multiset(Inbox(s, caller.id))| == |multiset(f)|;
  }

  // -------------------------------------------------------------- broadcast

  /** A broadcast body; None is an absent field. */
  datatype SendBody = SendBody(subject: Option<string>, body: Option<string>)

  /** What every member receives: the trimmed text, and the trimmed subject
      or null when it is absent or blank. */
  function BroadcastMessage(body: SendBody): Message
    requires body.body.Some?
  {
    Message(NullIfBlank(body.subject), Trim(body.body.value))
  }

  /** `POST /api/notifications/send` (organizers only): the text must not
      be blank; the answer reports how many members were notified. */
  function BroadcastStep(s: State, caller: Caller, body: SendBody, now: Timestamp): (r: Step<nat>)
    ensures r.result.Err? ==> r.after == s
    ensures r.result.Ok? <==> caller.role == Admin && Trim(OrEmpty(body.body)) != []
    ensures r.result.Ok? ==>
      && r.result.value == |s.users|
      && r.after == s.(notifications := s.notifications + Fanout(s.users, s.nextId, BroadcastMessage(body), now),
                       nextId := s.nextId + |s.users|)
  {
    if RequireAdmin(caller).Some? then Step(Err(AdminRequired), s)
    else if Trim(OrEmpty(body.body)) == [] then Step(Err(Invalid(["body"])), s)
    else
      var msg := BroadcastMessage(body);
      Step(Ok(|s.users|), s.(notifications := s.notifications + Fanout(s.users, s.nextId, msg, now),
                             nextId := s.nextId + |s.users|))
  }

  /** A broadcast keeps every earlier notification, appends exactly one
      non-blank message per member, and reports that many members. */
  lemma BroadcastOncePerMember(s: State, caller: Caller, body: SendBody, now: Timestamp, userId: Id)
    requires ValidState(s)
    requires BroadcastStep(s, caller, body, now).result.Ok?
    ensures BroadcastStep(s, caller, body, now).after.notifications[..|s.notifications|] == s.notifications
    ensures |BroadcastStep(s, caller, body, now).after.notifications| - |s.notifications|
         == BroadcastStep(s, caller, body, now).result.value
    ensures Count(BroadcastStep(s, caller, body, now).after.notifications[|s.notifications|..],
                  (n: Notification) => Addressed(userId, n))
         == if UserIndex(s.users, userId) >= 0 then 1 else 0
    ensures body.body.Some? && Trim(body.body.value) != []
    ensures forall i :: |s.notifications| <= i < |BroadcastStep(s, caller, body, now).after.notifications| ==>
      BroadcastStep(s, caller, body, now).after.notifications[i].body == Trim(body.body.value)
  {
    var msg := BroadcastMessage(body);
    var ns := Fanout(s.users, s.nextId, msg, now);
    var all := s.notifications + ns;
    assert BroadcastStep(s, caller, body, now).after.notifications == all;
    assert all[..|s.notifications|] == s.notifications;
    assert all[|s.notifications|..] == ns;
    FanoutOncePerMember(s.users, s.nextId, msg, now, userId);
    assert body.body.Some? && Trim(body.body.value) != [];
    forall i | |s.notifications| <= i < |all| ensures all[i].body == Trim(body.body.value) {
      assert all[i] == ns[i - |s.notifications|];
    }
  }

  method Broadcast(db: Db, caller: Caller, body: SendBody, now: Timestamp) returns (r: Result<nat>)
    requires db.Valid()
    modifies db
    ensures db.Valid()
    ensures Step(r, db.Snapshot()) == BroadcastStep(old(db.Snapshot()), caller, body, now)
  {
    if caller.role != Admin {
      return Err(AdminRequired);
    }
    if Trim(OrEmpty(body.body)) == [] {
      return Err(Invalid(["body"]));
    }
    var members := db.users;
    NotifyAll(db, members, BroadcastMessage(body), now);
    r := Ok(|members|);
  }
}
