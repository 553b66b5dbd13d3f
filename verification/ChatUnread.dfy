/** The unread count, derived from `lastReadAt`, behaves like the counter it replaces. */
module ChatUnread {
  import opened Prelude
  import opened ChatModel
  import opened ChatMessages

  // -------------------------------------------------- the derived count

  ghost function Foreign(messages: map<string, Message>, c: string, u: string): set<string> {
    set m | m in messages && messages[m].conversationId == c && messages[m].senderId != u
  }

  predicate After(t: int, lastReadAt: Option<int>) {
    lastReadAt.Some? ==> t > lastReadAt.value
  }

  /** The messages counted for a member: from somebody else, sent after the member last read. */
  ghost function Unread(w: World, c: string, u: string): set<string>
    requires IsMember(w, c, u)
  {
    set m | m in Foreign(w.messages, c, u) && After(w.messages[m].sentAt, w.conversations[c].members[u].lastReadAt)
  }

  /** The count is of the messages of others in the conversation sent after the last reading, or of all of them. */
  lemma UnreadMeans(w: World, c: string, u: string, m: string)
    requires IsMember(w, c, u)
    ensures var last := w.conversations[c].members[u].lastReadAt;
      m in Unread(w, c, u) <==>
        && m in w.messages && w.messages[m].conversationId == c && w.messages[m].senderId != u
        && (last.None? || w.messages[m].sentAt > last.value)
  {
  }

  // ------------------------------------------------------- the counter

  /**
   The counter column of one user in one conversation, as it would be kept: a
   new member starts with the messages that are there, a stored message adds one
   for everybody but its sender, a batch read sets it to zero, a removal drops it.
   */
  ghost function Count(w: World, c: string, u: string, n: Option<nat>, e: Event): Option<nat> {
    match e
    case DoCreate(_, _, _, _, _, _) =>
      if !IsMember(w, c, u) && IsMember(Step(w, e), c, u) then Some(0) else n
    case DoAdd(d, user, me, _, _) =>
      if d == c && user == u && IsAdmin(w, c, me) && u in w.users && !IsMember(w, c, u)
      then Some(|Foreign(w.messages, c, u)|) else n
    case DoRemove(d, user, me, _) =>
      if d == c && user == u && c in w.conversations && w.conversations[c].kind.Group? && (me == u || IsAdmin(w, c, me))
      then None else n
    case DoSend(d, me, _, _, existing, _, _, _) =>
      if d == c && me != u && n.Some? && IsMember(w, c, me) && existing.None? then Some(n.value + 1) else n
    case DoBatchRead(ms, user, d, _) =>
      if d == c && user == u && n.Some? && (ms == [] || (u in w.users && forall m :: m in ms ==> m in w.messages))
      then Some(0) else n
    case _ => n
  }

  ghost function CountRun(w: World, c: string, u: string, n: Option<nat>, es: seq<Event>): Option<nat>
    decreases |es|
  {
    if es == [] then n else CountRun(Step(w, es[0]), c, u, Count(w, c, u, n, es[0]), es[1..])
  }

  ghost predicate Agrees(w: World, c: string, u: string, n: Option<nat>) {
    if IsMember(w, c, u) then n == Some(|Unread(w, c, u)|) else n == None
  }

  ghost predicate ReadsInThePast(w: World) {
    forall c, u :: IsMember(w, c, u) && w.conversations[c].members[u].lastReadAt.Some? ==>
      w.conversations[c].members[u].lastReadAt.value <= w.now
  }

  ghost predicate MessagesInThePast(w: World) {
    forall m :: m in w.messages ==>
      w.messages[m].conversationId in w.conversations && w.messages[m].sentAt <= w.now
  }

  /** Nobody has read in the future, and messages belong to existing conversations and to the past. */
  ghost predicate InThePast(w: World) {
    ReadsInThePast(w) && MessagesInThePast(w)
  }

  /** Where the reading time of a member comes from. */
  lemma ReadsStay(w: World, e: Event, c: string, u: string)
    requires Enabled(w, e) && IsMember(Step(w, e), c, u)
    ensures var at := Step(w, e).conversations[c].members[u].lastReadAt;
      || at.None?
      || (IsMember(w, c, u) && at == w.conversations[c].members[u].lastReadAt)
      || (e.DoBatchRead? && at.value == End(e))
  {
  }

  lemma ConversationsStay(w: World, e: Event)
    requires Enabled(w, e)
    ensures w.conversations.Keys <= Step(w, e).conversations.Keys && Step(w, e).now == End(e)
  {
  }

  lemma PastStays(w: World, e: Event)
    requires InThePast(w) && Enabled(w, e)
    ensures InThePast(Step(w, e))
  {
    var v := Step(w, e);
    ConversationsStay(w, e);
    forall c, u | IsMember(v, c, u) && v.conversations[c].members[u].lastReadAt.Some?
      ensures v.conversations[c].members[u].lastReadAt.value <= v.now
    {
      ReadsStay(w, e, c, u);
    }
    forall m | m in v.messages
      ensures v.messages[m].conversationId in v.conversations && v.messages[m].sentAt <= v.now
    {
      RowChanges(w, e, m);
    }
  }

  // ------------------------------------------------------------------ steps

  /** The unread set does not change when neither the rows of others nor the member's reading time change. */
  lemma SameUnread(w: World, v: World, c: string, u: string)
    requires IsMember(w, c, u) && IsMember(v, c, u)
    requires w.conversations[c].members[u].lastReadAt == v.conversations[c].members[u].lastReadAt
    requires v.messages.Keys == w.messages.Keys
    requires forall m :: m in w.messages ==> SameIdentity(w.messages[m], v.messages[m])
    ensures Unread(v, c, u) == Unread(w, c, u)
  {
  }

  lemma NewRowUnread(w: World, v: World, c: string, u: string, m: string, row: Message)
    requires IsMember(w, c, u) && v.conversations == w.conversations
    requires m !in w.messages && v.messages == w.messages[m := row] && row.conversationId == c
    ensures Unread(v, c, u) == Unread(w, c, u) +
      if row.senderId != u && After(row.sentAt, w.conversations[c].members[u].lastReadAt) then {m} else {}
    ensures m !in Unread(w, c, u)
  {
  }

  /**
   A stored message raises the derived count of another member by exactly one,
   and that of its sender not at all, if and only if it is sent later than the
   last reading. A message of the same millisecond is not counted.
   */
  lemma SendExact(w: World, c: string, u: string, e: Event)
    requires Enabled(w, e) && e.DoSend? && e.c == c && IsMember(w, c, u)
    requires e.existing.None? && IsMember(w, c, e.me)
    ensures var last := w.conversations[c].members[u].lastReadAt;
      |Unread(Step(w, e), c, u)| == |Unread(w, c, u)| + if e.me != u && (last.None? || e.sat.sent > last.value) then 1 else 0
  {
    NewRowUnread(w, Step(w, e), c, u, e.id, NewMessage(e.c, e.me, e.clientId, e.text, e.sat.sent));
  }

  /** A row of another conversation does not count. */
  lemma ElsewhereUnread(w: World, v: World, c: string, u: string, m: string)
    requires IsMember(w, c, u) && v.conversations == w.conversations
    requires m !in w.messages && m in v.messages && v.messages == w.messages[m := v.messages[m]] && v.messages[m].conversationId != c
    ensures Unread(v, c, u) == Unread(w, c, u)
  {
  }

  lemma SendAgrees(w: World, c: string, u: string, n: Option<nat>, e: Event)
    requires InThePast(w) && Enabled(w, e) && w.now < Start(e) && e.DoSend? && Agrees(w, c, u, n)
    ensures Agrees(Step(w, e), c, u, Count(w, c, u, n, e))
  {
    var v := Step(w, e);
    if IsMember(w, c, u) {
      if v.messages == w.messages {
        SameUnread(w, v, c, u);
      } else if e.c == c {
        SendExact(w, c, u, e);
      } else {
        ElsewhereUnread(w, v, c, u, e.id);
      }
    }
  }

  lemma ReadAgrees(w: World, c: string, u: string, n: Option<nat>, e: Event)
    requires InThePast(w) && Enabled(w, e) && e.DoBatchRead? && Agrees(w, c, u, n)
    ensures Agrees(Step(w, e), c, u, Count(w, c, u, n, e))
  {
    var v := Step(w, e);
    if IsMember(w, c, u) {
      if e.c == c && e.user == u && BatchRead(w, e.ms, e.user, e.c, e.rat).1.Ok? {
        assert v.conversations[c].members[u].lastReadAt == Some(e.rat.reset);
        assert Unread(v, c, u) == {};
      } else {
        SameUnread(w, v, c, u);
      }
    }
  }

  lemma CreateAgrees(w: World, c: string, u: string, n: Option<nat>, e: Event)
    requires MessagesInThePast(w) && Enabled(w, e) && e.DoCreate? && Agrees(w, c, u, n)
    ensures Agrees(Step(w, e), c, u, Count(w, c, u, n, e))
  {
    var v := Step(w, e);
    if IsMember(w, c, u) {
      SameUnread(w, v, c, u);
    } else if IsMember(v, c, u) {
      NothingYet(w, c, u);
      JoinedUnread(v, c, u);
    }
  }

  lemma NothingYet(w: World, c: string, u: string)
    requires MessagesInThePast(w) && c !in w.conversations
    ensures Foreign(w.messages, c, u) == {}
  {
  }

  /** A member who has never read sees every message of the others. */
  lemma JoinedUnread(w: World, c: string, u: string)
    requires IsMember(w, c, u) && w.conversations[c].members[u].lastReadAt.None?
    ensures Unread(w, c, u) == Foreign(w.messages, c, u)
  {
  }

  lemma AddAgrees(w: World, c: string, u: string, n: Option<nat>, e: Event)
    requires Enabled(w, e) && (e.DoAdd? || e.DoRemove?) && Agrees(w, c, u, n)
    ensures Agrees(Step(w, e), c, u, Count(w, c, u, n, e))
  {
    var v := Step(w, e);
    assert v.messages == w.messages;
    if IsMember(v, c, u) {
      if IsMember(w, c, u) {
        SameUnread(w, v, c, u);
      } else {
        JoinedUnread(v, c, u);
      }
    }
  }

  lemma SetRoleAgrees(w: World, c: string, u: string, n: Option<nat>, e: Event)
    requires e.DoSetRole? && Agrees(w, c, u, n)
    ensures Agrees(Step(w, e), c, u, Count(w, c, u, n, e))
  {
    if IsMember(w, c, u) {
      SameUnread(w, Step(w, e), c, u);
    }
  }

  /** Edits and deletions included: they change no row's sender or time. */
  lemma RestAgrees(w: World, c: string, u: string, n: Option<nat>, e: Event)
    requires e.DoSignUp? || e.DoGetIds? || e.DoEdit? || e.DoDelete? || e.DoSetStatus?
    requires Agrees(w, c, u, n)
    ensures Agrees(Step(w, e), c, u, Count(w, c, u, n, e))
  {
    if IsMember(w, c, u) {
      SameUnread(w, Step(w, e), c, u);
    }
  }

  lemma StepAgrees(w: World, c: string, u: string, n: Option<nat>, e: Event)
    requires InThePast(w) && Enabled(w, e) && w.now < Start(e) && Agrees(w, c, u, n)
    ensures Agrees(Step(w, e), c, u, Count(w, c, u, n, e))
  {
    match e
    case DoSend(_, _, _, _, _, _, _, _) => SendAgrees(w, c, u, n, e);
    case DoBatchRead(_, _, _, _) => ReadAgrees(w, c, u, n, e);
    case DoCreate(_, _, _, _, _, _) => CreateAgrees(w, c, u, n, e);
    case DoAdd(_, _, _, _, _) => AddAgrees(w, c, u, n, e);
    case DoRemove(_, _, _, _) => AddAgrees(w, c, u, n, e);
    case DoSetRole(_, _, _, _, _) => SetRoleAgrees(w, c, u, n, e);
    case _ => RestAgrees(w, c, u, n, e);
  }

  /** A run in which the clock advances between requests. */
  ghost predicate StrictRun(w: World, es: seq<Event>)
    decreases |es|
  {
    es == [] || (Enabled(w, es[0]) && w.now < Start(es[0]) && StrictRun(Step(w, es[0]), es[1..]))
  }

  /** Main result: after any such run the derived unread count of every member is the counter's value. */
  lemma {:induction false} UnreadIsCounter(w: World, c: string, u: string, n: Option<nat>, es: seq<Event>)
    requires InThePast(w) && Agrees(w, c, u, n) && StrictRun(w, es)
    ensures Agrees(Run(w, es), c, u, CountRun(w, c, u, n, es))
    decreases |es|
  {
    if es != [] {
      PastStays(w, es[0]);
      StepAgrees(w, c, u, n, es[0]);
      UnreadIsCounter(Step(w, es[0]), c, u, Count(w, c, u, n, es[0]), es[1..]);
    }
  }

  lemma UnreadIsCounterFromStart(es: seq<Event>, c: string, u: string)
    requires StrictRun(INITIAL, es) && IsMember(Run(INITIAL, es), c, u)
    ensures CountRun(INITIAL, c, u, None, es) == Some(|Unread(Run(INITIAL, es), c, u)|)
  {
    UnreadIsCounter(INITIAL, c, u, None, es);
  }
}
