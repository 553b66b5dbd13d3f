/**
 What each request on conversations and messages answers and does to the tables, for
 every state: when it succeeds, what it writes, and that it writes nothing else.
 */
module ChatRequests {
  import opened Prelude
  import opened Cache
  import opened ChatModel
  import opened ChatMessages
  import G = ChatGroups

  /** All stores are as before; only the clock has moved. */
  ghost predicate IsUntouched(w: World, v: World) {
    v == w.(now := v.now)
  }

  ghost predicate IsGroup(w: World, c: string) {
    c in w.conversations && w.conversations[c].kind.Group?
  }

  // ---------------------------------------------------------- conversations

  /** All the users a new conversation is for are known. */
  ghost predicate AreKnown(w: World, others: seq<string>, me: string) {
    me in w.users && forall u :: u in others ==> u in w.users
  }

  /**
   A direct conversation is created for one other user, not oneself. If the search
   finds one, its id is answered and nothing is written, known users or not; else
   both users must be known.
   */
  lemma CreateDirectExact(w: World, others: seq<string>, me: string, found: Option<string>, id: string, t: int)
    ensures var (v, r) := Create(w, Direct, others, me, found, id, t);
      && (r == Err(WrongParticipantCount) <==> |others| != 1)
      && (r == Err(SelfConversation) <==> |others| == 1 && others[0] == me)
      && (r == Err(UsersNotFound) <==> |others| == 1 && others[0] != me && found.None? && !AreKnown(w, others, me))
      && (r.Ok? <==> |others| == 1 && others[0] != me && (found.Some? || AreKnown(w, others, me)))
      && (r.Err? || found.Some? ==> IsUntouched(w, v))
      && (r.Ok? && found.Some? ==> r.value == found.value)
      && (r.Ok? && found.None? ==> r.value == id && IsNewDirect(w, v, id, me, others[0]))
  {
    CreatedIds(others, me);
    if |others| == 1 {
      assert others[0] in others;
    }
  }

  ghost predicate IsNewDirect(w: World, v: World, id: string, a: string, b: string) {
    && v == w.(now := v.now, conversations := v.conversations)
    && v.conversations.Keys == w.conversations.Keys + {id}
    && (forall c :: c in w.conversations && c != id ==> v.conversations[c] == w.conversations[c])
    && v.conversations[id].kind.Direct? && v.conversations[id].members.Keys == {a, b}
    && (forall u :: u in v.conversations[id].members ==> v.conversations[id].members[u] == Membership(Member, None))
  }

  lemma CreatedIds(others: seq<string>, me: string)
    ensures forall x :: x in Dedup([me] + others) <==> x == me || x in others
  {
  }

  /**
   A group is created for two ids or more, whose users and creator are all known: with
   each of them once, the creator alone as administrator, and one job that lists every
   member once.
   */
  lemma CreateGroupExact(w: World, others: seq<string>, me: string, found: Option<string>, id: string, t: int)
    ensures var (v, r) := Create(w, Group, others, me, found, id, t);
      && (r == Err(WrongParticipantCount) <==> |others| < 2)
      && (r == Err(UsersNotFound) <==> |others| >= 2 && !AreKnown(w, others, me))
      && (r.Ok? <==> |others| >= 2 && AreKnown(w, others, me))
      && (r.Err? ==> IsUntouched(w, v))
      && (r.Ok? ==> r.value == id && IsNewGroup(w, v, id, others, me))
  {
    CreatedIds(others, me);
    if |others| >= 2 && AreKnown(w, others, me) {
      var ids := Dedup([me] + others);
      var v := Create(w, Group, others, me, found, id, t).0;
      assert v.jobs == w.jobs + [InitialKeys(id, ids)] && Lists(ids, v.conversations[id].members.Keys);
    }
  }

  ghost predicate IsNewGroup(w: World, v: World, id: string, others: seq<string>, me: string) {
    && v == w.(now := v.now, conversations := v.conversations, jobs := v.jobs)
    && v.conversations.Keys == w.conversations.Keys + {id}
    && (forall c :: c in w.conversations && c != id ==> v.conversations[c] == w.conversations[c])
    && v.conversations[id].kind.Group?
    && (forall u :: u in v.conversations[id].members <==> u == me || u in others)
    && (forall u :: u in v.conversations[id].members ==>
          v.conversations[id].members[u] == Membership(if u == me then Admin else Member, None))
    && (exists ids :: v.jobs == w.jobs + [InitialKeys(id, ids)] && Lists(ids, v.conversations[id].members.Keys))
  }

  /** What a change of the members of one conversation leaves alone. */
  ghost predicate OnlyMembersOf(w: World, v: World, c: string) {
    && v == w.(now := v.now, conversations := v.conversations, cache := v.cache, jobs := v.jobs)
    && v.conversations.Keys == w.conversations.Keys
    && (forall d :: d in w.conversations && d != c ==> v.conversations[d] == w.conversations[d])
    && c in w.conversations && v.conversations[c].kind == w.conversations[c].kind
  }

  /** The service's list of the conversation is gone and no other. */
  ghost predicate IsInvalidated(w: World, v: World, c: string) {
    && v.cache.blacklist == w.cache.blacklist && v.cache.messageParticipants == w.cache.messageParticipants
    && v.cache.serviceParticipants == w.cache.serviceParticipants - {c}
  }

  /**
   An addition succeeds exactly when an administrator of the group adds a known user
   who is no member. It writes that membership with the role asked for, drops the
   service's cached list and enqueues one job; otherwise nothing is written.
   */
  lemma AddExact(w: World, c: string, user: string, me: string, role: Role, t: int)
    ensures var (v, r) := Add(w, c, user, me, role, t);
      && (r.Ok? <==> IsAdmin(w, c, me) && user in w.users && !IsMember(w, c, user))
      && (r == Err(ConversationNotFound) <==> c !in w.conversations)
      && (r == Err(NotAGroup) <==> c in w.conversations && !IsGroup(w, c))
      && (r == Err(NotAParticipant) <==> IsGroup(w, c) && !IsMember(w, c, me))
      && (r == Err(NotAnAdmin) <==> IsGroup(w, c) && IsMember(w, c, me) && !IsAdmin(w, c, me))
      && (r == Err(UsersNotFound) <==> IsAdmin(w, c, me) && user !in w.users)
      && (r == Err(AlreadyParticipant) <==> IsAdmin(w, c, me) && user in w.users && IsMember(w, c, user))
      && (r.Err? ==> IsUntouched(w, v))
      && (r.Ok? ==>
            && OnlyMembersOf(w, v, c) && IsInvalidated(w, v, c)
            && v.conversations[c].members == w.conversations[c].members[user := Membership(role, None)]
            && v.jobs == w.jobs + [MemberAdded(c, user)])
  {
  }

  /**
   A removal succeeds exactly when an administrator of the group removes anybody, or
   anybody themselves, member or not. Then the user is no member, the others are as
   they were, and the list is dropped and a job enqueued even if nothing changed.
   */
  lemma RemoveExact(w: World, c: string, user: string, me: string, t: int)
    ensures var (v, r) := RemoveMember(w, c, user, me, t);
      && (r.Ok? <==> IsGroup(w, c) && (user == me || IsAdmin(w, c, me)))
      && (r == Err(ConversationNotFound) <==> c !in w.conversations)
      && (r == Err(NotAGroup) <==> c in w.conversations && !IsGroup(w, c))
      && (r == Err(NotAParticipant) <==> IsGroup(w, c) && user != me && !IsMember(w, c, me))
      && (r == Err(NotAnAdmin) <==> IsGroup(w, c) && user != me && IsMember(w, c, me) && !IsAdmin(w, c, me))
      && (r.Err? ==> IsUntouched(w, v))
      && (r.Ok? ==>
            && OnlyMembersOf(w, v, c) && IsInvalidated(w, v, c)
            && v.conversations[c].members == w.conversations[c].members - {user}
            && v.jobs == w.jobs + [MemberRemoved(c, user)])
  {
  }

  /**
   A role change succeeds exactly when an administrator of the group changes a member:
   to the role asked for, with the reading time and everything else as it was.
   */
  lemma SetRoleExact(w: World, c: string, user: string, role: Role, me: string, t: int)
    ensures var (v, r) := SetRole(w, c, user, role, me, t);
      && (r.Ok? <==> IsAdmin(w, c, me) && IsMember(w, c, user))
      && (r == Err(NotFoundInConversation) <==> IsAdmin(w, c, me) && !IsMember(w, c, user))
      && (r.Err? ==> IsUntouched(w, v))
      && (r.Ok? ==>
            && OnlyMembersOf(w, v, c) && v.cache == w.cache && v.jobs == w.jobs
            && v.conversations[c].members ==
                 w.conversations[c].members[user := Membership(role, w.conversations[c].members[user].lastReadAt)])
  {
  }

  /**
   A read through the service's cache answers a live list and writes nothing; without
   one it answers the database's and keeps it for 300 seconds.
   */
  lemma GetIdsExact(w: World, c: string, answer: seq<string>, at: FillTimes)
    ensures var (v, ids) := GetIds(w, c, answer, at);
      var hit := Lookup(w.cache, ServiceParticipants(c), at.lookup);
      && v == w.(now := at.fill, cache := v.cache)
      && (hit.Some? && hit.value.Ids? ==> ids == hit.value.ids && v.cache == w.cache)
      && (hit.None? ==>
            && ids == answer
            && v.cache == w.cache.(serviceParticipants := w.cache.serviceParticipants[c := Entry(Ids(answer), At(at.fill + 300 * 1000))]))
  {
  }

  // ------------------------------------------------------------ over runs

  /** Everybody in a conversation is a known user. */
  ghost predicate MembersAreUsers(w: World) {
    forall c, u :: IsMember(w, c, u) ==> u in w.users
  }

  lemma StepKeepsUsers(w: World, e: Event)
    requires MembersAreUsers(w) && Enabled(w, e)
    ensures MembersAreUsers(Step(w, e)) && w.users <= Step(w, e).users
  {
    var v := Step(w, e);
    UsersStay(w, e);
    forall c, u | IsMember(v, c, u)
      ensures u in v.users
    {
      if !IsMember(w, c, u) {
        NewMemberIsUser(w, e, c, u);
      }
    }
  }

  lemma UsersStay(w: World, e: Event)
    requires Enabled(w, e)
    ensures w.users <= Step(w, e).users
  {
  }

  lemma NewMemberIsUser(w: World, e: Event, c: string, u: string)
    requires Enabled(w, e) && IsMember(Step(w, e), c, u) && !IsMember(w, c, u)
    ensures u in w.users
  {
    G.MembershipChanges(w, e, c, u);
    if e.DoAdd? {
      AddExact(w, e.c, e.user, e.me, e.role, e.t);
    } else if e.DoCreate? && e.kind.Group? {
      CreateGroupExact(w, e.others, e.me, e.found, e.id, e.t);
    } else if e.DoCreate? {
      CreateDirectExact(w, e.others, e.me, e.found, e.id, e.t);
    }
  }

  /** In every reachable state every member of a conversation is a known user. */
  lemma {:induction false} RunKeepsUsers(w: World, es: seq<Event>)
    requires MembersAreUsers(w) && CanRun(w, es)
    ensures MembersAreUsers(Run(w, es)) && w.users <= Run(w, es).users
    decreases |es|
  {
    if es != [] {
      StepKeepsUsers(w, es[0]);
      RunKeepsUsers(Step(w, es[0]), es[1..]);
    }
  }

  /**
   Once two users share a direct conversation, either of them who asks for one again,
   however much later, is answered that very conversation, and nothing is written.
   */
  lemma RepeatedCreationAnswersFirst(w: World, es: seq<Event>, c: string, a: string, b: string, found: Option<string>, id: string, t: int)
    requires G.GroupInv(w) && CanRun(w, es) && a != b && IsDirectBetween(w, c, a, b)
    requires Enabled(Run(w, es), DoCreate(Direct, [b], a, found, id, t))
    ensures var v := Run(w, es);
      var (x, r) := Create(v, Direct, [b], a, found, id, t);
      r == Ok(c) && IsUntouched(v, x)
  {
    var v := Run(w, es);
    G.RunKeeps(w, es);
    G.DirectIsForEver(w, es, c);
    assert {a, b} <= MemberIds(w, c);
    assert a in MemberIds(v, c) && b in MemberIds(v, c);
    assert IsDirectBetween(v, c, a, b);
    assert AnswersDirect(v, found, a, b);
    assert found.Some? && IsDirectBetween(v, found.value, a, b);
    CreateDirectExact(v, [b], a, found, id, t);
  }

  // -------------------------------------------------------------- messages

  /**
   A send succeeds exactly for a member. A client id that is known already answers its
   row and writes nothing; a new one writes one row with what was sent, and its jobs.
   */
  lemma SendAnswersExact(w: World, c: string, sender: string, clientId: string, text: string,
                         existing: Option<string>, id: string, answer: seq<string>, at: SendTimes)
    ensures var (v, r) := Send(w, c, sender, clientId, text, existing, id, answer, at);
      && (r.Ok? <==> IsMember(w, c, sender))
      && (r.Err? ==> r.error == NotAParticipant)
      && (r.Err? || existing.Some? ==> IsUntouched(w, v))
      && (r.Ok? && existing.Some? ==> r.value == existing.value)
      && (r.Ok? && existing.None? ==>
            && r.value == id
            && v == w.(now := v.now, messages := v.messages, cache := v.cache, jobs := v.jobs)
            && v.messages == w.messages[id := Message(c, sender, clientId, at.sent, Some(text), false, None, false, None)]
            && w.jobs <= v.jobs
            && (LinkPreview(id, c) in v.jobs[|w.jobs|..] <==>
                  exists i :: IsLinkAt(text, i, "http://") || IsLinkAt(text, i, "https://")))
  {
    LinkExact(text);
    if IsMember(w, c, sender) && existing.None? {
      var sent := CachedIds(w.cache, MessageParticipants(c), answer, at.ids).1;
      assert (w.jobs + SendJobs(id, c, sender, text, sent))[|w.jobs|..] == SendJobs(id, c, sender, text, sent);
    }
  }

  /**
   An edit succeeds exactly when the message exists, is the caller's, is not deleted
   and was sent at most fifteen minutes before the check. Then the text is the new one
   and the edit is marked; nothing else changes, and nothing at all otherwise.
   */
  lemma EditExact(w: World, m: string, me: string, text: string, at: EditTimes)
    ensures var (v, r) := Edit(w, m, me, text, at);
      && (r == Err(MessageNotFound) <==> m !in w.messages)
      && (r == Err(NotTheSender) <==> m in w.messages && w.messages[m].senderId != me)
      && (r == Err(MessageDeleted) <==> m in w.messages && w.messages[m].senderId == me && w.messages[m].isDeleted)
      && (r.Ok? <==>
            && m in w.messages && w.messages[m].senderId == me && !w.messages[m].isDeleted
            && at.check - w.messages[m].sentAt <= 15 * 60 * 1000)
      && (r.Err? ==> IsUntouched(w, v))
      && (r.Ok? ==>
            && v == w.(now := v.now, messages := v.messages)
            && v.messages.Keys == w.messages.Keys
            && (forall n :: n in w.messages && n != m ==> v.messages[n] == w.messages[n])
            && SameIdentity(w.messages[m], v.messages[m])
            && v.messages[m].ciphertext == Some(text) && v.messages[m].isEdited && v.messages[m].editedAt == Some(at.edited)
            && !v.messages[m].isDeleted && v.messages[m].deletedAt == w.messages[m].deletedAt)
  {
  }

  /**
   A deletion succeeds exactly when the message exists and is the caller's. Then it is
   deleted and has no text, from the time of the request unless it was deleted before,
   in which case nothing changes; nothing else ever changes.
   */
  lemma DeleteExact(w: World, m: string, me: string, t: int)
    requires m in w.messages ==> RowSound(w.messages[m], w.now)
    ensures var (v, r) := Delete(w, m, me, t);
      && (r == Err(MessageNotFound) <==> m !in w.messages)
      && (r == Err(NotTheSender) <==> m in w.messages && w.messages[m].senderId != me)
      && (r.Ok? <==> m in w.messages && w.messages[m].senderId == me)
      && (r.Err? ==> IsUntouched(w, v))
      && (r.Ok? ==>
            && v == w.(now := v.now, messages := v.messages)
            && v.messages.Keys == w.messages.Keys
            && (forall n :: n in w.messages && n != m ==> v.messages[n] == w.messages[n])
            && SameIdentity(w.messages[m], v.messages[m])
            && v.messages[m].ciphertext == None && v.messages[m].isDeleted
            && v.messages[m].isEdited == w.messages[m].isEdited && v.messages[m].editedAt == w.messages[m].editedAt
            && v.messages[m].deletedAt == if w.messages[m].isDeleted then w.messages[m].deletedAt else Some(t))
  {
  }

  /** And so it stays: a message whose deletion was let through has no text in any later state. */
  lemma DeletedForEver(w: World, m: string, me: string, t: int, es: seq<Event>)
    requires MessageInv(w) && Enabled(w, DoDelete(m, me, t)) && m in w.messages && w.messages[m].senderId == me
    requires CanRun(Step(w, DoDelete(m, me, t)), es)
    ensures var v := Run(Step(w, DoDelete(m, me, t)), es);
      m in v.messages && v.messages[m].isDeleted && v.messages[m].ciphertext == None
  {
    DeleteExact(w, m, me, t);
    TombstonesAreAbsorbing(Step(w, DoDelete(m, me, t)), es, m);
  }

  // -------------------------------------------------------------- receipts

  /** A status update succeeds exactly when message and user exist, and touches that receipt alone. */
  lemma StatusExact(w: World, m: string, u: string, s: Status, t: int)
    ensures var (v, r) := SetStatus(w, m, u, s, t);
      && (r.Ok? <==> m in w.messages && u in w.users)
      && (r.Err? ==> IsUntouched(w, v))
      && (r.Ok? ==>
            && v == w.(now := v.now, receipts := v.receipts)
            && v.receipts.Keys == w.receipts.Keys + {(m, u)} && v.receipts[(m, u)].status == s
            && (forall k :: k in w.receipts && k != (m, u) ==> v.receipts[k] == w.receipts[k]))
  {
  }

  lemma {:induction false} BatchTouches(receipts: map<(string, string), Receipt>, ms: seq<string>, u: string, s: Status, t: int)
    ensures var after := UpsertAll(receipts, ms, u, s, t);
      && (forall k :: k in after <==> k in receipts || (k.1 == u && k.0 in ms))
      && (forall k :: k in after && k.1 == u && k.0 in ms ==> after[k].status == s)
      && (forall k :: k in receipts && !(k.1 == u && k.0 in ms) ==> after[k] == receipts[k])
  {
    if ms != [] {
      var front, last := ms[..|ms| - 1], ms[|ms| - 1];
      assert ms == front + [last];
      BatchTouches(receipts, front, u, s, t);
      forall k
        ensures k == (last, u) <==> k.0 == last && k.1 == u
      {
      }
    }
  }

  /**
   A batch read succeeds exactly when it names no message, or the user and all the
   messages exist. Then just those receipts of the user say READ, and a member's
   reading time is that of the request; otherwise nothing is written.
   */
  lemma BatchReadExact(w: World, ms: seq<string>, u: string, c: string, at: ReadTimes)
    ensures var (v, r) := BatchRead(w, ms, u, c, at);
      && (r.Ok? <==> ms == [] || (u in w.users && forall m :: m in ms ==> m in w.messages))
      && (r.Err? ==> IsUntouched(w, v))
      && (r.Ok? ==>
            && v == w.(now := v.now, receipts := v.receipts, conversations := v.conversations)
            && (forall k :: k in v.receipts <==> k in w.receipts || (k.1 == u && k.0 in ms))
            && (forall k :: k in v.receipts && k.1 == u && k.0 in ms ==> v.receipts[k].status == Read)
            && (forall k :: k in w.receipts && !(k.1 == u && k.0 in ms) ==> v.receipts[k] == w.receipts[k])
            && (!IsMember(w, c, u) ==> v.conversations == w.conversations)
            && (IsMember(w, c, u) ==>
                  && MembershipOf(v, c, u) == Some(w.conversations[c].members[u].(lastReadAt := Some(at.reset)))
                  && forall d, x :: (d, x) != (c, u) ==> MembershipOf(v, d, x) == MembershipOf(w, d, x)))
  {
    BatchTouches(w.receipts, ms, u, Read, at.batch);
  }

  // ----------------------------------------------------------------- links

  /** The same text but for the case of letters. */
  predicate SameScheme(s: string, scheme: string) {
    |s| == |scheme| && forall i :: 0 <= i < |s| ==> SameLetter(s[i], scheme[i])
  }

  /** A scheme stands at `i`, with something that is not white space behind it. */
  predicate IsLinkAt(s: string, i: int, scheme: string) {
    && 0 <= i && i + |scheme| < |s|
    && SameScheme(s[i..i + |scheme|], scheme) && !IsWhiteSpace(s[i + |scheme|])
  }

  lemma SchemeExact(s: string)
    ensures SchemeText(s) <==> SameScheme(s, "http://") || SameScheme(s, "https://")
  {
    var l := seq(|s|, i requires 0 <= i < |s| => LowerAscii(s[i]));
    SchemeIs(s, l, "http://");
    SchemeIs(s, l, "https://");
  }

  lemma SchemeIs(s: string, l: string, scheme: string)
    requires |l| == |s| && forall i :: 0 <= i < |s| ==> l[i] == LowerAscii(s[i])
    requires forall i :: 0 <= i < |scheme| ==> !('A' <= scheme[i] <= 'Z')
    ensures l == scheme <==> SameScheme(s, scheme)
  {
    if |s| == |scheme| {
      forall i | 0 <= i < |s|
        ensures l[i] == scheme[i] <==> SameLetter(s[i], scheme[i])
      {
      }
    }
  }

  lemma LinkAtExact(s: string, i: nat)
    requires i < |s|
    ensures IsUrlAt(s, i) <==> IsLinkAt(s, i, "http://") || IsLinkAt(s, i, "https://")
  {
    var rest := s[i..];
    assert |"http://"| == 7 && |"https://"| == 8;
    forall n | 7 <= n <= 8 && n < |rest|
      ensures rest[..n] == s[i..i + n] && rest[n] == s[i + n]
      ensures SchemeText(rest[..n]) <==> SameScheme(s[i..i + n], if n == 7 then "http://" else "https://")
    {
      SchemeExact(rest[..n]);
    }
  }

  /**
   A text holds a link if and only if somewhere "http://" or "https://", in any case,
   stands before a character that is not white space.
   */
  lemma LinkExact(s: string)
    ensures HasUrl(s) <==> exists i :: IsLinkAt(s, i, "http://") || IsLinkAt(s, i, "https://")
  {
    forall i: nat | i < |s|
      ensures IsUrlAt(s, i) <==> IsLinkAt(s, i, "http://") || IsLinkAt(s, i, "https://")
    {
      LinkAtExact(s, i);
    }
    if i :| IsLinkAt(s, i, "http://") || IsLinkAt(s, i, "https://") {
      assert 0 <= i < |s| && IsUrlAt(s, i);
    }
  }
}
