/** Group membership over runs: the job log replays to it, the service's cache equals it, direct conversations are unique. */
module ChatGroups {
  import opened Prelude
  import opened Cache
  import opened ChatModel

  /** What one job tells a consumer that keeps the participants of group `g`. */
  ghost function Apply(members: set<string>, j: Job, g: string): set<string> {
    match j
    case InitialKeys(c, ids) => if c == g then (set x | x in ids) else members
    case MemberAdded(c, u) => if c == g then members + {u} else members
    case MemberRemoved(c, u) => if c == g then members - {u} else members
    case _ => members
  }

  /** The participants a consumer of the whole job log arrives at for one group. */
  ghost function Replay(jobs: seq<Job>, g: string): set<string> {
    if jobs == [] then {} else Apply(Replay(jobs[..|jobs| - 1], g), jobs[|jobs| - 1], g)
  }

  lemma ReplayOne(jobs: seq<Job>, j: Job, g: string)
    ensures Replay(jobs + [j], g) == Apply(Replay(jobs, g), j, g)
  {
    assert (jobs + [j])[..|jobs|] == jobs;
  }

  /** Delivery jobs do not disturb the replay. */
  lemma {:induction false} ReplayOthers(jobs: seq<Job>, more: seq<Job>, g: string)
    requires forall j :: j in more ==> j.Fanout? || j.LinkPreview?
    ensures Replay(jobs + more, g) == Replay(jobs, g)
  {
    if more == [] {
      assert jobs + more == jobs;
    } else {
      var front, last := more[..|more| - 1], more[|more| - 1];
      assert last in more && jobs + more == (jobs + front) + [last];
      ReplayOthers(jobs, front, g);
      ReplayOne(jobs + front, last, g);
    }
  }

  // ------------------------------------------------------------ invariants

  ghost predicate JobsReplay(w: World) {
    forall c :: c in w.conversations && w.conversations[c].kind.Group? ==> Replay(w.jobs, c) == MemberIds(w, c)
  }

  ghost predicate CacheExact(w: World) {
    forall c :: c in w.cache.serviceParticipants ==>
      w.cache.serviceParticipants[c].value.Ids? && Lists(w.cache.serviceParticipants[c].value.ids, MemberIds(w, c))
  }

  /** Two different plain members. */
  ghost predicate IsPair(members: map<string, Membership>) {
    && (exists a, b :: a != b && members.Keys == {a, b})
    && (forall u :: u in members ==> members[u].role.Member?)
  }

  ghost predicate DirectsArePairs(w: World) {
    forall c :: c in w.conversations && w.conversations[c].kind.Direct? ==> IsPair(w.conversations[c].members)
  }

  ghost predicate DirectsUnique(w: World) {
    forall c, d, a, b :: a != b && IsDirectBetween(w, c, a, b) && IsDirectBetween(w, d, a, b) ==> c == d
  }

  ghost predicate GroupInv(w: World) {
    JobsReplay(w) && CacheExact(w) && DirectsArePairs(w) && DirectsUnique(w)
  }

  // ------------------------------------------------------------------ steps

  /** Nobody joins or leaves, and no role changes in a direct conversation. */
  ghost predicate SameShape(w: World, v: World) {
    && v.conversations.Keys == w.conversations.Keys
    && (forall c :: c in w.conversations ==>
          && v.conversations[c].kind == w.conversations[c].kind
          && v.conversations[c].members.Keys == w.conversations[c].members.Keys
          && (w.conversations[c].kind.Direct? ==>
                forall u :: u in w.conversations[c].members ==>
                  v.conversations[c].members[u].role == w.conversations[c].members[u].role))
  }

  lemma SameShapeKeeps(w: World, v: World)
    requires GroupInv(w) && SameShape(w, v) && CacheExact(v)
    requires forall g :: Replay(v.jobs, g) == Replay(w.jobs, g)
    ensures GroupInv(v)
  {
    forall c | c in v.conversations && v.conversations[c].kind.Direct?
      ensures IsPair(v.conversations[c].members)
    {
      var a, b :| a != b && w.conversations[c].members.Keys == {a, b};
      assert v.conversations[c].members.Keys == {a, b};
    }
    forall c, d, a, b | a != b && IsDirectBetween(v, c, a, b) && IsDirectBetween(v, d, a, b)
      ensures c == d
    {
      assert IsDirectBetween(w, c, a, b) && IsDirectBetween(w, d, a, b);
    }
  }

  /** Changing the members of one group, with its job and the invalidation of its cache entry. */
  lemma RegroupKeeps(w: World, v: World, c: string, members: map<string, Membership>, j: Job)
    requires GroupInv(w) && c in w.conversations && w.conversations[c].kind.Group?
    requires v.conversations == w.conversations[c := Conversation(Group, members)]
    requires v.cache == Remove(w.cache, ServiceParticipants(c)) && v.jobs == w.jobs + [j]
    requires (j.MemberAdded? && j.groupId == c && members.Keys == MemberIds(w, c) + {j.newMemberId})
          || (j.MemberRemoved? && j.groupId == c && members.Keys == MemberIds(w, c) - {j.removedMemberId})
    ensures GroupInv(v)
  {
    forall g | g in v.conversations && v.conversations[g].kind.Group?
      ensures Replay(v.jobs, g) == MemberIds(v, g)
    {
      ReplayOne(w.jobs, j, g);
    }
    forall d, e, a, b | a != b && IsDirectBetween(v, d, a, b) && IsDirectBetween(v, e, a, b)
      ensures d == e
    {
      assert IsDirectBetween(w, d, a, b) && IsDirectBetween(w, e, a, b);
    }
  }

  lemma AddKeeps(w: World, c: string, user: string, me: string, role: Role, t: int)
    requires GroupInv(w)
    ensures GroupInv(Add(w, c, user, me, role, t).0)
  {
    var v := Add(w, c, user, me, role, t);
    if v.1.Ok? {
      RegroupKeeps(w, v.0, c, w.conversations[c].members[user := Membership(role, None)], MemberAdded(c, user));
    } else {
      SameShapeKeeps(w, v.0);
    }
  }

  lemma RemoveKeeps(w: World, c: string, user: string, me: string, t: int)
    requires GroupInv(w)
    ensures GroupInv(RemoveMember(w, c, user, me, t).0)
  {
    var v := RemoveMember(w, c, user, me, t);
    if v.1.Ok? {
      RegroupKeeps(w, v.0, c, w.conversations[c].members - {user}, MemberRemoved(c, user));
    } else {
      SameShapeKeeps(w, v.0);
    }
  }

  lemma NewGroupKeeps(w: World, v: World, id: string, ids: seq<string>, me: string)
    requires GroupInv(w) && id !in w.conversations && id !in w.cache.serviceParticipants && v.cache == w.cache
    requires v.conversations == w.conversations[id := Conversation(Group, NewMembers(Group, ids, me))]
    requires v.jobs == w.jobs + [InitialKeys(id, ids)]
    ensures GroupInv(v)
  {
    forall g | g in v.conversations && v.conversations[g].kind.Group?
      ensures Replay(v.jobs, g) == MemberIds(v, g)
    {
      ReplayOne(w.jobs, InitialKeys(id, ids), g);
    }
    forall d, e, a, b | a != b && IsDirectBetween(v, d, a, b) && IsDirectBetween(v, e, a, b)
      ensures d == e
    {
      assert IsDirectBetween(w, d, a, b) && IsDirectBetween(w, e, a, b);
    }
  }

  lemma NewDirectKeeps(w: World, v: World, id: string, me: string, other: string)
    requires GroupInv(w) && id !in w.conversations && id !in w.cache.serviceParticipants && v.cache == w.cache
    requires me != other && AnswersDirect(w, None, me, other)
    requires v.conversations == w.conversations[id := Conversation(Direct, NewMembers(Direct, [me, other], me))]
    requires v.jobs == w.jobs
    ensures GroupInv(v)
  {
    assert v.conversations[id].members.Keys == {me, other};
    forall d, e, a, b | a != b && IsDirectBetween(v, d, a, b) && IsDirectBetween(v, e, a, b)
      ensures d == e
    {
      if d == id || e == id {
        assert d != id ==> IsDirectBetween(w, d, me, other);
        assert e != id ==> IsDirectBetween(w, e, me, other);
      } else {
        assert IsDirectBetween(w, d, a, b) && IsDirectBetween(w, e, a, b);
      }
    }
  }

  lemma CreateKeeps(w: World, kind: Kind, others: seq<string>, me: string, found: Option<string>, id: string, t: int)
    requires GroupInv(w) && id !in w.conversations && id !in w.cache.serviceParticipants
    requires kind.Direct? && |others| == 1 && others[0] != me ==> AnswersDirect(w, found, me, others[0])
    ensures GroupInv(Create(w, kind, others, me, found, id, t).0)
  {
    var r := Create(w, kind, others, me, found, id, t);
    var ids := Dedup([me] + others);
    if r.0.conversations == w.conversations {
      SameShapeKeeps(w, r.0);
    } else if kind.Group? {
      NewGroupKeeps(w, r.0, id, ids, me);
    } else {
      assert others == [others[0]];
      assert r.0.conversations[id].members == NewMembers(Direct, [me, others[0]], me);
      NewDirectKeeps(w, r.0, id, me, others[0]);
    }
  }

  lemma GetIdsKeeps(w: World, c: string, answer: seq<string>, at: FillTimes)
    requires GroupInv(w) && Lists(answer, MemberIds(w, c))
    ensures GroupInv(GetIds(w, c, answer, at).0)
  {
    SameShapeKeeps(w, GetIds(w, c, answer, at).0);
  }

  lemma SendKeeps(w: World, e: Event)
    requires GroupInv(w) && e.DoSend?
    ensures GroupInv(Step(w, e))
  {
    var v := Step(w, e);
    forall g
      ensures Replay(v.jobs, g) == Replay(w.jobs, g)
    {
      SendReplays(w, e, g);
    }
    assert SameShape(w, v) && CacheExact(v);
    SameShapeKeeps(w, v);
  }

  lemma SendReplays(w: World, e: Event, g: string)
    requires e.DoSend?
    ensures Replay(Step(w, e).jobs, g) == Replay(w.jobs, g)
  {
    if Step(w, e).jobs != w.jobs {
      var r := CachedIds(w.cache, MessageParticipants(e.c), e.answer, e.sat.ids);
      ReplayOthers(w.jobs, SendJobs(e.id, e.c, e.me, e.text, r.1), g);
    }
  }

  /** Steps that leave conversations, cache and jobs alone. */
  lemma ElsewhereKeeps(w: World, v: World)
    requires GroupInv(w) && v.conversations == w.conversations && v.cache == w.cache && v.jobs == w.jobs
    ensures GroupInv(v)
  {
    SameShapeKeeps(w, v);
  }

  /** Rewriting one membership row, with the same role unless it is a group. */
  lemma RewriteKeepsShape(w: World, v: World, c: string, u: string, m: Membership)
    requires c in w.conversations && u in w.conversations[c].members
    requires v.conversations == w.conversations[c := w.conversations[c].(members := w.conversations[c].members[u := m])]
    requires w.conversations[c].kind.Group? || m.role == w.conversations[c].members[u].role
    ensures SameShape(w, v)
  {
    assert v.conversations[c].members.Keys == w.conversations[c].members.Keys;
  }

  lemma SetRoleKeeps(w: World, c: string, user: string, role: Role, me: string, t: int)
    requires GroupInv(w)
    ensures GroupInv(SetRole(w, c, user, role, me, t).0)
  {
    var v := SetRole(w, c, user, role, me, t);
    if v.1.Ok? {
      RewriteKeepsShape(w, v.0, c, user, w.conversations[c].members[user].(role := role));
    }
    assert SameShape(w, v.0);
    SameShapeKeeps(w, v.0);
  }

  lemma ResetUnreadKeeps(w: World, c: string, user: string, t: int)
    requires GroupInv(w)
    ensures GroupInv(ResetUnread(w, c, user, t))
  {
    var v := ResetUnread(w, c, user, t);
    if IsMember(w, c, user) {
      RewriteKeepsShape(w, v, c, user, w.conversations[c].members[user].(lastReadAt := Some(t)));
    }
    assert SameShape(w, v);
    SameShapeKeeps(w, v);
  }

  lemma BatchReadKeeps(w: World, ms: seq<string>, user: string, c: string, at: ReadTimes)
    requires GroupInv(w)
    ensures GroupInv(BatchRead(w, ms, user, c, at).0)
  {
    var v := w.(now := at.reset);
    ElsewhereKeeps(w, v);
    if BatchRead(w, ms, user, c, at).1.Ok? {
      var x := v.(receipts := UpsertAll(w.receipts, ms, user, Read, at.batch));
      ElsewhereKeeps(w, x);
      ResetUnreadKeeps(x, c, user, at.reset);
    }
  }

  lemma StepKeeps(w: World, e: Event)
    requires GroupInv(w) && Enabled(w, e)
    ensures GroupInv(Step(w, e))
  {
    match e
    case DoCreate(kind, others, me, found, id, t) => CreateKeeps(w, kind, others, me, found, id, t);
    case DoAdd(c, user, me, role, t) => AddKeeps(w, c, user, me, role, t);
    case DoRemove(c, user, me, t) => RemoveKeeps(w, c, user, me, t);
    case DoGetIds(c, answer, at) => GetIdsKeeps(w, c, answer, at);
    case DoSend(c, me, clientId, text, existing, id, answer, at) => SendKeeps(w, e);
    case DoSetRole(c, user, role, me, t) => SetRoleKeeps(w, c, user, role, me, t);
    case DoBatchRead(ms, user, c, at) => BatchReadKeeps(w, ms, user, c, at);
    case _ => ElsewhereKeeps(w, Step(w, e));
  }

  lemma {:induction false} RunKeeps(w: World, es: seq<Event>)
    requires GroupInv(w) && CanRun(w, es)
    ensures GroupInv(Run(w, es))
    decreases |es|
  {
    if es != [] {
      StepKeeps(w, es[0]);
      RunKeeps(Step(w, es[0]), es[1..]);
    }
  }

  // ---------------------------------------------------------- main results

  /**
   Replaying the sender-key jobs of a group gives exactly its participants, in
   every reachable state, although a removal of somebody who is no member
   writes a job too.
   */
  lemma JobLogReplays(es: seq<Event>, g: string)
    requires CanRun(INITIAL, es)
    requires g in Run(INITIAL, es).conversations && Run(INITIAL, es).conversations[g].kind.Group?
    ensures Replay(Run(INITIAL, es).jobs, g) == MemberIds(Run(INITIAL, es), g)
  {
    RunKeeps(INITIAL, es);
  }

  /** With atomic requests the participant list that `getParticipantIds` answers is exactly the membership. */
  lemma ServedIdsAreExact(es: seq<Event>, c: string, answer: seq<string>, at: FillTimes)
    requires CanRun(INITIAL, es) && Enabled(Run(INITIAL, es), DoGetIds(c, answer, at))
    ensures Lists(GetIds(Run(INITIAL, es), c, answer, at).1, MemberIds(Run(INITIAL, es), c))
  {
    RunKeeps(INITIAL, es);
  }

  /** Two users never share two direct conversations; one they share has the two of them and no administrator. */
  lemma DirectIsUnique(es: seq<Event>, c: string, d: string, a: string, b: string)
    requires CanRun(INITIAL, es) && a != b
    requires IsDirectBetween(Run(INITIAL, es), c, a, b) && IsDirectBetween(Run(INITIAL, es), d, a, b)
    ensures c == d && MemberIds(Run(INITIAL, es), c) == {a, b}
    ensures forall u :: u in {a, b} ==> Run(INITIAL, es).conversations[c].members[u].role.Member?
  {
    RunKeeps(INITIAL, es);
    var x, y :| x != y && Run(INITIAL, es).conversations[c].members.Keys == {x, y};
    assert a in {x, y} && b in {x, y};
  }

  /**
   The search and the insertion are two queries. When the answer "none" is out
   of date by the time of the insertion, the result is still unique exactly
   when it happens to be true then.
   */
  lemma StaleSearchExact(w: World, me: string, other: string, id: string, t: int)
    requires GroupInv(w) && id !in w.conversations && id !in w.cache.serviceParticipants
    requires Create(w, Direct, [other], me, None, id, t).1.Ok?
    ensures DirectsUnique(Create(w, Direct, [other], me, None, id, t).0) <==> AnswersDirect(w, None, me, other)
  {
    var v := Create(w, Direct, [other], me, None, id, t).0;
    if AnswersDirect(w, None, me, other) {
      CreateKeeps(w, Direct, [other], me, None, id, t);
    } else {
      var c :| IsDirectBetween(w, c, me, other);
      assert IsDirectBetween(v, c, me, other) && IsDirectBetween(v, id, me, other);
    }
  }

  /** A direct conversation stays a direct conversation of the same two users for ever. */
  lemma {:induction false} DirectIsForEver(w: World, es: seq<Event>, c: string)
    requires GroupInv(w) && CanRun(w, es) && c in w.conversations && w.conversations[c].kind.Direct?
    ensures var v := Run(w, es);
      c in v.conversations && v.conversations[c].kind.Direct? && MemberIds(v, c) == MemberIds(w, c)
    decreases |es|
  {
    if es != [] {
      StepKeeps(w, es[0]);
      DirectStays(w, es[0], c);
      DirectIsForEver(Step(w, es[0]), es[1..], c);
    }
  }

  lemma DirectStays(w: World, e: Event, c: string)
    requires Enabled(w, e) && c in w.conversations && w.conversations[c].kind.Direct?
    ensures var v := Step(w, e);
      c in v.conversations && v.conversations[c].kind.Direct? && MemberIds(v, c) == MemberIds(w, c)
  {
  }

  /** How many different ids a list holds besides `me`. */
  ghost function Others(ids: seq<string>, me: string): set<string> {
    set x | x in ids && x != me
  }

  lemma NewGroupMembers(w: World, others: seq<string>, me: string, id: string, t: int)
    requires Create(w, Group, others, me, None, id, t).1.Ok?
    ensures MemberIds(Create(w, Group, others, me, None, id, t).0, id) == {me} + Others(others, me)
  {
    var ids := Dedup([me] + others);
    assert forall x :: x in ids <==> x == me || x in others;
  }

  /**
   A new group is meant to have three members or more. The guard counts the ids
   it is given, not the different ones: the group has at least three members
   exactly when the list names at least two different users besides its creator.
   */
  lemma GroupSizeExact(w: World, others: seq<string>, me: string, id: string, t: int)
    requires Create(w, Group, others, me, None, id, t).1.Ok?
    ensures |MemberIds(Create(w, Group, others, me, None, id, t).0, id)| >= 3 <==> |Others(others, me)| >= 2
  {
    NewGroupMembers(w, others, me, id, t);
    assert |{me} + Others(others, me)| == 1 + |Others(others, me)|;
  }

  /** Two equal ids pass the guard and make a group of two. */
  lemma RepeatedIdMakesGroupOfTwo()
    ensures var w := INITIAL.(users := {"a", "b"});
      var r := Create(w, Group, ["b", "b"], "a", None, "g", 0);
      r.1 == Ok("g") && MemberIds(r.0, "g") == {"a", "b"}
  {
    var ids := Dedup(["a"] + ["b", "b"]);
    assert forall x :: x in ids <==> x in ["a"] + ["b", "b"];
    var w := INITIAL.(users := {"a", "b"});
    assert MemberIds(Create(w, Group, ["b", "b"], "a", None, "g", 0).0, "g") == {"a", "b"};
  }

  // --------------------------------------------- who may change a membership

  /**
   What one step may do to a membership: found the conversation, where only the
   creator of a group becomes administrator; an addition or a role change by an
   administrator of the group; a removal by one or by the member; or the member's
   own reading.
   */
  lemma MembershipChanges(w: World, e: Event, c: string, u: string)
    requires Enabled(w, e)
    ensures var before, after := MembershipOf(w, c, u), MembershipOf(Step(w, e), c, u);
      || after == before
      || (e.DoCreate? && e.id == c && before.None? && after.value.lastReadAt.None?
          && (after.value.role.Admin? <==> e.kind.Group? && u == e.me))
      || (e.DoAdd? && e.c == c && e.user == u && IsAdmin(w, c, e.me) && before.None? && after == Some(Membership(e.role, None)))
      || (e.DoRemove? && e.c == c && e.user == u && (IsAdmin(w, c, e.me) || e.me == u) && after.None?)
      || (e.DoSetRole? && e.c == c && e.user == u && IsAdmin(w, c, e.me) && before.Some?
          && after == Some(before.value.(role := e.role)))
      || (e.DoBatchRead? && e.c == c && e.user == u && before.Some?
          && after == Some(before.value.(lastReadAt := Some(e.rat.reset))))
  {
  }

  ghost predicate Adminless(w: World, c: string) {
    forall u :: !IsAdmin(w, c, u)
  }

  lemma AdminlessStays(w: World, e: Event, c: string, u: string)
    requires Enabled(w, e) && c in w.conversations && Adminless(w, c)
    ensures !IsAdmin(Step(w, e), c, u) && (IsMember(Step(w, e), c, u) ==> IsMember(w, c, u))
  {
    MembershipChanges(w, e, c, u);
    ConversationStays(w, e, c);
    assert !IsAdmin(w, c, u);
    assert e.DoAdd? || e.DoRemove? || e.DoSetRole? ==> !IsAdmin(w, c, e.me);
    assert e.DoCreate? ==> e.id != c;
  }

  /** A conversation without administrator never gets a member or an administrator again. */
  lemma {:induction false} AdminlessOnlyShrinks(w: World, es: seq<Event>, c: string)
    requires CanRun(w, es) && c in w.conversations && Adminless(w, c)
    ensures c in Run(w, es).conversations && Adminless(Run(w, es), c) && MemberIds(Run(w, es), c) <= MemberIds(w, c)
    decreases |es|
  {
    if es != [] {
      ConversationStays(w, es[0], c);
      forall u
        ensures !IsAdmin(Step(w, es[0]), c, u) && (u in MemberIds(Step(w, es[0]), c) ==> u in MemberIds(w, c))
      {
        AdminlessStays(w, es[0], c, u);
      }
      AdminlessOnlyShrinks(Step(w, es[0]), es[1..], c);
    }
  }

  lemma ConversationStays(w: World, e: Event, c: string)
    requires Enabled(w, e) && c in w.conversations
    ensures c in Step(w, e).conversations && Step(w, e).conversations[c].kind == w.conversations[c].kind
  {
  }
}
