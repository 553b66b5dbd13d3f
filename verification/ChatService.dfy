/**
 `ConversationService` and `MessageService` as they change the tables, the cache
 and the queue, each request proved to be a step of `ChatModel`. Where the
 database may choose among rows the ghost results say what it chose.
 */
module ChatService {
  import opened Prelude
  import opened Cache
  import opened ChatModel
  import opened ChatPaging
  import opened ChatUnread
  import K = Keyset

  /** The tables every repository works on. */
  class Database {
    var users: set<string>
    var conversations: map<string, Conversation>
    var messages: map<string, Message>
    var receipts: map<(string, string), Receipt>
    ghost var now: int

    constructor ()
      ensures users == {} && conversations == map[] && messages == map[] && receipts == map[] && now == 0
    {
      users, conversations, messages, receipts, now := {}, map[], map[], map[], 0;
    }

    /** The tables as a world of their own, without cache and queue. */
    ghost function Tables(): World
      reads this
    {
      World(now, users, conversations, messages, receipts, EMPTY, [])
    }
  }

  class JobQueue {
    var jobs: seq<Job>

    constructor ()
      ensures jobs == []
    {
      jobs := [];
    }

    method Enqueue(j: Job)
      modifies this
      ensures jobs == old(jobs) + [j]
    {
      jobs := jobs + [j];
    }
  }

  ghost function ModelOf(prisma: Database, cache: CacheProvider, queue: JobQueue): World
    reads prisma, cache, queue
  {
    prisma.Tables().(cache := cache.store, jobs := queue.jobs)
  }

  // -------------------------------------------------------- small facts

  lemma {:induction false} SomeListing(s: set<string>) returns (ids: seq<string>)
    ensures Lists(ids, s)
    decreases s
  {
    if s == {} {
      ids := [];
    } else {
      var x :| x in s;
      var rest := SomeListing(s - {x});
      ids := rest + [x];
    }
  }

  /** Comparing the numbers of users asked for and found tells whether one is missing. */
  lemma CountsTell(ids: seq<string>, users: set<string>, found: set<string>)
    requires forall i, j :: 0 <= i < j < |ids| ==> ids[i] != ids[j]
    requires found == set x | x in ids && x in users
    ensures |found| != |ids| <==> exists u :: u in ids && u !in users
  {
    var asked := set x | x in ids;
    DistinctCount(ids, asked);
    if forall u :: u in ids ==> u in users {
      assert found == asked;
    } else {
      var u :| u in ids && u !in users;
      assert found <= asked - {u};
      FewerMembers(found, asked - {u});
    }
  }

  lemma {:induction false} FewerMembers(a: set<string>, b: set<string>)
    requires a <= b
    ensures |a| <= |b|
  {
    assert b == a + (b - a) && a !! (b - a);
  }

  // ---------------------------------------------------------- repositories

  class ConversationRepository {
    const prisma: Database

    constructor (prisma: Database)
      ensures this.prisma == prisma
    {
      this.prisma := prisma;
    }

    method Create(id: string, kind: Kind, participants: map<string, Membership>)
      modifies prisma`conversations
      ensures prisma.conversations == old(prisma.conversations)[id := Conversation(kind, participants)]
    {
      prisma.conversations := prisma.conversations[id := Conversation(kind, participants)];
    }

    method FindById(id: string) returns (r: Option<Conversation>)
      ensures r == if id in prisma.conversations then Some(prisma.conversations[id]) else None
    {
      r := if id in prisma.conversations then Some(prisma.conversations[id]) else None;
    }

    method FindDirectConversation(a: string, b: string) returns (r: Option<string>)
      ensures AnswersDirect(prisma.Tables(), r, a, b)
    {
      var matching := set c | c in prisma.conversations && prisma.conversations[c].kind.Direct?
                              && a in prisma.conversations[c].members && b in prisma.conversations[c].members;
      assert forall c :: c in matching <==> IsDirectBetween(prisma.Tables(), c, a, b);
      if matching == {} {
        return None;
      }
      var c :| c in matching;
      r := Some(c);
    }

    method WriteMembers(id: string, members: map<string, Membership>)
      requires id in prisma.conversations
      modifies prisma`conversations
      ensures prisma.conversations == old(prisma.conversations)[id := old(prisma.conversations)[id].(members := members)]
    {
      prisma.conversations := prisma.conversations[id := prisma.conversations[id].(members := members)];
    }

    method AddParticipant(id: string, user: string, role: Role)
      requires id in prisma.conversations
      modifies prisma`conversations
      ensures prisma.conversations == old(prisma.conversations)[id :=
        old(prisma.conversations)[id].(members := old(prisma.conversations)[id].members[user := Membership(role, None)])]
    {
      WriteMembers(id, prisma.conversations[id].members[user := Membership(role, None)]);
    }

    /** Deletes the rows that match; none is no error. */
    method RemoveParticipant(id: string, user: string)
      requires id in prisma.conversations
      modifies prisma`conversations
      ensures prisma.conversations == old(prisma.conversations)[id :=
        old(prisma.conversations)[id].(members := old(prisma.conversations)[id].members - {user})]
    {
      WriteMembers(id, prisma.conversations[id].members - {user});
    }

    method UpdateParticipantRole(id: string, user: string, role: Role)
      requires id in prisma.conversations && user in prisma.conversations[id].members
      modifies prisma`conversations
      ensures prisma.conversations == old(prisma.conversations)[id := old(prisma.conversations)[id].(
        members := old(prisma.conversations)[id].members[user := old(prisma.conversations)[id].members[user].(role := role)])]
    {
      var members := prisma.conversations[id].members;
      WriteMembers(id, members[user := members[user].(role := role)]);
    }

    method IsParticipant(id: string, user: string) returns (b: bool)
      ensures b <==> id in prisma.conversations && user in prisma.conversations[id].members
    {
      b := id in prisma.conversations && user in prisma.conversations[id].members;
    }

    /** All members, in an order of the database's choice. */
    method GetParticipantIds(id: string) returns (ids: seq<string>)
      ensures Lists(ids, MemberIds(prisma.Tables(), id))
    {
      ids := [];
      if id in prisma.conversations {
        var todo := prisma.conversations[id].members.Keys;
        while todo != {}
          invariant todo <= prisma.conversations[id].members.Keys
          invariant Lists(ids, prisma.conversations[id].members.Keys - todo)
          decreases todo
        {
          var u :| u in todo;
          todo := todo - {u};
          ids := ids + [u];
        }
      }
    }

    method ResetUnreadCount(id: string, user: string, t: int)
      modifies prisma`conversations
      ensures prisma.conversations ==
        if id in old(prisma.conversations) && user in old(prisma.conversations)[id].members then
          old(prisma.conversations)[id := old(prisma.conversations)[id].(
            members := old(prisma.conversations)[id].members[user := old(prisma.conversations)[id].members[user].(lastReadAt := Some(t))])]
        else old(prisma.conversations)
    {
      if id in prisma.conversations && user in prisma.conversations[id].members {
        var members := prisma.conversations[id].members;
        WriteMembers(id, members[user := members[user].(lastReadAt := Some(t))]);
      }
    }

    /** For each conversation of the user the messages not yet read, left out where there are none. */
    method GetUnreadCounts(user: string) returns (counts: map<string, nat>)
      ensures forall c :: var w := prisma.Tables();
        && (c in counts <==> IsMember(w, c, user) && Unread(w, c, user) != {})
        && (c in counts ==> counts[c] == |Unread(w, c, user)|)
    {
      counts := map[];
      ghost var w := prisma.Tables();
      ghost var mine := set c | c in prisma.conversations && IsMember(w, c, user);
      var todo := set c | c in prisma.conversations && user in prisma.conversations[c].members;
      while todo != {}
        invariant todo <= mine && counts.Keys <= mine - todo
        invariant forall c :: c in mine - todo ==>
          && (c in counts <==> Unread(w, c, user) != {})
          && (c in counts ==> counts[c] == |Unread(w, c, user)|)
        decreases todo
      {
        var c :| c in todo;
        todo := todo - {c};
        var since := prisma.conversations[c].members[user].lastReadAt;
        var unread := set m | m in prisma.messages && prisma.messages[m].conversationId == c
                              && prisma.messages[m].senderId != user && After(prisma.messages[m].sentAt, since);
        assert unread == Unread(w, c, user);
        if |unread| > 0 {
          counts := counts[c := |unread|];
        }
      }
    }
  }

  class UserRepository {
    const prisma: Database

    constructor (prisma: Database)
      ensures this.prisma == prisma
    {
      this.prisma := prisma;
    }

    method FindByIds(ids: seq<string>) returns (found: set<string>)
      ensures found == set x | x in ids && x in prisma.users
    {
      found := set x | x in ids && x in prisma.users;
    }
  }

  class MessageRepository {
    const prisma: Database

    constructor (prisma: Database)
      ensures this.prisma == prisma
    {
      this.prisma := prisma;
    }

    method Create(id: string, row: Message)
      modifies prisma`messages
      ensures prisma.messages == old(prisma.messages)[id := row]
    {
      prisma.messages := prisma.messages[id := row];
    }

    method FindByClientMessageId(clientId: string) returns (r: Option<string>)
      ensures AnswersClientId(prisma.Tables(), r, clientId)
    {
      var matching := set m | m in prisma.messages && prisma.messages[m].clientId == clientId;
      if matching == {} {
        assert forall m :: m in prisma.messages && prisma.messages[m].clientId == clientId ==> m in matching;
        return None;
      }
      var m :| m in matching;
      r := Some(m);
    }

    /** The text is swapped for the new one whatever else the row says. */
    method Update(id: string, text: string, editedAt: int)
      requires id in prisma.messages
      modifies prisma`messages
      ensures prisma.messages == old(prisma.messages)[id := EditRow(old(prisma.messages)[id], text, editedAt)]
    {
      var row := prisma.messages[id];
      prisma.messages := prisma.messages[id := row.(ciphertext := Some(text), isEdited := true, editedAt := Some(editedAt))];
    }

    method SoftDelete(id: string, deletedAt: int)
      requires id in prisma.messages
      modifies prisma`messages
      ensures prisma.messages == old(prisma.messages)[id := Tombstone(old(prisma.messages)[id], deletedAt)]
    {
      var row := prisma.messages[id];
      prisma.messages := prisma.messages[id := row.(ciphertext := None, isDeleted := true, deletedAt := Some(deletedAt))];
    }

    method UpdateStatus(m: string, user: string, status: Status, t: int) returns (r: Result<(), ChatError>)
      modifies prisma`receipts
      ensures (prisma.Tables().(now := t), r) == SetStatus(old(prisma.Tables()), m, user, status, t)
    {
      if m !in prisma.messages || user !in prisma.users {
        return Err(NoSuchRow);
      }
      var deliveredAt := if status == Delivered || status == Read then Some(t) else None;
      var readAt := if status == Read then Some(t) else None;
      if (m, user) in prisma.receipts {
        var row := prisma.receipts[(m, user)].(status := status);
        if status == Delivered {
          row := row.(deliveredAt := Some(t));
        }
        if status == Read {
          row := row.(readAt := Some(t), deliveredAt := Some(t));
        }
        prisma.receipts := prisma.receipts[(m, user) := row];
      } else {
        prisma.receipts := prisma.receipts[(m, user) := Receipt(status, deliveredAt, readAt)];
      }
      r := Ok(());
    }

    /** One transaction: all receipts, or an error and none. */
    method BatchUpdateStatus(ms: seq<string>, user: string, status: Status, t: int) returns (r: Result<(), ChatError>)
      modifies prisma`receipts
      ensures r.Ok? <==> ms == [] || (user in prisma.users && forall m :: m in ms ==> m in prisma.messages)
      ensures r == Ok(()) || r == Err(NoSuchRow)
      ensures r.Ok? ==> prisma.receipts == UpsertAll(old(prisma.receipts), ms, user, status, t)
      ensures r.Err? ==> prisma.receipts == old(prisma.receipts)
    {
      if |ms| == 0 {
        return Ok(());
      }
      var receipts := prisma.receipts;
      for i := 0 to |ms|
        invariant i > 0 ==> user in prisma.users
        invariant forall m :: m in ms[..i] ==> m in prisma.messages
        invariant receipts == UpsertAll(prisma.receipts, ms[..i], user, status, t)
      {
        if ms[i] !in prisma.messages || user !in prisma.users {
          return Err(NoSuchRow);
        }
        assert ms[..i + 1][..i] == ms[..i];
        receipts := receipts[(ms[i], user) := Upsert(RowOf(receipts, ms[i], user), status, t)];
      }
      assert ms[..|ms|] == ms;
      prisma.receipts := receipts;
      r := Ok(());
    }

    /** The messages of the conversations after the time stamp, oldest first, as many as the limit allows. */
    method FindAfterTimestamp(conversationIds: seq<string>, after: int, limit: Option<nat>) returns (ids: seq<string>)
      ensures SyncAnswers(prisma.Tables(), Asked(conversationIds), after, limit, ids)
    {
      if |conversationIds| == 0 {
        assert Asked(conversationIds) == {} && SyncRows(prisma.Tables(), {}) == map[];
        return [];
      }
      var rows := map m | m in prisma.messages && prisma.messages[m].conversationId in conversationIds :: prisma.messages[m].sentAt;
      assert rows == SyncRows(prisma.Tables(), Asked(conversationIds));
      ids := K.Query(rows, Some(after), limit);
    }

    /** One page of history: one row more than the limit is asked for, newest first, to see whether rows remain. */
    method FindByConversation(c: string, cursor: Option<int>, limit: nat, before: Option<int>) returns (page: HistoryPage)
      ensures IsPage(prisma.Tables(), c, cursor, before, limit, page)
    {
      var bound := before;
      if cursor.Some? {
        bound := if before.None? || cursor.value < before.value then cursor else before;
      }
      var rows := map m | m in prisma.messages && prisma.messages[m].conversationId == c
                          && (bound.Some? ==> prisma.messages[m].sentAt < bound.value) :: -prisma.messages[m].sentAt;
      assert rows == HistoryRows(prisma.Tables(), c, UpperBound(cursor, before));
      var records := K.Query(rows, None, Some(limit + 1));
      PageIsRight(prisma.Tables(), c, cursor, before, limit, records);
      var hasMore := |records| > limit;
      var items := if |records| > limit then records[..limit] else records;
      var next := None;
      if hasMore && |items| > 0 {
        assert items[|items| - 1] in records;
        next := Some(prisma.messages[items[|items| - 1]].sentAt);
      }
      page := HistoryPage(items, next, hasMore);
    }
  }

  /** The page that is handed out. */
  function PageOf(messages: map<string, Message>, limit: nat, records: seq<string>): HistoryPage {
    var items := K.Cut(records, limit);
    var next := if |records| > limit && items != [] && items[|items| - 1] in messages
                then Some(messages[items[|items| - 1]].sentAt) else None;
    HistoryPage(items, next, |records| > limit)
  }

  /** The cursor handed on is the key of the last row. */
  lemma CursorIsLast(w: World, c: string, before: Option<int>, limit: nat, records: seq<string>)
    requires K.HasLast(K.Page(HistoryRows(w, c, before), K.Cut(records, limit))) && |records| > limit
    ensures Negated(PageOf(w.messages, limit, records).next) == Some(K.Last(K.Page(HistoryRows(w, c, before), K.Cut(records, limit))))
  {
  }

  lemma PageIsRight(w: World, c: string, cursor: Option<int>, before: Option<int>, limit: nat, records: seq<string>)
    requires K.Answers(HistoryRows(w, c, UpperBound(cursor, before)), None, limit + 1, records)
    ensures IsPage(w, c, cursor, before, limit, PageOf(w.messages, limit, records))
  {
    BoundsAgree(w, c, cursor, before, limit + 1, records);
    K.CutPage(HistoryRows(w, c, before), Negated(cursor), limit, records);
    if |records| > limit && K.Cut(records, limit) != [] {
      CursorIsLast(w, c, before, limit, records);
    }
  }

  /** The earlier of the two time stamps, when given. */
  function UpperBound(cursor: Option<int>, before: Option<int>): Option<int> {
    if cursor.None? then before
    else if before.None? then cursor
    else if cursor.value < before.value then cursor else before
  }

  /** Asking with both bounds at once is asking for the page after the cursor among the rows before `before`. */
  lemma BoundsAgree(w: World, c: string, cursor: Option<int>, before: Option<int>, n: nat, ids: seq<string>)
    requires K.Answers(HistoryRows(w, c, UpperBound(cursor, before)), None, n, ids)
    ensures K.Answers(HistoryRows(w, c, before), Negated(cursor), n, ids)
  {
    var narrow, wide := HistoryRows(w, c, UpperBound(cursor, before)), HistoryRows(w, c, before);
    forall m
      ensures m in narrow <==> m in wide && K.Beyond(wide[m], Negated(cursor))
      ensures m in narrow ==> narrow[m] == wide[m]
    {
    }
  }

  /** Two ids are one or two different ones. */
  lemma PairOrSelf(me: string, other: string, unique: seq<string>)
    requires unique == Dedup([me] + [other])
    ensures |unique| < 2 <==> other == me
  {
    assert other in [me] + [other] && me in [me] + [other];
    DistinctCount(unique, {me, other});
  }

  lemma SameDirects(v: World, w: World, found: Option<string>, a: string, b: string)
    requires AnswersDirect(v, found, a, b) && v.conversations == w.conversations
    ensures AnswersDirect(w, found, a, b)
  {
    assert forall c :: IsDirectBetween(w, c, a, b) <==> IsDirectBetween(v, c, a, b);
  }

  /** The row with this client id, if there is one. */
  lemma SomeClientId(w: World, clientId: string) returns (existing: Option<string>)
    ensures AnswersClientId(w, existing, clientId)
  {
    if m :| m in w.messages && w.messages[m].clientId == clientId {
      existing := Some(m);
    } else {
      existing := None;
    }
  }

  /** The list under key `k`, else the database's own, which is then stored; `answer` is the membership. */
  method ReadThrough(prisma: Database, conversations: ConversationRepository, cache: CacheProvider, k: Key, c: string, at: FillTimes)
      returns (ids: seq<string>, ghost answer: seq<string>)
    requires conversations.prisma == prisma
    modifies cache
    ensures Lists(answer, MemberIds(prisma.Tables(), c))
    ensures (cache.store, ids) == CachedIds(old(cache.store), k, answer, at)
  {
    var cached := cache.Get(k, at.lookup);
    if cached.Some? && cached.value.Ids? {
      answer := SomeListing(MemberIds(prisma.Tables(), c));
      return cached.value.ids, answer;
    }
    ids := conversations.GetParticipantIds(c);
    cache.Set(k, Ids(ids), Some(PARTICIPANTS_TTL), at.fill);
    answer := ids;
  }

  // -------------------------------------------------------------- services

  class ConversationService {
    const prisma: Database
    const conversations: ConversationRepository
    const users: UserRepository
    const cache: CacheProvider
    const queue: JobQueue

    ghost predicate Wired() {
      conversations.prisma == prisma && users.prisma == prisma
    }

    ghost function Model(): World
      reads prisma, cache, queue
    {
      ModelOf(prisma, cache, queue)
    }

    constructor (prisma: Database, cache: CacheProvider, queue: JobQueue)
      ensures Wired() && this.prisma == prisma && this.cache == cache && this.queue == queue
    {
      this.prisma, this.cache, this.queue := prisma, cache, queue;
      conversations := new ConversationRepository(prisma);
      users := new UserRepository(prisma);
    }

    method CreateConversation(kind: Kind, participantIds: seq<string>, me: string, id: string, t: int)
        returns (r: Result<string, ChatError>, ghost found: Option<string>)
      requires Wired()
      modifies prisma`conversations, prisma`now, queue
      ensures kind.Direct? && |participantIds| == 1 && participantIds[0] != me ==>
        AnswersDirect(old(Model()), found, me, participantIds[0])
      ensures (Model(), r) == Create(old(Model()), kind, participantIds, me, found, id, t)
    {
      prisma.now := t;
      found := None;
      if kind == Direct && |participantIds| != 1 {
        return Err(WrongParticipantCount), found;
      } else if kind == Group && |participantIds| < 2 {
        return Err(WrongParticipantCount), found;
      }
      var unique := Dedup([me] + participantIds);
      if kind == Direct {
        assert participantIds == [participantIds[0]];
        PairOrSelf(me, participantIds[0], unique);
        if |unique| < 2 {
          return Err(SelfConversation), found;
        }
        var existing := conversations.FindDirectConversation(me, participantIds[0]);
        found := existing;
        SameDirects(prisma.Tables(), old(Model()), existing, me, participantIds[0]);
        if existing.Some? {
          return Ok(existing.value), found;
        }
      }
      var known := users.FindByIds(unique);
      CountsTell(unique, prisma.users, known);
      if |known| != |unique| {
        return Err(UsersNotFound), found;
      }
      var participants := map u | u in unique :: Membership(if kind == Group && u == me then Admin else Member, None);
      conversations.Create(id, kind, participants);
      if kind == Group {
        queue.Enqueue(InitialKeys(id, unique));
      }
      r := Ok(id);
    }

    /** Finds the group and checks that `me` administers it. */
    method FindAdministered(c: string, me: string) returns (e: Option<ChatError>)
      requires Wired()
      ensures e == AdminError(Model(), c, me)
    {
      var found := conversations.FindById(c);
      if found.None? {
        return Some(ConversationNotFound);
      }
      if found.value.kind != Group {
        return Some(NotAGroup);
      }
      if me !in found.value.members {
        return Some(NotAParticipant);
      }
      if found.value.members[me].role != Admin {
        return Some(NotAnAdmin);
      }
      e := None;
    }

    method AddParticipant(c: string, user: string, me: string, role: Role, t: int) returns (r: Result<(), ChatError>)
      requires Wired()
      modifies prisma`conversations, prisma`now, cache, queue
      ensures (Model(), r) == Add(old(Model()), c, user, me, role, t)
    {
      var e := FindAdministered(c, me);
      prisma.now := t;
      if e.Some? {
        return Err(e.value);
      }
      var known := users.FindByIds([user]);
      assert known == if user in prisma.users then {user} else {};
      if |known| == 0 {
        return Err(UsersNotFound);
      }
      var already := conversations.IsParticipant(c, user);
      if already {
        return Err(AlreadyParticipant);
      }
      conversations.AddParticipant(c, user, role);
      cache.Del(ServiceParticipants(c));
      queue.Enqueue(MemberAdded(c, user));
      r := Ok(());
    }

    method RemoveParticipant(c: string, user: string, me: string, t: int) returns (r: Result<(), ChatError>)
      requires Wired()
      modifies prisma`conversations, prisma`now, cache, queue
      ensures (Model(), r) == RemoveMember(old(Model()), c, user, me, t)
    {
      prisma.now := t;
      var found := conversations.FindById(c);
      if found.None? {
        return Err(ConversationNotFound);
      }
      if found.value.kind != Group {
        return Err(NotAGroup);
      }
      if user != me {
        var e := FindAdministered(c, me);
        if e.Some? {
          return Err(e.value);
        }
      }
      conversations.RemoveParticipant(c, user);
      cache.Del(ServiceParticipants(c));
      queue.Enqueue(MemberRemoved(c, user));
      r := Ok(());
    }

    method UpdateParticipantRole(c: string, user: string, role: Role, me: string, t: int) returns (r: Result<(), ChatError>)
      requires Wired()
      modifies prisma`conversations, prisma`now
      ensures (Model(), r) == SetRole(old(Model()), c, user, role, me, t)
    {
      var e := FindAdministered(c, me);
      prisma.now := t;
      if e.Some? {
        return Err(e.value);
      }
      var isParticipant := conversations.IsParticipant(c, user);
      if !isParticipant {
        return Err(NotFoundInConversation);
      }
      conversations.UpdateParticipantRole(c, user, role);
      r := Ok(());
    }

    method GetParticipantIds(c: string, at: FillTimes) returns (ids: seq<string>, ghost answer: seq<string>)
      requires Wired()
      modifies prisma`now, cache
      ensures Lists(answer, MemberIds(old(Model()), c))
      ensures (Model(), ids) == GetIds(old(Model()), c, answer, at)
    {
      ids, answer := ReadThrough(prisma, conversations, cache, ServiceParticipants(c), c, at);
      prisma.now := at.fill;
    }
  }

  class MessageService {
    const prisma: Database
    const conversations: ConversationRepository
    const messages: MessageRepository
    const cache: CacheProvider
    const queue: JobQueue

    ghost predicate Wired() {
      conversations.prisma == prisma && messages.prisma == prisma
    }

    ghost function Model(): World
      reads prisma, cache, queue
    {
      ModelOf(prisma, cache, queue)
    }

    constructor (prisma: Database, cache: CacheProvider, queue: JobQueue)
      ensures Wired() && this.prisma == prisma && this.cache == cache && this.queue == queue
    {
      this.prisma, this.cache, this.queue := prisma, cache, queue;
      conversations := new ConversationRepository(prisma);
      messages := new MessageRepository(prisma);
    }

    /** The write of the message comes before the delivery decision, which may read a cached list. */
    method SendMessage(c: string, sender: string, clientId: string, text: string, id: string, at: SendTimes)
        returns (r: Result<string, ChatError>, ghost existing: Option<string>, ghost answer: seq<string>)
      requires Wired()
      modifies prisma`messages, prisma`now, cache, queue
      ensures AnswersClientId(old(Model()), existing, clientId) && Lists(answer, MemberIds(old(Model()), c))
      ensures (Model(), r) == Send(old(Model()), c, sender, clientId, text, existing, id, answer, at)
    {
      prisma.now := at.ids.fill;
      existing := SomeClientId(Model(), clientId);
      answer := SomeListing(MemberIds(Model(), c));
      var isParticipant := conversations.IsParticipant(c, sender);
      if !isParticipant {
        return Err(NotAParticipant), existing, answer;
      }
      var stored := messages.FindByClientMessageId(clientId);
      existing := stored;
      if stored.Some? {
        return Ok(stored.value), existing, answer;
      }
      messages.Create(id, Message(c, sender, clientId, at.sent, Some(text), false, None, false, None));
      var ids, listed := ReadThrough(prisma, conversations, cache, MessageParticipants(c), c, at.ids);
      answer := listed;
      if |ids| >= FAN_OUT_THRESHOLD {
        queue.Enqueue(Fanout(id, c, sender, Without(ids, sender)));
      }
      if HasUrl(text) {
        queue.Enqueue(LinkPreview(id, c));
      }
      assert queue.jobs == old(queue.jobs) + SendJobs(id, c, sender, text, ids);
      r := Ok(id);
    }

    method EditMessage(m: string, sender: string, text: string, at: EditTimes) returns (r: Result<(), ChatError>)
      requires Wired()
      modifies prisma`messages, prisma`now
      ensures (Model(), r) == Edit(old(Model()), m, sender, text, at)
    {
      prisma.now := at.edited;
      if m !in prisma.messages {
        return Err(MessageNotFound);
      }
      var message := prisma.messages[m];
      if message.senderId != sender {
        return Err(NotTheSender);
      }
      if message.isDeleted {
        return Err(MessageDeleted);
      }
      var elapsed := at.check - message.sentAt;
      if elapsed > EDIT_WINDOW_MS {
        return Err(EditWindowExpired);
      }
      messages.Update(m, text, at.edited);
      r := Ok(());
    }

    method DeleteMessage(m: string, sender: string, t: int) returns (r: Result<(), ChatError>)
      requires Wired()
      modifies prisma`messages, prisma`now
      ensures (Model(), r) == Delete(old(Model()), m, sender, t)
    {
      prisma.now := t;
      if m !in prisma.messages {
        return Err(MessageNotFound);
      }
      var message := prisma.messages[m];
      if message.senderId != sender {
        return Err(NotTheSender);
      }
      if message.isDeleted {
        return Ok(());
      }
      messages.SoftDelete(m, t);
      r := Ok(());
    }

    method UpdateMessageStatus(m: string, user: string, status: Status, t: int) returns (r: Result<(), ChatError>)
      requires Wired()
      modifies prisma`receipts, prisma`now
      ensures (Model(), r) == SetStatus(old(Model()), m, user, status, t)
    {
      r := messages.UpdateStatus(m, user, status, t);
      prisma.now := t;
    }

    method BatchMarkRead(ms: seq<string>, user: string, c: string, at: ReadTimes) returns (r: Result<(), ChatError>)
      requires Wired()
      modifies prisma`receipts, prisma`conversations, prisma`now
      ensures (Model(), r) == BatchRead(old(Model()), ms, user, c, at)
    {
      prisma.now := at.reset;
      r := messages.BatchUpdateStatus(ms, user, Read, at.batch);
      if r.Ok? {
        conversations.ResetUnreadCount(c, user, at.reset);
      }
      assert Model() == BatchRead(old(Model()), ms, user, c, at).0;
    }

    /** For members only; 50 messages when no limit is given. */
    method GetMessageHistory(c: string, user: string, cursor: Option<int>, limit: Option<nat>, before: Option<int>)
        returns (r: Result<HistoryPage, ChatError>)
      requires Wired()
      ensures r.Err? <==> !IsMember(prisma.Tables(), c, user)
      ensures r.Err? ==> r.error == NotAParticipant
      ensures r.Ok? ==> IsPage(prisma.Tables(), c, cursor, before, if limit.Some? then limit.value else 50, r.value)
    {
      var isParticipant := conversations.IsParticipant(c, user);
      if !isParticipant {
        return Err(NotAParticipant);
      }
      var size := if limit.Some? then limit.value else 50;
      var page := messages.FindByConversation(c, cursor, size, before);
      r := Ok(page);
    }

    /** Drops the conversations the user is not in and asks for the rest. */
    method SyncMessages(user: string, requested: seq<string>, after: int, limit: Option<nat>) returns (ids: seq<string>)
      requires Wired()
      ensures SyncAnswers(prisma.Tables(), Authorized(prisma.Tables(), user, requested), after, limit, ids)
    {
      var authorized: seq<string> := [];
      for i := 0 to |requested|
        invariant forall c :: c in authorized <==> c in requested[..i] && IsMember(prisma.Tables(), c, user)
      {
        var isParticipant := conversations.IsParticipant(requested[i], user);
        if isParticipant {
          authorized := authorized + [requested[i]];
        }
      }
      assert requested[..|requested|] == requested;
      assert Asked(authorized) == Authorized(prisma.Tables(), user, requested);
      if |authorized| == 0 {
        assert SyncRows(prisma.Tables(), {}) == map[];
        return [];
      }
      ids := messages.FindAfterTimestamp(authorized, after, limit);
    }
  }
}
