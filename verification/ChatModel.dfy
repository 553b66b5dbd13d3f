/**
 Conversations, messages and receipts as one step function over the tables, the
 participant caches and the job queue that `ConversationService` and
 `MessageService` share. Clock readings, fresh identifiers and the answers of
 the database where it may choose among rows are part of the event.
 */
module ChatModel {
  import opened Prelude
  import opened Cache

  datatype Role = Admin | Member

  /** A membership row; `lastReadAt` is empty until the member first reads. */
  datatype Membership = Membership(role: Role, lastReadAt: Option<int>)

  datatype Kind = Direct | Group

  datatype Conversation = Conversation(kind: Kind, members: map<string, Membership>)

  datatype Message = Message(
    conversationId: string,
    senderId: string,
    clientId: string,
    sentAt: int,
    ciphertext: Option<string>,
    isEdited: bool,
    editedAt: Option<int>,
    isDeleted: bool,
    deletedAt: Option<int>)

  datatype Status = Sent | Delivered | Read

  datatype Receipt = Receipt(status: Status, deliveredAt: Option<int>, readAt: Option<int>)

  datatype Job =
    | InitialKeys(groupId: string, participantIds: seq<string>)
    | MemberAdded(groupId: string, newMemberId: string)
    | MemberRemoved(groupId: string, removedMemberId: string)
    | Fanout(messageId: string, conversationId: string, senderId: string, recipientIds: seq<string>)
    | LinkPreview(messageId: string, conversationId: string)

  /** `receipts` is keyed by message and recipient. */
  datatype World = World(
    now: int,
    users: set<string>,
    conversations: map<string, Conversation>,
    messages: map<string, Message>,
    receipts: map<(string, string), Receipt>,
    cache: Store,
    jobs: seq<Job>)

  const INITIAL := World(0, {}, map[], map[], map[], EMPTY, [])

  datatype ChatError =
    | WrongParticipantCount | SelfConversation | UsersNotFound
    | ConversationNotFound | NotAGroup | NotAParticipant | NotAnAdmin | AlreadyParticipant | NotFoundInConversation
    | MessageNotFound | NotTheSender | MessageDeleted | EditWindowExpired | NoSuchRow

  const PARTICIPANTS_TTL := 300
  const EDIT_WINDOW_MS := 15 * 60 * 1000
  const FAN_OUT_THRESHOLD := 3

  // ------------------------------------------------------- participant ids

  /** An answer to "all ids in `s`": every one once, in an order the database chooses. */
  ghost predicate Lists(ids: seq<string>, s: set<string>) {
    && (forall x :: x in ids <==> x in s)
    && (forall i, j :: 0 <= i < j < |ids| ==> ids[i] != ids[j])
  }

  lemma {:induction false} DistinctCount(ids: seq<string>, s: set<string>)
    requires Lists(ids, s)
    ensures |ids| == |s|
  {
    if ids == [] {
      assert s == {};
    } else {
      var front, last := ids[..|ids| - 1], ids[|ids| - 1];
      assert ids == front + [last];
      assert last !in front;
      DistinctCount(front, s - {last});
    }
  }

  /** The first occurrences, in order: `[...new Set(ids)]`. */
  function Dedup(ids: seq<string>): (r: seq<string>)
    ensures forall x :: x in r <==> x in ids
    ensures forall i, j :: 0 <= i < j < |r| ==> r[i] != r[j]
  {
    if ids == [] then []
    else
      var front := Dedup(ids[..|ids| - 1]);
      var last := ids[|ids| - 1];
      assert ids == ids[..|ids| - 1] + [last];
      if last in front then front else front + [last]
  }

  ghost predicate IsMember(w: World, c: string, u: string) {
    c in w.conversations && u in w.conversations[c].members
  }

  ghost function MemberIds(w: World, c: string): set<string> {
    if c in w.conversations then w.conversations[c].members.Keys else {}
  }

  ghost function MembershipOf(w: World, c: string, u: string): Option<Membership> {
    if IsMember(w, c, u) then Some(w.conversations[c].members[u]) else None
  }

  ghost predicate IsAdmin(w: World, c: string, u: string) {
    IsMember(w, c, u) && w.conversations[c].kind.Group? && w.conversations[c].members[u].role.Admin?
  }

  // ---------------------------------------------------- conversation steps

  ghost predicate IsDirectBetween(w: World, c: string, a: string, b: string) {
    c in w.conversations && w.conversations[c].kind.Direct? && IsMember(w, c, a) && IsMember(w, c, b)
  }

  /** `found` is what a search for the direct conversation of `a` and `b` may answer. */
  ghost predicate AnswersDirect(w: World, found: Option<string>, a: string, b: string) {
    if found.Some? then IsDirectBetween(w, found.value, a, b)
    else forall c :: !IsDirectBetween(w, c, a, b)
  }

  function NewMembers(kind: Kind, ids: seq<string>, creator: string): map<string, Membership> {
    map u | u in ids :: Membership(if kind.Group? && u == creator then Admin else Member, None)
  }

  ghost function CreateError(w: World, kind: Kind, others: seq<string>, me: string): Option<ChatError> {
    if kind.Direct? && |others| != 1 then Some(WrongParticipantCount)
    else if kind.Group? && |others| < 2 then Some(WrongParticipantCount)
    else if kind.Direct? && others[0] == me then Some(SelfConversation)
    else None
  }

  /** Answers the id of the conversation, new or existing. */
  ghost function Create(w: World, kind: Kind, others: seq<string>, me: string, found: Option<string>, id: string, t: int)
    : (World, Result<string, ChatError>)
  {
    var v := w.(now := t);
    var ids := Dedup([me] + others);
    var e := CreateError(w, kind, others, me);
    if e.Some? then (v, Err(e.value))
    else if kind.Direct? && found.Some? then (v, Ok(found.value))
    else if exists u :: u in ids && u !in w.users then (v, Err(UsersNotFound))
    else
      (v.(conversations := w.conversations[id := Conversation(kind, NewMembers(kind, ids, me))],
          jobs := if kind.Group? then w.jobs + [InitialKeys(id, ids)] else w.jobs),
       Ok(id))
  }

  ghost function AdminError(w: World, c: string, me: string): Option<ChatError> {
    if c !in w.conversations then Some(ConversationNotFound)
    else if w.conversations[c].kind.Direct? then Some(NotAGroup)
    else if me !in w.conversations[c].members then Some(NotAParticipant)
    else if w.conversations[c].members[me].role.Member? then Some(NotAnAdmin)
    else None
  }

  ghost function WithMembers(w: World, c: string, members: map<string, Membership>): World
    requires c in w.conversations
  {
    w.(conversations := w.conversations[c := w.conversations[c].(members := members)])
  }

  ghost function Add(w: World, c: string, user: string, me: string, role: Role, t: int): (World, Result<(), ChatError>) {
    var v := w.(now := t);
    var e := AdminError(w, c, me);
    if e.Some? then (v, Err(e.value))
    else if user !in w.users then (v, Err(UsersNotFound))
    else if user in w.conversations[c].members then (v, Err(AlreadyParticipant))
    else
      (WithMembers(v, c, w.conversations[c].members[user := Membership(role, None)])
       .(cache := Remove(w.cache, ServiceParticipants(c)), jobs := w.jobs + [MemberAdded(c, user)]),
       Ok(()))
  }

  ghost function RemoveError(w: World, c: string, user: string, me: string): Option<ChatError> {
    if user != me then AdminError(w, c, me)
    else if c !in w.conversations then Some(ConversationNotFound)
    else if w.conversations[c].kind.Direct? then Some(NotAGroup)
    else None
  }

  /** Nobody checks that the removed user is a member. */
  ghost function RemoveMember(w: World, c: string, user: string, me: string, t: int): (World, Result<(), ChatError>) {
    var v := w.(now := t);
    var e := RemoveError(w, c, user, me);
    if e.Some? then (v, Err(e.value))
    else
      (WithMembers(v, c, w.conversations[c].members - {user})
       .(cache := Remove(w.cache, ServiceParticipants(c)), jobs := w.jobs + [MemberRemoved(c, user)]),
       Ok(()))
  }

  ghost function SetRole(w: World, c: string, user: string, role: Role, me: string, t: int): (World, Result<(), ChatError>) {
    var v := w.(now := t);
    var e := AdminError(w, c, me);
    if e.Some? then (v, Err(e.value))
    else if user !in w.conversations[c].members then (v, Err(NotFoundInConversation))
    else
      var members := w.conversations[c].members;
      (WithMembers(v, c, members[user := members[user].(role := role)]), Ok(()))
  }

  /** Clock readings of a cached read: cache lookup, then the write that fills the cache. */
  datatype FillTimes = FillTimes(lookup: int, fill: int)

  /** A read through the cache under key `k`; `answer` is what the database lists on a miss. */
  function CachedIds(cache: Store, k: Key, answer: seq<string>, at: FillTimes): (Store, seq<string>) {
    var hit := Lookup(cache, k, at.lookup);
    if hit.Some? && hit.value.Ids? then (cache, hit.value.ids)
    else (Put(cache, k, Ids(answer), Some(PARTICIPANTS_TTL), at.fill), answer)
  }

  ghost function GetIds(w: World, c: string, answer: seq<string>, at: FillTimes): (World, seq<string>) {
    var r := CachedIds(w.cache, ServiceParticipants(c), answer, at);
    (w.(now := at.fill, cache := r.0), r.1)
  }

  // --------------------------------------------------------- message steps

  predicate IsUrlAt(s: string, i: nat)
    requires i <= |s|
  {
    var rest := s[i..];
    exists n | 7 <= n <= 8 :: n < |rest| && SchemeText(rest[..n]) && !IsWhiteSpace(rest[n])
  }

  function LowerAscii(c: char): char {
    if 'A' <= c <= 'Z' then c - 'A' + 'a' else c
  }

  predicate SchemeText(s: string) {
    var l := seq(|s|, i requires 0 <= i < |s| => LowerAscii(s[i]));
    l == "http://" || l == "https://"
  }

  /** The text contains `http://` or `https://`, in any case, followed by something that is not white space. */
  predicate HasUrl(s: string) {
    exists i | 0 <= i < |s| :: IsUrlAt(s, i)
  }

  /** `existing` is what a search by client message id may answer. */
  ghost predicate AnswersClientId(w: World, existing: Option<string>, clientId: string) {
    if existing.Some? then existing.value in w.messages && w.messages[existing.value].clientId == clientId
    else forall m :: m in w.messages ==> w.messages[m].clientId != clientId
  }

  datatype SendTimes = SendTimes(sent: int, ids: FillTimes)

  function NewMessage(c: string, sender: string, clientId: string, text: string, t: int): Message {
    Message(c, sender, clientId, t, Some(text), false, None, false, None)
  }

  function SendJobs(m: string, c: string, sender: string, text: string, ids: seq<string>): seq<Job> {
    (if |ids| >= FAN_OUT_THRESHOLD then [Fanout(m, c, sender, Without(ids, sender))] else [])
    + (if HasUrl(text) then [LinkPreview(m, c)] else [])
  }

  /** `ids` without `x`, in order. */
  function Without(ids: seq<string>, x: string): (r: seq<string>)
    ensures forall y :: y in r <==> y in ids && y != x
  {
    if ids == [] then []
    else (if ids[0] == x then [] else [ids[0]]) + Without(ids[1..], x)
  }

  /** Answers the id of the stored row, new or existing. */
  ghost function Send(w: World, c: string, sender: string, clientId: string, text: string,
                      existing: Option<string>, id: string, answer: seq<string>, at: SendTimes)
    : (World, Result<string, ChatError>)
  {
    var v := w.(now := at.ids.fill);
    if !IsMember(w, c, sender) then (v, Err(NotAParticipant))
    else if existing.Some? then (v, Ok(existing.value))
    else
      var r := CachedIds(w.cache, MessageParticipants(c), answer, at.ids);
      (v.(messages := w.messages[id := NewMessage(c, sender, clientId, text, at.sent)],
          cache := r.0,
          jobs := w.jobs + SendJobs(id, c, sender, text, r.1)),
       Ok(id))
  }

  datatype EditTimes = EditTimes(check: int, edited: int)

  ghost function EditError(w: World, m: string, me: string, t: int): Option<ChatError> {
    if m !in w.messages then Some(MessageNotFound)
    else if w.messages[m].senderId != me then Some(NotTheSender)
    else if w.messages[m].isDeleted then Some(MessageDeleted)
    else if t - w.messages[m].sentAt > EDIT_WINDOW_MS then Some(EditWindowExpired)
    else None
  }

  /** The row write of an edit: it looks at nothing else in the row. */
  function EditRow(row: Message, text: string, t: int): Message {
    row.(ciphertext := Some(text), isEdited := true, editedAt := Some(t))
  }

  ghost function Edit(w: World, m: string, me: string, text: string, at: EditTimes): (World, Result<(), ChatError>) {
    var v := w.(now := at.edited);
    var e := EditError(w, m, me, at.check);
    if e.Some? then (v, Err(e.value))
    else (v.(messages := w.messages[m := EditRow(w.messages[m], text, at.edited)]), Ok(()))
  }

  function Tombstone(row: Message, t: int): Message {
    row.(ciphertext := None, isDeleted := true, deletedAt := Some(t))
  }

  ghost function Delete(w: World, m: string, me: string, t: int): (World, Result<(), ChatError>) {
    var v := w.(now := t);
    if m !in w.messages then (v, Err(MessageNotFound))
    else if w.messages[m].senderId != me then (v, Err(NotTheSender))
    else if w.messages[m].isDeleted then (v, Ok(()))
    else (v.(messages := w.messages[m := Tombstone(w.messages[m], t)]), Ok(()))
  }

  /** The upsert of one receipt row: time stamps are added, the status is overwritten. */
  function Upsert(row: Option<Receipt>, s: Status, t: int): Receipt {
    if row.None? then
      Receipt(s, if s.Sent? then None else Some(t), if s.Read? then Some(t) else None)
    else
      Receipt(s, if s.Sent? then row.value.deliveredAt else Some(t), if s.Read? then Some(t) else row.value.readAt)
  }

  function RowOf(receipts: map<(string, string), Receipt>, m: string, u: string): Option<Receipt> {
    if (m, u) in receipts then Some(receipts[(m, u)]) else None
  }

  ghost function SetStatus(w: World, m: string, u: string, s: Status, t: int): (World, Result<(), ChatError>) {
    var v := w.(now := t);
    if m !in w.messages || u !in w.users then (v, Err(NoSuchRow))
    else (v.(receipts := w.receipts[(m, u) := Upsert(RowOf(w.receipts, m, u), s, t)]), Ok(()))
  }

  /** All upserts of one transaction, at one instant. */
  function UpsertAll(receipts: map<(string, string), Receipt>, ms: seq<string>, u: string, s: Status, t: int): map<(string, string), Receipt> {
    if ms == [] then receipts
    else
      var front := UpsertAll(receipts, ms[..|ms| - 1], u, s, t);
      var m := ms[|ms| - 1];
      front[(m, u) := Upsert(RowOf(front, m, u), s, t)]
  }

  datatype ReadTimes = ReadTimes(batch: int, reset: int)

  ghost function ResetUnread(w: World, c: string, u: string, t: int): World {
    if !IsMember(w, c, u) then w
    else
      var members := w.conversations[c].members;
      WithMembers(w, c, members[u := members[u].(lastReadAt := Some(t))])
  }

  ghost function BatchRead(w: World, ms: seq<string>, u: string, c: string, at: ReadTimes): (World, Result<(), ChatError>) {
    var v := w.(now := at.reset);
    if ms != [] && (u !in w.users || exists m :: m in ms && m !in w.messages) then (v, Err(NoSuchRow))
    else
      (ResetUnread(v.(receipts := UpsertAll(w.receipts, ms, u, Read, at.batch)), c, u, at.reset), Ok(()))
  }

  // ------------------------------------------------------------------ runs

  datatype Event =
    | DoSignUp(user: string, t: int)
    | DoCreate(kind: Kind, others: seq<string>, me: string, found: Option<string>, id: string, t: int)
    | DoAdd(c: string, user: string, me: string, role: Role, t: int)
    | DoRemove(c: string, user: string, me: string, t: int)
    | DoSetRole(c: string, user: string, role: Role, me: string, t: int)
    | DoGetIds(c: string, answer: seq<string>, fat: FillTimes)
    | DoSend(c: string, me: string, clientId: string, text: string,
             existing: Option<string>, id: string, answer: seq<string>, sat: SendTimes)
    | DoEdit(m: string, me: string, text: string, eat: EditTimes)
    | DoDelete(m: string, me: string, t: int)
    | DoSetStatus(m: string, user: string, status: Status, t: int)
    | DoBatchRead(ms: seq<string>, user: string, c: string, rat: ReadTimes)

  ghost function Start(e: Event): int {
    match e
    case DoGetIds(_, _, at) => at.lookup
    case DoSend(_, _, _, _, _, _, _, at) => at.sent
    case DoEdit(_, _, _, at) => at.check
    case DoBatchRead(_, _, _, at) => at.batch
    case _ => e.t
  }

  ghost function End(e: Event): int {
    match e
    case DoGetIds(_, _, at) => at.fill
    case DoSend(_, _, _, _, _, _, _, at) => at.ids.fill
    case DoEdit(_, _, _, at) => at.edited
    case DoBatchRead(_, _, _, at) => at.reset
    case _ => e.t
  }

  /** The clock never goes back, identifiers are fresh, and the database answers its queries truly. */
  ghost predicate Enabled(w: World, e: Event) {
    && w.now <= Start(e) <= End(e)
    && match e
       case DoCreate(kind, others, me, found, id, _) =>
         && id !in w.conversations && id !in w.cache.serviceParticipants && id !in w.cache.messageParticipants
         && (kind.Direct? && |others| == 1 && others[0] != me ==> AnswersDirect(w, found, me, others[0]))
       case DoGetIds(c, answer, _) => Lists(answer, MemberIds(w, c))
       case DoSend(c, _, clientId, _, existing, id, answer, at) =>
         && at.sent <= at.ids.lookup <= at.ids.fill
         && id !in w.messages && (forall u :: (id, u) !in w.receipts)
         && AnswersClientId(w, existing, clientId) && Lists(answer, MemberIds(w, c))
       case _ => true
  }

  ghost function Step(w: World, e: Event): World {
    match e
    case DoSignUp(user, t) => w.(now := t, users := w.users + {user})
    case DoCreate(kind, others, me, found, id, t) => Create(w, kind, others, me, found, id, t).0
    case DoAdd(c, user, me, role, t) => Add(w, c, user, me, role, t).0
    case DoRemove(c, user, me, t) => RemoveMember(w, c, user, me, t).0
    case DoSetRole(c, user, role, me, t) => SetRole(w, c, user, role, me, t).0
    case DoGetIds(c, answer, at) => GetIds(w, c, answer, at).0
    case DoSend(c, me, clientId, text, existing, id, answer, at) => Send(w, c, me, clientId, text, existing, id, answer, at).0
    case DoEdit(m, me, text, at) => Edit(w, m, me, text, at).0
    case DoDelete(m, me, t) => Delete(w, m, me, t).0
    case DoSetStatus(m, user, status, t) => SetStatus(w, m, user, status, t).0
    case DoBatchRead(ms, user, c, at) => BatchRead(w, ms, user, c, at).0
  }

  ghost function Run(w: World, es: seq<Event>): World
    decreases |es|
  {
    if es == [] then w else Run(Step(w, es[0]), es[1..])
  }

  ghost predicate CanRun(w: World, es: seq<Event>)
    decreases |es|
  {
    es == [] || (Enabled(w, es[0]) && CanRun(Step(w, es[0]), es[1..]))
  }
}
