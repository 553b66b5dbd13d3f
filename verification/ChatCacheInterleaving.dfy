/**
 The participant caches when requests interleave: the cache lookup, the database
 read and the cache write of a cached read, and the membership write and the
 cache deletion of a membership change, are separate steps. The state keeps,
 besides the cache, what only a proof sees: all past memberships, where each
 cached list came from, and every list that was served.
 */
module ChatCacheInterleaving {
  import opened Prelude
  import opened Cache
  import opened ChatModel

  /** The members of a conversation from an instant on. */
  datatype Version = Version(at: int, members: set<string>)

  /** The keys of both families of cached lists. */
  type ListKey = k: Key | !k.Blacklist? witness ServiceParticipants("")

  /** When a cached list was read and stored, and how many versions there were then. */
  datatype Origin = Origin(readAt: int, version: nat, filledAt: int, versionAtFill: nat)

  /** A cached read that has missed the cache, and one that has its list but has yet to store it. */
  datatype Reader =
    | Missed(key: ListKey)
    | Loaded(key: ListKey, answer: seq<string>, readAt: int, version: nat)

  /** A membership change that has written its version but has yet to delete the cache entry. */
  datatype Writer = Writer(conversationId: string, version: nat)

  /** A list handed out at instant `at`, read from the tables at `readAt` and stored at `filledAt`. */
  datatype Serving = Serving(conversationId: string, ids: seq<string>, at: int, readAt: int, filledAt: int)

  datatype State = State(
    now: int,
    histories: map<string, seq<Version>>,
    cache: Store,
    origins: map<Key, Origin>,
    readers: map<string, Reader>,
    writers: map<string, Writer>,
    servings: seq<Serving>)

  const START := State(0, map[], EMPTY, map[], map[], map[], [])

  /** A conversation that does not exist yet has nobody in it. */
  function HistoryOf(histories: map<string, seq<Version>>, c: string): seq<Version> {
    if c in histories then histories[c] else [Version(0, {})]
  }

  datatype Event =
    | Look(reader: string, key: ListKey, t: int)
    | Load(reader: string, answer: seq<string>, t: int)
    | Fill(reader: string, t: int)
    | Found(c: string, members: set<string>, t: int)
    | Write(writer: string, c: string, members: set<string>, t: int)
    | Delete(writer: string, t: int)

  ghost predicate Enabled(s: State, e: Event) {
    && s.now <= e.t
    && match e
       case Look(r, _, _) => r !in s.readers
       case Load(r, answer, _) =>
         r in s.readers && s.readers[r].Missed? && ListsCurrent(HistoryOf(s.histories, s.readers[r].key.conversationId), answer)
       case Fill(r, _) => r in s.readers && s.readers[r].Loaded?
       case Found(c, _, _) => c !in s.histories && EntryAt(s.cache, ServiceParticipants(c)).None?
       case Write(w, c, _, _) => w !in s.writers && c in s.histories
       case Delete(w, _) => w in s.writers
  }

  ghost predicate ListsCurrent(h: seq<Version>, ids: seq<string>) {
    |h| > 0 && Lists(ids, h[|h| - 1].members)
  }

  function LastVersion(h: seq<Version>): nat {
    Max(0, |h| - 1)
  }

  /** A hit is served at once, a miss goes on to the database. */
  ghost function AfterLook(s: State, r: string, k: ListKey, t: int): State {
    var hit := Lookup(s.cache, k, t);
    if hit.Some? && hit.value.Ids? && k in s.origins then
      s.(now := t, servings := s.servings +
         [Serving(k.conversationId, hit.value.ids, t, s.origins[k].readAt, s.origins[k].filledAt)])
    else s.(now := t, readers := s.readers[r := Missed(k)])
  }

  ghost function AfterLoad(s: State, r: string, answer: seq<string>, t: int): State
    requires r in s.readers
  {
    var k := s.readers[r].key;
    s.(now := t, readers := s.readers[r := Loaded(k, answer, t, LastVersion(HistoryOf(s.histories, k.conversationId)))])
  }

  ghost function AfterFill(s: State, r: string, t: int): State
    requires r in s.readers && s.readers[r].Loaded?
  {
    var l := s.readers[r];
    var origin := Origin(l.readAt, l.version, t, LastVersion(HistoryOf(s.histories, l.key.conversationId)));
    s.(now := t,
       cache := Put(s.cache, l.key, Ids(l.answer), Some(PARTICIPANTS_TTL), t),
       origins := s.origins[l.key := origin],
       readers := s.readers - {r},
       servings := s.servings + [Serving(l.key.conversationId, l.answer, t, l.readAt, t)])
  }

  ghost function WithVersion(s: State, c: string, members: set<string>, t: int): State {
    s.(now := t, histories := s.histories[c := HistoryOf(s.histories, c) + [Version(t, members)]])
  }

  ghost function AfterWrite(s: State, w: string, c: string, members: set<string>, t: int): State {
    WithVersion(s, c, members, t).(writers := s.writers[w := Writer(c, |HistoryOf(s.histories, c)|)])
  }

  ghost function AfterDelete(s: State, w: string, t: int): State
    requires w in s.writers
  {
    s.(now := t, cache := Remove(s.cache, ServiceParticipants(s.writers[w].conversationId)), writers := s.writers - {w})
  }

  ghost function Step(s: State, e: Event): State
    requires Enabled(s, e)
  {
    match e
    case Look(r, k, t) => AfterLook(s, r, k, t)
    case Load(r, answer, t) => AfterLoad(s, r, answer, t)
    case Fill(r, t) => AfterFill(s, r, t)
    case Found(c, members, t) => WithVersion(s, c, members, t)
    case Write(w, c, members, t) => AfterWrite(s, w, c, members, t)
    case Delete(w, t) => AfterDelete(s, w, t)
  }

  ghost predicate CanRun(s: State, es: seq<Event>)
    decreases |es|
  {
    es == [] || (Enabled(s, es[0]) && CanRun(Step(s, es[0]), es[1..]))
  }

  ghost function Run(s: State, es: seq<Event>): State
    requires CanRun(s, es)
    decreases |es|
  {
    if es == [] then s else Run(Step(s, es[0]), es[1..])
  }

  // ------------------------------------------------------------ invariant

  /** Version `v` was the membership at instant `t`. */
  ghost predicate Current(h: seq<Version>, v: nat, t: int) {
    v < |h| && h[v].at <= t && (v + 1 < |h| ==> t <= h[v + 1].at)
  }

  /** `ids` lists the membership of instant `t`. */
  ghost predicate WasMembership(h: seq<Version>, t: int, ids: seq<string>) {
    exists v: nat :: Current(h, v, t) && Lists(ids, h[v].members)
  }

  ghost predicate HistorySound(h: seq<Version>, now: int) {
    |h| > 0 && h[|h| - 1].at <= now
  }

  ghost predicate HistoriesSound(hs: map<string, seq<Version>>, now: int) {
    now >= 0 && forall c :: c in hs ==> HistorySound(hs[c], now)
  }

  ghost predicate ReadSound(h: seq<Version>, now: int, ids: seq<string>, readAt: int, version: nat) {
    readAt <= now && Current(h, version, readAt) && Lists(ids, h[version].members)
  }

  ghost predicate EntrySound(h: seq<Version>, now: int, e: Entry, o: Origin) {
    && e.value.Ids? && e.deadline == At(o.filledAt + PARTICIPANTS_TTL * 1000)
    && o.readAt <= o.filledAt <= now
    && o.version <= o.versionAtFill < |h|
    && ReadSound(h, now, e.value.ids, o.readAt, o.version)
  }

  ghost predicate EntriesSound(hs: map<string, seq<Version>>, now: int, cache: Store, origins: map<Key, Origin>) {
    forall k: ListKey :: EntryAt(cache, k).Some? ==>
      k in origins && EntrySound(HistoryOf(hs, k.conversationId), now, EntryAt(cache, k).value, origins[k])
  }

  /** Some writer of version `j` has yet to delete the entry. */
  ghost predicate Pending(writers: map<string, Writer>, c: string, j: nat) {
    exists w :: w in writers && writers[w] == Writer(c, j)
  }

  /** Version `j` of the conversation was written after its entry in the service's cache was stored. */
  ghost predicate WrittenSince(hs: map<string, seq<Version>>, cache: Store, origins: map<Key, Origin>, c: string, j: nat) {
    && EntryAt(cache, ServiceParticipants(c)).Some? && ServiceParticipants(c) in origins
    && origins[ServiceParticipants(c)].versionAtFill < j < |HistoryOf(hs, c)|
  }

  /** Every version written since an entry of the service's cache was stored still has its deletion to come. */
  ghost predicate WritesPending(hs: map<string, seq<Version>>, cache: Store, origins: map<Key, Origin>, writers: map<string, Writer>) {
    forall c, j: nat :: WrittenSince(hs, cache, origins, c, j) ==> Pending(writers, c, j)
  }

  ghost predicate ReaderSound(hs: map<string, seq<Version>>, now: int, r: Reader) {
    r.Loaded? ==> ReadSound(HistoryOf(hs, r.key.conversationId), now, r.answer, r.readAt, r.version)
  }

  ghost predicate ReadersSound(hs: map<string, seq<Version>>, now: int, readers: map<string, Reader>) {
    forall r :: r in readers ==> ReaderSound(hs, now, readers[r])
  }

  /** How old a served list may be. */
  ghost predicate ServingSound(h: seq<Version>, now: int, v: Serving) {
    && v.readAt <= v.filledAt <= v.at <= now
    && v.at <= v.filledAt + PARTICIPANTS_TTL * 1000
    && WasMembership(h, v.readAt, v.ids)
  }

  ghost predicate ServingsSound(hs: map<string, seq<Version>>, now: int, servings: seq<Serving>) {
    forall v :: v in servings ==> ServingSound(HistoryOf(hs, v.conversationId), now, v)
  }

  ghost predicate Inv(s: State) {
    && HistoriesSound(s.histories, s.now)
    && ReadersSound(s.histories, s.now, s.readers)
    && EntriesSound(s.histories, s.now, s.cache, s.origins)
    && WritesPending(s.histories, s.cache, s.origins, s.writers)
    && ServingsSound(s.histories, s.now, s.servings)
  }

  // ---------------------------------------------------------------- steps

  /** The passing of time alone. */
  lemma TimePasses(s: State, t: int)
    requires Inv(s) && s.now <= t
    ensures Inv(s.(now := t))
  {
    forall v | v in s.servings
      ensures ServingSound(HistoryOf(s.histories, v.conversationId), t, v)
    {
      assert ServingSound(HistoryOf(s.histories, v.conversationId), s.now, v);
    }
  }

  lemma LookKeeps(s: State, e: Event)
    requires Inv(s) && Enabled(s, e) && e.Look?
    ensures Inv(Step(s, e))
  {
    TimePasses(s, e.t);
    if Step(s, e).servings != s.servings {
      var o := s.origins[e.key];
      assert Current(HistoryOf(s.histories, e.key.conversationId), o.version, o.readAt);
    }
  }

  lemma LastIsCurrent(hs: map<string, seq<Version>>, now: int, c: string, ids: seq<string>, t: int)
    requires HistoriesSound(hs, now) && now <= t && ListsCurrent(HistoryOf(hs, c), ids)
    ensures ReadSound(HistoryOf(hs, c), t, ids, t, LastVersion(HistoryOf(hs, c)))
  {
  }

  lemma LoadKeeps(s: State, e: Event)
    requires Inv(s) && Enabled(s, e) && e.Load?
    ensures Inv(Step(s, e))
  {
    TimePasses(s, e.t);
    LastIsCurrent(s.histories, s.now, s.readers[e.reader].key.conversationId, e.answer, e.t);
  }

  lemma EntriesAfterFill(s: State, r: string, t: int)
    requires Inv(s) && s.now <= t && r in s.readers && s.readers[r].Loaded?
    ensures var v := AfterFill(s, r, t); EntriesSound(v.histories, t, v.cache, v.origins)
  {
    var v, l := AfterFill(s, r, t), s.readers[r];
    assert ReaderSound(s.histories, s.now, l);
    forall k: ListKey | EntryAt(v.cache, k).Some?
      ensures k in v.origins && EntrySound(HistoryOf(v.histories, k.conversationId), t, EntryAt(v.cache, k).value, v.origins[k])
    {
      WritesAgree(s.cache, l.key, Entry(Ids(l.answer), DeadlineFor(Some(PARTICIPANTS_TTL), t)), k);
    }
  }

  lemma WritesPendingAfterFill(s: State, r: string, t: int)
    requires Inv(s) && s.now <= t && r in s.readers && s.readers[r].Loaded?
    ensures var v := AfterFill(s, r, t); WritesPending(v.histories, v.cache, v.origins, v.writers)
  {
    var v, l := AfterFill(s, r, t), s.readers[r];
    forall c, j: nat | WrittenSince(v.histories, v.cache, v.origins, c, j)
      ensures Pending(v.writers, c, j)
    {
      if ServiceParticipants(c) != l.key {
        WritesAgree(s.cache, l.key, Entry(Ids(l.answer), DeadlineFor(Some(PARTICIPANTS_TTL), t)), ServiceParticipants(c));
        assert WrittenSince(s.histories, s.cache, s.origins, c, j);
      }
    }
  }

  lemma FillKeeps(s: State, e: Event)
    requires Inv(s) && Enabled(s, e) && e.Fill?
    ensures Inv(Step(s, e))
  {
    var v, l := Step(s, e), s.readers[e.reader];
    TimePasses(s, e.t);
    assert ReaderSound(s.histories, s.now, l);
    EntriesAfterFill(s, e.reader, e.t);
    WritesPendingAfterFill(s, e.reader, e.t);
    assert ServingSound(HistoryOf(v.histories, l.key.conversationId), v.now, v.servings[|s.servings|]);
  }

  /** What a new version at the end of a history leaves true of the past. */
  lemma ReadSurvives(h: seq<Version>, x: Version, now: int, ids: seq<string>, readAt: int, version: nat)
    requires ReadSound(h, now, ids, readAt, version) && now <= x.at
    ensures ReadSound(h + [x], x.at, ids, readAt, version)
  {
  }

  lemma ServingSurvives(h: seq<Version>, x: Version, now: int, v: Serving)
    requires ServingSound(h, now, v) && now <= x.at
    ensures ServingSound(h + [x], x.at, v)
  {
    var n: nat :| Current(h, n, v.readAt) && Lists(v.ids, h[n].members);
    assert Current(h + [x], n, v.readAt) && (h + [x])[n] == h[n];
  }

  lemma PastSurvives(s: State, c: string, members: set<string>, t: int)
    requires Inv(s) && s.now <= t
    ensures var v := WithVersion(s, c, members, t);
      && HistoriesSound(v.histories, t) && ReadersSound(v.histories, t, s.readers)
      && EntriesSound(v.histories, t, s.cache, s.origins) && ServingsSound(v.histories, t, s.servings)
  {
    var v := WithVersion(s, c, members, t);
    var h, x := HistoryOf(s.histories, c), Version(t, members);
    TimePasses(s, t);
    forall k: ListKey | EntryAt(s.cache, k).Some?
      ensures k in s.origins && EntrySound(HistoryOf(v.histories, k.conversationId), t, EntryAt(s.cache, k).value, s.origins[k])
    {
      if k.conversationId == c {
        ReadSurvives(h, x, s.now, EntryAt(s.cache, k).value.value.ids, s.origins[k].readAt, s.origins[k].version);
      }
    }
    forall r | r in s.readers
      ensures ReaderSound(v.histories, t, s.readers[r])
    {
      var l := s.readers[r];
      assert ReaderSound(s.histories, s.now, l);
      if l.Loaded? && l.key.conversationId == c {
        ReadSurvives(h, x, s.now, l.answer, l.readAt, l.version);
      }
    }
    forall g | g in s.servings
      ensures ServingSound(HistoryOf(v.histories, g.conversationId), t, g)
    {
      if g.conversationId == c {
        ServingSurvives(h, x, s.now, g);
      }
    }
  }

  /** The writer of a new version has its deletion to come; without an entry none is needed. */
  lemma WritesPendingAfterVersion(s: State, c: string, members: set<string>, t: int, writers: map<string, Writer>)
    requires Inv(s)
    requires forall w :: w in s.writers ==> w in writers && writers[w] == s.writers[w]
    requires EntryAt(s.cache, ServiceParticipants(c)).None? || Pending(writers, c, |HistoryOf(s.histories, c)|)
    ensures WritesPending(WithVersion(s, c, members, t).histories, s.cache, s.origins, writers)
  {
    var hs := WithVersion(s, c, members, t).histories;
    forall d, j: nat | WrittenSince(hs, s.cache, s.origins, d, j)
      ensures Pending(writers, d, j)
    {
      if d != c || j < |HistoryOf(s.histories, c)| {
        assert WrittenSince(s.histories, s.cache, s.origins, d, j);
        var w :| w in s.writers && s.writers[w] == Writer(d, j);
        assert writers[w] == Writer(d, j);
      }
    }
  }

  lemma VersionKeeps(s: State, e: Event)
    requires Inv(s) && Enabled(s, e) && (e.Found? || e.Write?)
    ensures Inv(Step(s, e))
  {
    var v := Step(s, e);
    PastSurvives(s, e.c, e.members, e.t);
    if e.Write? {
      assert v.writers[e.writer] == Writer(e.c, |HistoryOf(s.histories, e.c)|);
    }
    WritesPendingAfterVersion(s, e.c, e.members, e.t, v.writers);
  }

  lemma DeleteKeeps(s: State, e: Event)
    requires Inv(s) && Enabled(s, e) && e.Delete?
    ensures Inv(Step(s, e))
  {
    var v, gone := Step(s, e), ServiceParticipants(s.writers[e.writer].conversationId);
    TimePasses(s, e.t);
    forall k: ListKey | EntryAt(v.cache, k).Some?
      ensures k != gone && EntryAt(v.cache, k) == EntryAt(s.cache, k)
    {
      WritesAgree(s.cache, gone, Entry(Text(""), Never), k);
    }
    forall c, j: nat | WrittenSince(v.histories, v.cache, v.origins, c, j)
      ensures Pending(v.writers, c, j)
    {
      assert WrittenSince(s.histories, s.cache, s.origins, c, j);
      var w :| w in s.writers && s.writers[w] == Writer(c, j);
      assert w in v.writers && v.writers[w] == Writer(c, j);
    }
  }

  lemma StepKeeps(s: State, e: Event)
    requires Inv(s) && Enabled(s, e)
    ensures Inv(Step(s, e))
  {
    match e
    case Look(_, _, _) => LookKeeps(s, e);
    case Load(_, _, _) => LoadKeeps(s, e);
    case Fill(_, _) => FillKeeps(s, e);
    case Found(_, _, _) => VersionKeeps(s, e);
    case Write(_, _, _, _) => VersionKeeps(s, e);
    case Delete(_, _) => DeleteKeeps(s, e);
  }

  lemma {:induction false} RunKeeps(s: State, es: seq<Event>)
    requires Inv(s) && CanRun(s, es)
    ensures Inv(Run(s, es))
    decreases |es|
  {
    if es != [] {
      StepKeeps(s, es[0]);
      RunKeeps(Step(s, es[0]), es[1..]);
    }
  }

  // ---------------------------------------------------------- main results

  /**
   However requests interleave, every list served from either cache was the
   membership at some past instant, at most 300 seconds before plus the age the
   reading had when it was stored.
   */
  lemma BoundedStaleness(es: seq<Event>, v: Serving)
    requires CanRun(START, es) && v in Run(START, es).servings
    ensures WasMembership(HistoryOf(Run(START, es).histories, v.conversationId), v.readAt, v.ids)
    ensures v.readAt <= v.at && v.at - v.readAt <= 300 * 1000 + (v.filledAt - v.readAt)
  {
    RunKeeps(START, es);
  }

  /** So a user who was no member for that long is in no list any more. */
  lemma FormerMemberIsForgotten(es: seq<Event>, v: Serving, user: string, delay: nat)
    requires CanRun(START, es) && v in Run(START, es).servings && v.filledAt - v.readAt <= delay
    requires var h := HistoryOf(Run(START, es).histories, v.conversationId);
      forall n: nat, t :: Current(h, n, t) && v.at - 300 * 1000 - delay <= t <= v.at ==> user !in h[n].members
    ensures user !in v.ids
  {
    BoundedStaleness(es, v);
    var h := HistoryOf(Run(START, es).histories, v.conversationId);
    var n: nat :| Current(h, n, v.readAt) && Lists(v.ids, h[n].members);
  }

  /**
   When an entry of the service's cache holds the newest membership: if and only
   if no membership was written between its reading and its storing, and no
   writer of a version written since is still to delete it.
   */
  lemma ServiceEntryExact(es: seq<Event>, c: string)
    requires CanRun(START, es) && EntryAt(Run(START, es).cache, ServiceParticipants(c)).Some?
    ensures var s := Run(START, es);
      var h := HistoryOf(s.histories, c);
      && ServiceParticipants(c) in s.origins
      && var o := s.origins[ServiceParticipants(c)];
      && (o.version == |h| - 1 <==>
            o.version == o.versionAtFill && forall j: nat :: o.versionAtFill < j < |h| ==> !Pending(s.writers, c, j))
      && (o.version == |h| - 1 ==>
            var e := EntryAt(s.cache, ServiceParticipants(c)).value; e.value.Ids? && ListsCurrent(h, e.value.ids))
  {
    RunKeeps(START, es);
    var s := Run(START, es);
    var h, k := HistoryOf(s.histories, c), ServiceParticipants(c);
    var key: ListKey := k;
    assert EntrySound(h, s.now, EntryAt(s.cache, key).value, s.origins[key]);
    if s.origins[k].versionAtFill < |h| - 1 {
      assert WrittenSince(s.histories, s.cache, s.origins, c, |h| - 1);
    }
  }

  /** No membership change ever touches the cache that message delivery reads: only a later storing replaces an entry. */
  lemma MessageEntryStays(s: State, e: Event, c: string)
    requires Enabled(s, e) && !(e.Fill? && s.readers[e.reader].key == MessageParticipants(c))
    ensures EntryAt(Step(s, e).cache, MessageParticipants(c)) == EntryAt(s.cache, MessageParticipants(c))
  {
    if e.Fill? {
      var l := s.readers[e.reader];
      WritesAgree(s.cache, l.key, Entry(Ids(l.answer), DeadlineFor(Some(PARTICIPANTS_TTL), e.t)), MessageParticipants(c));
    }
  }

  lemma ListsOneSet(ids: seq<string>, a: set<string>, b: set<string>)
    requires Lists(ids, a)
    ensures Lists(ids, b) <==> a == b
  {
    assert forall x :: x in a <==> x in ids;
  }

  /**
   The list that message delivery caches lists the newest membership if and only if
   the membership written last equals the one it was read from: no net change since
   the reading, whether or not the changes are finished.
   */
  lemma MessageEntryExact(es: seq<Event>, c: string)
    requires CanRun(START, es) && EntryAt(Run(START, es).cache, MessageParticipants(c)).Some?
    ensures var s := Run(START, es);
      var h, e := HistoryOf(s.histories, c), EntryAt(s.cache, MessageParticipants(c)).value;
      && MessageParticipants(c) in s.origins && e.value.Ids?
      && var o := s.origins[MessageParticipants(c)];
      && o.version < |h|
      && (ListsCurrent(h, e.value.ids) <==> h[o.version].members == h[|h| - 1].members)
  {
    RunKeeps(START, es);
    var s := Run(START, es);
    var h, key: ListKey := HistoryOf(s.histories, c), MessageParticipants(c);
    var e, o := EntryAt(s.cache, key).value, s.origins[key];
    assert EntrySound(h, s.now, e, o);
    ListsOneSet(e.value.ids, h[o.version].members, h[|h| - 1].members);
  }

  ghost predicate StoresNothing(s: State, es: seq<Event>, c: string)
    requires CanRun(s, es)
    decreases |es|
  {
    es == [] ||
    (&& !(es[0].Fill? && s.readers[es[0].reader].key == MessageParticipants(c))
     && StoresNothing(Step(s, es[0]), es[1..], c))
  }

  /**
   Over any interleaving in which nothing is stored for it, however many membership
   changes begin and finish, an entry of the delivery cache stays as it is.
   */
  lemma {:induction false} MessageEntryOverRun(s: State, es: seq<Event>, c: string)
    requires CanRun(s, es) && StoresNothing(s, es, c)
    ensures EntryAt(Run(s, es).cache, MessageParticipants(c)) == EntryAt(s.cache, MessageParticipants(c))
    decreases |es|
  {
    if es != [] {
      MessageEntryStays(s, es[0], c);
      MessageEntryOverRun(Step(s, es[0]), es[1..], c);
    }
  }

  /** So one that listed the membership lists it afterwards if and only if there is no net change. */
  lemma ChangesMakeItStale(s: State, es: seq<Event>, c: string)
    requires Inv(s) && CanRun(s, es) && StoresNothing(s, es, c)
    requires EntryAt(s.cache, MessageParticipants(c)).Some? && EntryAt(s.cache, MessageParticipants(c)).value.value.Ids?
    requires ListsCurrent(HistoryOf(s.histories, c), EntryAt(s.cache, MessageParticipants(c)).value.value.ids)
    ensures var h, k := HistoryOf(s.histories, c), HistoryOf(Run(s, es).histories, c);
      var e := EntryAt(Run(s, es).cache, MessageParticipants(c));
      && e.Some? && e.value.value.Ids? && |h| > 0 && |k| > 0
      && (ListsCurrent(k, e.value.value.ids) <==> h[|h| - 1].members == k[|k| - 1].members)
  {
    RunKeeps(s, es);
    MessageEntryOverRun(s, es, c);
    var h, k := HistoryOf(s.histories, c), HistoryOf(Run(s, es).histories, c);
    ListsOneSet(EntryAt(s.cache, MessageParticipants(c)).value.value.ids, h[|h| - 1].members, k[|k| - 1].members);
  }

  // ------------------------------------------------------ counterexamples

  lemma {:induction false} OneMore(s: State, es: seq<Event>, e: Event)
    requires CanRun(s, es) && Enabled(Run(s, es), e)
    ensures CanRun(s, es + [e]) && Run(s, es + [e]) == Step(Run(s, es), e)
    decreases |es|
  {
    if es == [] {
      assert [e][1..] == [];
      assert es + [e] == [e];
    } else {
      OneMore(Step(s, es[0]), es[1..], e);
      assert (es + [e])[0] == es[0] && (es + [e])[1..] == es[1..] + [e];
    }
  }

  ghost predicate Reachable(s: State) {
    exists es :: CanRun(START, es) && Run(START, es) == s
  }

  lemma Reaches(s: State, e: Event)
    requires Reachable(s) && Enabled(s, e)
    ensures Reachable(Step(s, e))
  {
    var es :| CanRun(START, es) && Run(START, es) == s;
    OneMore(START, es, e);
  }

  const BOTH := {"a", "b"}
  const PAIR := [Version(0, {}), Version(0, BOTH)]

  /** Conversation "c" with two members, at the start of time, and some readers. */
  function TwoMembers(readers: map<string, Reader>): State {
    State(0, map["c" := PAIR], EMPTY, map[], readers, map[], [])
  }

  lemma TwoMembersFound()
    ensures Reachable(TwoMembers(map[]))
  {
    assert CanRun(START, []) && Run(START, []) == START;
    Reaches(START, Found("c", BOTH, 0));
    assert HistoryOf(START.histories, "c") + [Version(0, BOTH)] == PAIR;
    assert Step(START, Found("c", BOTH, 0)) == TwoMembers(map[]);
  }

  lemma TwoMembersLooked(k: ListKey)
    ensures Reachable(TwoMembers(map["r" := Missed(k)]))
  {
    TwoMembersFound();
    var s := TwoMembers(map[]);
    Reaches(s, Look("r", k, 0));
    assert EntryAt(s.cache, k).None?;
    assert Step(s, Look("r", k, 0)) == TwoMembers(map["r" := Missed(k)]);
  }

  /** One reading under key `k` has its list but has not stored it. */
  lemma TwoMembersRead(k: ListKey) returns (s: State)
    requires k.conversationId == "c"
    ensures Reachable(s) && s == TwoMembers(map["r" := Loaded(k, ["a", "b"], 0, 1)])
  {
    TwoMembersLooked(k);
    var s0 := TwoMembers(map["r" := Missed(k)]);
    assert s0.readers["r"] == Missed(k) && HistoryOf(s0.histories, "c") == PAIR;
    assert ListsCurrent(PAIR, ["a", "b"]);
    Reaches(s0, Load("r", ["a", "b"], 0));
    s := Step(s0, Load("r", ["a", "b"], 0));
    assert s.readers == map["r" := Loaded(k, ["a", "b"], 0, 1)];
  }

  /** A reader that stores its list after the change and its deletion leaves the removed member in the service's cache. */
  lemma RacyFillServesFormerMember() returns (s: State, v: Serving)
    ensures Reachable(s) && v in s.servings && s.writers == map[] && v.at == s.now
    ensures ListsCurrent(HistoryOf(s.histories, "c"), ["a"])
    ensures v.conversationId == "c" && "b" in v.ids && EntryAt(s.cache, ServiceParticipants("c")).Some?
  {
    var s0 := TwoMembersRead(ServiceParticipants("c"));
    var s2 := ChangeAndDelete(s0);
    Reaches(s2, Fill("r", 2));
    s := Step(s2, Fill("r", 2));
    v := s.servings[|s.servings| - 1];
  }

  /** A change from two members to one, with its deletion: it leaves the list that delivery reads. */
  lemma ChangeAndDelete(s: State) returns (v: State)
    requires Reachable(s) && s.now <= 1 && s.writers == map[] && "c" in s.histories
    ensures Reachable(v) && v.now == 1 && v.writers == map[] && v.readers == s.readers && v.origins == s.origins
    ensures v.cache == Remove(s.cache, ServiceParticipants("c"))
    ensures ListsCurrent(HistoryOf(v.histories, "c"), ["a"])
  {
    Reaches(s, Write("w", "c", {"a"}, 1));
    var s1 := Step(s, Write("w", "c", {"a"}, 1));
    Reaches(s1, Delete("w", 1));
    v := Step(s1, Delete("w", 1));
  }

  /** The same two members, with the list stored for delivery and the change finished. */
  lemma ChangedAfterFill() returns (s: State)
    ensures Reachable(s) && s.now == 1 && s.writers == map[] && s.readers == map[]
    ensures EntryAt(s.cache, MessageParticipants("c")) == Some(Entry(Ids(["a", "b"]), At(300000)))
    ensures MessageParticipants("c") in s.origins && s.origins[MessageParticipants("c")] == Origin(0, 1, 0, 1)
    ensures ListsCurrent(HistoryOf(s.histories, "c"), ["a"])
  {
    var k: ListKey := MessageParticipants("c");
    var s0 := TwoMembersRead(k);
    Reaches(s0, Fill("r", 0));
    var s1 := Step(s0, Fill("r", 0));
    assert s1.origins[k] == Origin(0, 1, 0, 1) && s1.readers == map[];
    s := ChangeAndDelete(s1);
  }

  /** The list message delivery uses keeps a removed member although no reading was overtaken and every change is finished. */
  lemma DeliveryListKeepsFormerMember() returns (s: State, v: Serving)
    ensures Reachable(s) && v in s.servings && s.writers == map[] && v.at == s.now == 299999 && v.filledAt == v.readAt
    ensures ListsCurrent(HistoryOf(s.histories, "c"), ["a"])
    ensures v.conversationId == "c" && "b" in v.ids
  {
    var s0 := ChangedAfterFill();
    var e := Look("q", MessageParticipants("c"), 299999);
    Reaches(s0, e);
    s := Step(s0, e);
    v := s.servings[|s.servings| - 1];
  }
}
