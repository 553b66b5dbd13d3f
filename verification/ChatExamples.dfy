/** Short runs in which the chat does less than one would hope, one for each condition proved elsewhere. */
module ChatExamples {
  import opened Prelude
  import opened Cache
  import opened ChatModel
  import opened ChatReceipts
  import opened ChatPaging
  import opened ChatDelivery
  import K = Keyset

  ghost predicate Reachable(w: World) {
    exists es :: CanRun(INITIAL, es) && Run(INITIAL, es) == w
  }

  lemma {:induction false} OneMore(w: World, es: seq<Event>, e: Event)
    requires CanRun(w, es) && Enabled(Run(w, es), e)
    ensures CanRun(w, es + [e]) && Run(w, es + [e]) == Step(Run(w, es), e)
    decreases |es|
  {
    if es == [] {
      assert [e][1..] == [] && es + [e] == [e];
    } else {
      OneMore(Step(w, es[0]), es[1..], e);
      assert (es + [e])[0] == es[0] && (es + [e])[1..] == es[1..] + [e];
    }
  }

  lemma Reaches(w: World, e: Event)
    requires Reachable(w) && Enabled(w, e)
    ensures Reachable(Step(w, e))
  {
    var es :| CanRun(INITIAL, es) && Run(INITIAL, es) == w;
    OneMore(INITIAL, es, e);
  }

  // ------------------------------------------------- a direct conversation

  const TWO := {"a", "b"}
  const DIRECT := Conversation(Direct, map["a" := Membership(Member, None), "b" := Membership(Member, None)])

  /** Users "a" and "b" with a direct conversation "c", at the start of time. */
  function Chat(messages: map<string, Message>, receipts: map<(string, string), Receipt>, cache: Store): World {
    World(0, TWO, map["c" := DIRECT], messages, receipts, cache, [])
  }

  lemma SignedUp()
    ensures Reachable(World(0, TWO, map[], map[], map[], EMPTY, []))
  {
    assert CanRun(INITIAL, []) && Run(INITIAL, []) == INITIAL;
    Reaches(INITIAL, DoSignUp("a", 0));
    var w := Step(INITIAL, DoSignUp("a", 0));
    Reaches(w, DoSignUp("b", 0));
    assert w.users + {"b"} == TWO;
  }

  lemma Started()
    ensures Reachable(Chat(map[], map[], EMPTY))
  {
    SignedUp();
    var w := World(0, TWO, map[], map[], map[], EMPTY, []);
    var e := DoCreate(Direct, ["b"], "a", None, "c", 0);
    Reaches(w, e);
    var ids := Dedup(["a"] + ["b"]);
    assert forall x :: x in ids <==> x in ["a"] + ["b"];
    assert NewMembers(Direct, ids, "a") == DIRECT.members;
    assert Step(w, e) == Chat(map[], map[], EMPTY);
  }

  const LISTED := Put(EMPTY, MessageParticipants("c"), Ids(["a", "b"]), Some(PARTICIPANTS_TTL), 0)
  const FIRST := NewMessage("c", "a", "k1", "x", 0)
  const SECOND := NewMessage("c", "a", "k2", "x", 0)

  lemma NoLink()
    ensures !HasUrl("x")
  {
  }

  function SendOf(id: string, clientId: string): Event {
    DoSend("c", "a", clientId, "x", None, id, ["a", "b"], SendTimes(0, FillTimes(0, 0)))
  }

  lemma OneSent()
    ensures Reachable(Chat(map["m1" := FIRST], map[], LISTED))
  {
    Started();
    NoLink();
    var w := Chat(map[], map[], EMPTY);
    assert IsMember(w, "c", "a");
    Reaches(w, SendOf("m1", "k1"));
    assert SendJobs("m1", "c", "a", "x", ["a", "b"]) == [];
    assert Step(w, SendOf("m1", "k1")) == Chat(map["m1" := FIRST], map[], LISTED);
  }

  /** The second message is sent in the millisecond of the first. */
  lemma SecondSent()
    ensures Enabled(Chat(map["m1" := FIRST], map[], LISTED), SendOf("m2", "k2"))
    ensures Step(Chat(map["m1" := FIRST], map[], LISTED), SendOf("m2", "k2")) == Chat(map["m1" := FIRST, "m2" := SECOND], map[], LISTED)
  {
    NoLink();
    var w := Chat(map["m1" := FIRST], map[], LISTED);
    assert IsMember(w, "c", "a");
    assert SendJobs("m2", "c", "a", "x", ["a", "b"]) == [];
  }

  // ------------------------------------------------------------ what fails

  /** A late "delivered" takes the shown status back from READ. */
  lemma ShownStatusFalls() returns (w: World, e: Event)
    ensures Reachable(w) && Enabled(w, e) && e == DoSetStatus("m1", "b", Delivered, 0)
    ensures Aggregate(w.receipts, "m1") == Read && Aggregate(Step(w, e).receipts, "m1") == Delivered
  {
    OneSent();
    var w0 := Chat(map["m1" := FIRST], map[], LISTED);
    Reaches(w0, DoSetStatus("m1", "b", Read, 0));
    w, e := Step(w0, DoSetStatus("m1", "b", Read, 0)), DoSetStatus("m1", "b", Delivered, 0);
    assert HasStatus(w.receipts, "m1", "b", Read);
    assert HasStatus(Step(w, e).receipts, "m1", "b", Delivered);
  }

  const TIED := Chat(map["m1" := FIRST, "m2" := SECOND], map[], LISTED)
  const FULL_PAGE := HistoryPage(["m1"], Some(0), true)
  const EMPTY_PAGE := HistoryPage([], None, false)

  lemma TiedRows()
    ensures HistoryRows(TIED, "c", None) == map["m1" := 0, "m2" := 0]
  {
  }

  lemma TiedPages()
    ensures IsPage(TIED, "c", None, None, 1, FULL_PAGE) && IsPage(TIED, "c", Some(0), None, 1, EMPTY_PAGE)
  {
    TiedRows();
    var rows := HistoryRows(TIED, "c", None);
    assert "m2" in rows && K.Beyond(rows["m2"], None) && "m2" !in ["m1"];
    assert K.Answers(rows, None, 1, ["m1"]);
    assert K.Answers(rows, Some(0), 1, []) && K.Complete(rows, Some(0), []);
  }

  /** Of two messages of the same millisecond, pages of one message lose the second. */
  lemma HistoryLosesTie() returns (w: World, pages: seq<HistoryPage>)
    ensures Reachable(w) && HistoryChain(w, w, "c", None, None, 1, pages) && IsFinished(pages)
    ensures "m2" in HistoryRows(w, "c", None) && "m2" !in Items(pages)
  {
    OneSent();
    SecondSent();
    Reaches(Chat(map["m1" := FIRST], map[], LISTED), SendOf("m2", "k2"));
    w, pages := TIED, [FULL_PAGE, EMPTY_PAGE];
    TiedRows();
    TiedPages();
    assert CanRun(w, []) && Run(w, []) == w;
    assert Later(w, w);
    assert pages[1..] == [EMPTY_PAGE] && [EMPTY_PAGE][1..] == [];
    assert HistoryChain(w, w, "c", None, Some(0), 1, [EMPTY_PAGE]);
    assert Items([EMPTY_PAGE]) == [];
    assert Items(pages) == ["m1"] + Items([EMPTY_PAGE]) == ["m1"];
  }

  const ALONE := Chat(map["m1" := FIRST], map[], LISTED)

  lemma SyncTies()
    ensures SyncRows(ALONE, {"c"}) == map["m1" := 0] && SyncRows(TIED, {"c"}) == map["m1" := 0, "m2" := 0]
  {
  }

  /** A client that holds everything up to 0 and syncs after 0 misses a message sent in that millisecond. */
  lemma SyncLosesTie() returns (w: World, v: World, held: seq<string>, ids: seq<string>)
    ensures Reachable(w) && Reachable(v) && Extends(w, v) && w.now == 0
    ensures forall m :: m in held <==> m in SyncRows(w, {"c"}) && w.messages[m].sentAt <= 0
    ensures SyncAnswers(v, {"c"}, 0, None, ids) && !IsLog(v, {"c"}, held + ids)
  {
    OneSent();
    SecondSent();
    SyncTies();
    w, v, held, ids := ALONE, TIED, ["m1"], [];
    Reaches(w, SendOf("m2", "k2"));
    assert "m2" in SyncRows(v, {"c"}) && "m2" !in held + ids;
  }

  /** A search that has gone out of date leads to a second direct conversation of the same two users. */
  lemma StaleSearchMakesTwo() returns (w: World, v: World)
    ensures Reachable(w) && Create(w, Direct, ["b"], "a", None, "d", 0) == (v, Ok("d"))
    ensures IsDirectBetween(v, "c", "a", "b") && IsDirectBetween(v, "d", "a", "b")
  {
    Started();
    w := Chat(map[], map[], EMPTY);
    var ids := Dedup(["a"] + ["b"]);
    assert forall x :: x in ids <==> x in ["a"] + ["b"];
    v := Create(w, Direct, ["b"], "a", None, "d", 0).0;
    assert IsMember(v, "c", "a") && IsMember(v, "c", "b") && IsMember(v, "d", "a") && IsMember(v, "d", "b");
  }

  // ------------------------------------------------------ a group of three

  const THREE := {"a", "b", "d"}
  const LEFT := map["a" := Membership(Admin, None), "b" := Membership(Member, None)]

  /** Users "a", "b" and "d" with the group "g" that "a" founded. */
  function Club(members: map<string, Membership>, messages: map<string, Message>, cache: Store, jobs: seq<Job>): World {
    World(0, THREE, map["g" := Conversation(Group, members)], messages, map[], cache, jobs)
  }

  const FOUNDED := LEFT["d" := Membership(Member, None)]
  const IDS := ["a", "b", "d"]
  const CLUB_LISTED := Put(EMPTY, MessageParticipants("g"), Ids(IDS), Some(PARTICIPANTS_TTL), 0)
  const NOTE := NewMessage("g", "a", "k1", "x", 0)

  lemma ThreeSignedUp()
    ensures Reachable(World(0, THREE, map[], map[], map[], EMPTY, []))
  {
    SignedUp();
    var w := World(0, TWO, map[], map[], map[], EMPTY, []);
    Reaches(w, DoSignUp("d", 0));
    assert TWO + {"d"} == THREE;
  }

  lemma ClubMembers()
    ensures NewMembers(Group, IDS, "a") == FOUNDED && (forall u :: u in IDS ==> u in THREE)
  {
  }

  lemma ClubCreated()
    ensures var w := World(0, THREE, map[], map[], map[], EMPTY, []);
      Create(w, Group, ["b", "d"], "a", None, "g", 0).0 == Club(FOUNDED, map[], EMPTY, [InitialKeys("g", IDS)])
  {
    ThreeIds();
    ClubMembers();
    var w := World(0, THREE, map[], map[], map[], EMPTY, []);
    assert CreateError(w, Group, ["b", "d"], "a") == None;
    assert w.jobs + [InitialKeys("g", IDS)] == [InitialKeys("g", IDS)];
    assert w.conversations["g" := Conversation(Group, FOUNDED)] == map["g" := Conversation(Group, FOUNDED)];
  }

  lemma ClubFounded()
    ensures Reachable(Club(FOUNDED, map[], EMPTY, [InitialKeys("g", IDS)]))
  {
    ThreeSignedUp();
    ClubCreated();
    Reaches(World(0, THREE, map[], map[], map[], EMPTY, []), DoCreate(Group, ["b", "d"], "a", None, "g", 0));
  }

  lemma ThreeIds()
    ensures Dedup(["a"] + ["b", "d"]) == IDS
  {
    var ids := ["a"] + ["b", "d"];
    assert ids[..2] == ["a", "b"] && ids[..2][..1] == ["a"] && ids[..2][..1][..0] == [];
    assert Dedup(["a"]) == ["a"];
    assert Dedup(["a", "b"]) == ["a", "b"];
  }

  function ClubSend(id: string, clientId: string): Event {
    DoSend("g", "a", clientId, "x", None, id, IDS, SendTimes(0, FillTimes(0, 0)))
  }

  /** The jobs before the removal, and the removal's own. */
  const CLUB_JOBS := [InitialKeys("g", IDS), Fanout("m1", "g", "a", ["b", "d"])]
  const NOW_JOBS := [InitialKeys("g", IDS), Fanout("m1", "g", "a", ["b", "d"]), MemberRemoved("g", "d")]

  lemma WithoutSender()
    ensures Without(IDS, "a") == ["b", "d"]
  {
    assert IDS[1..] == ["b", "d"] && ["b", "d"][1..] == ["d"] && ["d"][1..] == [];
    assert Without(["d"], "a") == ["d"];
    assert Without(["b", "d"], "a") == ["b", "d"];
  }

  lemma ClubSends()
    ensures SendJobs("m1", "g", "a", "x", IDS) == [Fanout("m1", "g", "a", ["b", "d"])]
    ensures SendJobs("m2", "g", "a", "x", IDS) == [Fanout("m2", "g", "a", ["b", "d"])]
  {
    NoLink();
    WithoutSender();
  }

  lemma ClubCanWrite()
    ensures Enabled(Club(FOUNDED, map[], EMPTY, [InitialKeys("g", IDS)]), ClubSend("m1", "k1"))
    ensures IsMember(Club(FOUNDED, map[], EMPTY, [InitialKeys("g", IDS)]), "g", "a")
  {
    assert MemberIds(Club(FOUNDED, map[], EMPTY, [InitialKeys("g", IDS)]), "g") == THREE;
  }

  lemma ClubWrote()
    ensures Reachable(Club(FOUNDED, map["m1" := NOTE], CLUB_LISTED, CLUB_JOBS))
  {
    var w := Club(FOUNDED, map[], EMPTY, [InitialKeys("g", IDS)]);
    ClubFounded();
    ClubCanWrite();
    Reaches(w, ClubSend("m1", "k1"));
    ClubSends();
    assert w.jobs + [Fanout("m1", "g", "a", ["b", "d"])] == CLUB_JOBS;
    assert Step(w, ClubSend("m1", "k1")) == Club(FOUNDED, map["m1" := NOTE], CLUB_LISTED, CLUB_JOBS);
  }

  lemma ClubShrank()
    ensures Reachable(Club(LEFT, map["m1" := NOTE], CLUB_LISTED, NOW_JOBS))
  {
    ClubWrote();
    var w, e := Club(FOUNDED, map["m1" := NOTE], CLUB_LISTED, CLUB_JOBS), DoRemove("g", "d", "a", 0);
    Reaches(w, e);
    assert FOUNDED - {"d"} == LEFT;
    assert CLUB_JOBS + [MemberRemoved("g", "d")] == NOW_JOBS;
    assert Remove(CLUB_LISTED, ServiceParticipants("g")) == CLUB_LISTED;
    assert Step(w, e) == Club(LEFT, map["m1" := NOTE], CLUB_LISTED, NOW_JOBS);
  }

  /** "d" is removed, by a request that is finished, and still is among the recipients of the next message. */
  lemma FormerMemberReceives() returns (w: World, e: Event, j: Job)
    ensures Reachable(w) && Enabled(w, e) && e.DoSend? && e.c == "g" && Step(w, e).jobs == w.jobs + [j]
    ensures MemberIds(w, "g") == {"a", "b"} && j.Fanout?
    ensures "d" in j.recipientIds
  {
    ClubShrank();
    ClubSends();
    w, j := Club(LEFT, map["m1" := NOTE], CLUB_LISTED, NOW_JOBS), Fanout("m2", "g", "a", ["b", "d"]);
    e := DoSend("g", "a", "k2", "x", None, "m2", ["a", "b"], SendTimes(0, FillTimes(0, 0)));
    assert IsMember(w, "g", "a");
  }
}
