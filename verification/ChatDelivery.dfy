/**
 Who receives the fan-out of a message: the members when the list that delivery
 caches was last stored, which no membership change ever touches.
 */
module ChatDelivery {
  import opened Prelude
  import opened Cache
  import opened ChatModel
  import opened ChatMessages

  /** The members when the list of a conversation was last stored for delivery, and the instant. */
  datatype Storing = Storing(members: set<string>, at: int)

  /** A live list is found. */
  ghost predicate IsWarm(w: World, c: string, t: int) {
    var hit := Lookup(w.cache, MessageParticipants(c), t);
    hit.Some? && hit.value.Ids?
  }

  /** A send that stores a message. */
  ghost predicate StoresMessage(w: World, e: Event) {
    e.DoSend? && IsMember(w, e.c, e.me) && e.existing.None?
  }

  /** A send that stores a message and, finding no live list, the list it reads. */
  ghost predicate StoresList(w: World, e: Event) {
    StoresMessage(w, e) && !IsWarm(w, e.c, e.sat.ids.lookup)
  }

  ghost function Noted(w: World, s: map<string, Storing>, e: Event): map<string, Storing> {
    if StoresList(w, e) then s[e.c := Storing(MemberIds(w, e.c), e.sat.ids.fill)] else s
  }

  /** The storings of a run, the last for each conversation. */
  ghost function StoringsOf(w: World, s: map<string, Storing>, es: seq<Event>): map<string, Storing>
    decreases |es|
  {
    if es == [] then s else StoringsOf(Step(w, es[0]), Noted(w, s, es[0]), es[1..])
  }

  /** Every list cached for delivery is the membership of its last storing, for 300 seconds from then. */
  ghost predicate ListsAreStorings(w: World, s: map<string, Storing>) {
    forall c :: c in w.cache.messageParticipants ==>
      && c in s && s[c].at <= w.now
      && w.cache.messageParticipants[c].value.Ids?
      && Lists(w.cache.messageParticipants[c].value.ids, s[c].members)
      && w.cache.messageParticipants[c].deadline == At(s[c].at + 300 * 1000)
  }

  lemma SendKeepsLists(w: World, s: map<string, Storing>, e: Event)
    requires ListsAreStorings(w, s) && Enabled(w, e) && e.DoSend?
    ensures ListsAreStorings(Step(w, e), Noted(w, s, e))
  {
  }

  /** No other request writes or deletes a list of the delivery cache. */
  lemma OthersKeepLists(w: World, e: Event)
    requires Enabled(w, e) && !e.DoSend?
    ensures Step(w, e).cache.messageParticipants == w.cache.messageParticipants && w.now <= Step(w, e).now
  {
  }

  lemma {:induction false} RunKeepsLists(w: World, s: map<string, Storing>, es: seq<Event>)
    requires ListsAreStorings(w, s) && CanRun(w, es)
    ensures ListsAreStorings(Run(w, es), StoringsOf(w, s, es))
    decreases |es|
  {
    if es != [] {
      if es[0].DoSend? {
        SendKeepsLists(w, s, es[0]);
      } else {
        OthersKeepLists(w, es[0]);
      }
      RunKeepsLists(Step(w, es[0]), Noted(w, s, es[0]), es[1..]);
    }
  }

  /** Who a message is delivered to: the members of the last storing while its list lives, else the members. */
  ghost function Audience(w: World, s: map<string, Storing>, c: string, t: int): set<string> {
    if IsWarm(w, c, t) && c in s then s[c].members else MemberIds(w, c)
  }

  lemma ServedIsAudience(w: World, s: map<string, Storing>, e: Event)
    requires ListsAreStorings(w, s) && Enabled(w, e) && e.DoSend?
    ensures var ids := CachedIds(w.cache, MessageParticipants(e.c), e.answer, e.sat.ids).1;
      Lists(ids, Audience(w, s, e.c, e.sat.ids.lookup))
  {
  }

  /** What the jobs `more` of one message deliver, and to whom. */
  ghost predicate Delivers(more: seq<Job>, m: string, audience: set<string>, sender: string, text: string) {
    && ((exists j :: j in more && j.Fanout?) <==> |audience| >= 3)
    && ((exists j :: j in more && j.LinkPreview?) <==> HasUrl(text))
    && (forall j :: j in more && j.Fanout? ==>
          j.messageId == m && forall u :: u in j.recipientIds <==> u in audience && u != sender)
  }

  lemma SendDelivers(w: World, s: map<string, Storing>, e: Event, more: seq<Job>)
    requires ListsAreStorings(w, s) && Enabled(w, e) && StoresMessage(w, e) && Step(w, e).jobs == w.jobs + more
    ensures Delivers(more, e.id, Audience(w, s, e.c, e.sat.ids.lookup), e.me, e.text)
  {
    var ids := CachedIds(w.cache, MessageParticipants(e.c), e.answer, e.sat.ids).1;
    var jobs := SendJobs(e.id, e.c, e.me, e.text, ids);
    assert more == (w.jobs + more)[|w.jobs|..] == (w.jobs + jobs)[|w.jobs|..] == jobs;
    ServedIsAudience(w, s, e);
    DistinctCount(ids, Audience(w, s, e.c, e.sat.ids.lookup));
    SendJobsExact(e.id, e.c, e.me, e.text, ids);
  }

  /** The recipients of a fan-out are exactly the members other than the sender. */
  ghost predicate ReachesMembers(w: World, j: Job, c: string, sender: string)
    requires j.Fanout?
  {
    forall u :: u in j.recipientIds <==> u in MemberIds(w, c) && u != sender
  }

  // ---------------------------------------------------------- main results

  /**
   In every reachable state, warm cache or cold: a stored message is fanned out if and
   only if its audience has three members or more, to exactly the audience without
   the sender; and the recipients are the members if and only if nobody but the
   sender has joined or left since the audience's list was stored, at most 300
   seconds before.
   */
  lemma DeliveryExact(es: seq<Event>, e: Event, more: seq<Job>)
    requires CanRun(INITIAL, es)
    requires var w := Run(INITIAL, es); Enabled(w, e) && StoresMessage(w, e) && Step(w, e).jobs == w.jobs + more
    ensures var w, s := Run(INITIAL, es), StoringsOf(INITIAL, map[], es);
      var audience := Audience(w, s, e.c, e.sat.ids.lookup);
      && Delivers(more, e.id, audience, e.me, e.text)
      && (forall j :: j in more && j.Fanout? ==> (ReachesMembers(w, j, e.c, e.me) <==> audience + {e.me} == MemberIds(w, e.c)))
      && (IsWarm(w, e.c, e.sat.ids.lookup) ==>
            e.c in s && s[e.c].at <= e.sat.ids.lookup < s[e.c].at + 300 * 1000)
  {
    RunKeepsLists(INITIAL, map[], es);
    var w, s := Run(INITIAL, es), StoringsOf(INITIAL, map[], es);
    SendDelivers(w, s, e, more);
    forall j | j in more && j.Fanout?
      ensures ReachesMembers(w, j, e.c, e.me) <==> Audience(w, s, e.c, e.sat.ids.lookup) + {e.me} == MemberIds(w, e.c)
    {
      SameWithoutSender(w, j, e.c, e.me, Audience(w, s, e.c, e.sat.ids.lookup));
    }
  }

  lemma SameWithoutSender(w: World, j: Job, c: string, sender: string, audience: set<string>)
    requires j.Fanout? && IsMember(w, c, sender) && forall u :: u in j.recipientIds <==> u in audience && u != sender
    ensures ReachesMembers(w, j, c, sender) <==> audience + {sender} == MemberIds(w, c)
  {
    if ReachesMembers(w, j, c, sender) {
      forall u
        ensures u in audience + {sender} <==> u in MemberIds(w, c)
      {
        assert u != sender ==> (u in j.recipientIds <==> u in audience);
      }
    }
  }

  ghost predicate StoresNoList(w: World, es: seq<Event>, c: string)
    decreases |es|
  {
    es == [] || (!(StoresList(w, es[0]) && es[0].c == c) && StoresNoList(Step(w, es[0]), es[1..], c))
  }

  lemma {:induction false} StoringStays(w: World, s: map<string, Storing>, es: seq<Event>, c: string)
    requires CanRun(w, es) && StoresNoList(w, es, c) && c in s
    ensures c in StoringsOf(w, s, es) && StoringsOf(w, s, es)[c] == s[c]
    decreases |es|
  {
    if es != [] {
      StoringStays(Step(w, es[0]), Noted(w, s, es[0]), es[1..], c);
    }
  }

  /**
   One send stores the list of a conversation; after any requests that store none for
   it, a later send finds it alive. Then it is the members of the first send who
   decide and receive, whoever has joined or left: the recipients are the members if
   and only if there is no net change but of the sender.
   */
  lemma StaleExactly(w: World, s: map<string, Storing>, first: Event, es: seq<Event>, e: Event, more: seq<Job>)
    requires ListsAreStorings(w, s) && Enabled(w, first) && StoresList(w, first) && CanRun(Step(w, first), es)
    requires StoresNoList(Step(w, first), es, first.c)
    requires var v := Run(Step(w, first), es);
      && Enabled(v, e) && StoresMessage(v, e) && e.c == first.c
      && IsWarm(v, e.c, e.sat.ids.lookup) && Step(v, e).jobs == v.jobs + more
    ensures var v := Run(Step(w, first), es);
      && Delivers(more, e.id, MemberIds(w, e.c), e.me, e.text)
      && (forall j :: j in more && j.Fanout? ==>
            (ReachesMembers(v, j, e.c, e.me) <==> MemberIds(w, e.c) + {e.me} == MemberIds(v, e.c)))
  {
    var u, t := Step(w, first), Noted(w, s, first);
    SendKeepsLists(w, s, first);
    RunKeepsLists(u, t, es);
    StoringStays(u, t, es, first.c);
    var v := Run(u, es);
    SendDelivers(v, StoringsOf(u, t, es), e, more);
    forall j | j in more && j.Fanout?
      ensures ReachesMembers(v, j, e.c, e.me) <==> MemberIds(w, e.c) + {e.me} == MemberIds(v, e.c)
    {
      SameWithoutSender(v, j, e.c, e.me, MemberIds(w, e.c));
    }
  }

  /** No addition to a conversation and no removal from it succeeds. */
  ghost predicate MembersStay(w: World, es: seq<Event>, c: string)
    decreases |es|
  {
    es == [] || (MemberIds(Step(w, es[0]), c) == MemberIds(w, c) && MembersStay(Step(w, es[0]), es[1..], c))
  }

  lemma {:induction false} AudienceStays(w: World, s: map<string, Storing>, es: seq<Event>, c: string, t: int)
    requires ListsAreStorings(w, s) && CanRun(w, es) && MembersStay(w, es, c)
    requires c in w.cache.messageParticipants ==> s[c].members == MemberIds(w, c)
    ensures Audience(Run(w, es), StoringsOf(w, s, es), c, t) == MemberIds(Run(w, es), c) == MemberIds(w, c)
    decreases |es|
  {
    if es != [] {
      if es[0].DoSend? {
        SendKeepsLists(w, s, es[0]);
      } else {
        OthersKeepLists(w, es[0]);
      }
      AudienceStays(Step(w, es[0]), Noted(w, s, es[0]), es[1..], c, t);
    }
  }
}
