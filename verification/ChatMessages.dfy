/** Messages over runs: tombstones, the edit window, idempotent sends and the delivery jobs. */
module ChatMessages {
  import opened Prelude
  import opened Cache
  import opened ChatModel

  // ------------------------------------------------------------ invariants

  /** A row is deleted exactly when its text is gone and its deletion time is set. */
  ghost predicate RowSound(m: Message, now: int) {
    && (m.isDeleted <==> m.ciphertext.None?)
    && (m.isDeleted <==> m.deletedAt.Some?)
    && (m.isEdited <==> m.editedAt.Some?)
    && m.sentAt <= now
  }

  ghost predicate ClientIdsUnique(w: World) {
    forall m, n :: m in w.messages && n in w.messages && w.messages[m].clientId == w.messages[n].clientId ==> m == n
  }

  ghost predicate JobSound(w: World, j: Job) {
    && (j.Fanout? ==>
          && j.messageId in w.messages
          && w.messages[j.messageId].conversationId == j.conversationId
          && w.messages[j.messageId].senderId == j.senderId
          && j.senderId !in j.recipientIds)
    && (j.LinkPreview? ==>
          j.messageId in w.messages && w.messages[j.messageId].conversationId == j.conversationId)
  }

  predicate IsDelivery(j: Job) {
    j.Fanout? || j.LinkPreview?
  }

  /** Two delivery jobs of the same kind for the same message. */
  predicate SameDelivery(i: Job, j: Job) {
    || (i.Fanout? && j.Fanout? && i.messageId == j.messageId)
    || (i.LinkPreview? && j.LinkPreview? && i.messageId == j.messageId)
  }

  ghost predicate JobsSound(w: World) {
    && (forall j :: j in w.jobs ==> JobSound(w, j))
    && (forall i, k :: 0 <= i < k < |w.jobs| ==> !SameDelivery(w.jobs[i], w.jobs[k]))
  }

  ghost predicate MessageInv(w: World) {
    && (forall m :: m in w.messages ==> RowSound(w.messages[m], w.now))
    && ClientIdsUnique(w)
    && JobsSound(w)
  }

  // ------------------------------------------------------------------ steps

  /** Nothing happens to messages, and no delivery job is written. */
  lemma QuietKeeps(w: World, v: World, more: seq<Job>)
    requires MessageInv(w) && w.now <= v.now && v.messages == w.messages && v.jobs == w.jobs + more
    requires forall j :: j in more ==> !IsDelivery(j)
    ensures MessageInv(v)
  {
    forall j | j in v.jobs
      ensures JobSound(v, j)
    {
      assert j in w.jobs ==> JobSound(w, j);
      assert j in more ==> !IsDelivery(j);
    }
    forall i, k | 0 <= i < k < |v.jobs|
      ensures !SameDelivery(v.jobs[i], v.jobs[k])
    {
      if k >= |w.jobs| {
        assert v.jobs[k] in more && !IsDelivery(v.jobs[k]);
      }
    }
  }

  /** One row is rewritten with its conversation, sender, client id and time unchanged. */
  lemma RewriteKeeps(w: World, v: World, m: string, row: Message)
    requires MessageInv(w) && w.now <= v.now && m in w.messages && v.jobs == w.jobs
    requires v.messages == w.messages[m := row] && RowSound(row, v.now)
    requires SameIdentity(w.messages[m], row)
    ensures MessageInv(v)
  {
    forall j | j in v.jobs
      ensures JobSound(v, j)
    {
      assert JobSound(w, j);
    }
  }

  ghost predicate SameIdentity(a: Message, b: Message) {
    a.conversationId == b.conversationId && a.senderId == b.senderId && a.clientId == b.clientId && a.sentAt == b.sentAt
  }

  lemma SendJobsSound(v: World, m: string, c: string, sender: string, text: string, ids: seq<string>)
    requires m in v.messages && v.messages[m].conversationId == c && v.messages[m].senderId == sender
    ensures var more := SendJobs(m, c, sender, text, ids);
      && (forall j :: j in more ==> JobSound(v, j) && IsDelivery(j) && j.messageId == m)
      && (forall i, k :: 0 <= i < k < |more| ==> !SameDelivery(more[i], more[k]))
  {
  }

  lemma NewRowKeeps(w: World, v: World, m: string, row: Message, text: string, ids: seq<string>)
    requires MessageInv(w) && w.now <= v.now && m !in w.messages
    requires v.messages == w.messages[m := row] && RowSound(row, v.now)
    requires forall n :: n in w.messages ==> w.messages[n].clientId != row.clientId
    requires v.jobs == w.jobs + SendJobs(m, row.conversationId, row.senderId, text, ids)
    ensures MessageInv(v)
  {
    var more := SendJobs(m, row.conversationId, row.senderId, text, ids);
    SendJobsSound(v, m, row.conversationId, row.senderId, text, ids);
    forall j | j in v.jobs
      ensures JobSound(v, j)
    {
      assert j in w.jobs ==> JobSound(w, j);
    }
    forall i, k | 0 <= i < k < |v.jobs|
      ensures !SameDelivery(v.jobs[i], v.jobs[k])
    {
      if i < |w.jobs| {
        assert v.jobs[i] == w.jobs[i] && JobSound(w, w.jobs[i]);
        if k >= |w.jobs| {
          assert v.jobs[k] == more[k - |w.jobs|] && more[k - |w.jobs|] in more;
        }
      } else {
        assert v.jobs[i] == more[i - |w.jobs|] && v.jobs[k] == more[k - |w.jobs|];
      }
    }
  }

  lemma SendKeeps(w: World, e: Event)
    requires MessageInv(w) && Enabled(w, e) && e.DoSend?
    ensures MessageInv(Step(w, e))
  {
    var r := Send(w, e.c, e.me, e.clientId, e.text, e.existing, e.id, e.answer, e.sat);
    if r.1.Ok? && e.existing.None? {
      NewRowKeeps(w, r.0, e.id, NewMessage(e.c, e.me, e.clientId, e.text, e.sat.sent), e.text,
                  CachedIds(w.cache, MessageParticipants(e.c), e.answer, e.sat.ids).1);
    } else {
      QuietKeeps(w, r.0, []);
    }
  }

  lemma EditKeeps(w: World, m: string, me: string, text: string, at: EditTimes)
    requires MessageInv(w) && w.now <= at.edited
    ensures MessageInv(Edit(w, m, me, text, at).0)
  {
    var r := Edit(w, m, me, text, at);
    if r.1.Ok? {
      RewriteKeeps(w, r.0, m, EditRow(w.messages[m], text, at.edited));
    } else {
      QuietKeeps(w, r.0, []);
    }
  }

  lemma DeleteKeeps(w: World, m: string, me: string, t: int)
    requires MessageInv(w) && w.now <= t
    ensures MessageInv(Delete(w, m, me, t).0)
  {
    var r := Delete(w, m, me, t);
    if r.0.messages == w.messages {
      QuietKeeps(w, r.0, []);
    } else {
      RewriteKeeps(w, r.0, m, Tombstone(w.messages[m], t));
    }
  }

  /** A membership request writes at most one job, and no delivery job. */
  lemma MembershipKeeps(w: World, e: Event)
    requires MessageInv(w) && Enabled(w, e) && (e.DoCreate? || e.DoAdd? || e.DoRemove?)
    ensures MessageInv(Step(w, e))
  {
    var v := Step(w, e);
    if v.jobs == w.jobs {
      QuietKeeps(w, v, []);
    } else {
      assert v.jobs == w.jobs + [v.jobs[|w.jobs|]];
      QuietKeeps(w, v, [v.jobs[|w.jobs|]]);
    }
  }

  lemma StepKeeps(w: World, e: Event)
    requires MessageInv(w) && Enabled(w, e)
    ensures MessageInv(Step(w, e))
  {
    match e
    case DoCreate(_, _, _, _, _, _) => MembershipKeeps(w, e);
    case DoAdd(_, _, _, _, _) => MembershipKeeps(w, e);
    case DoRemove(_, _, _, _) => MembershipKeeps(w, e);
    case DoSend(_, _, _, _, _, _, _, _) => SendKeeps(w, e);
    case DoEdit(m, me, text, at) => EditKeeps(w, m, me, text, at);
    case DoDelete(m, me, t) => DeleteKeeps(w, m, me, t);
    case _ => QuietKeeps(w, Step(w, e), []);
  }

  lemma {:induction false} RunKeeps(w: World, es: seq<Event>)
    requires MessageInv(w) && CanRun(w, es)
    ensures MessageInv(Run(w, es)) && w.now <= Run(w, es).now
    decreases |es|
  {
    if es != [] {
      StepKeeps(w, es[0]);
      RunKeeps(Step(w, es[0]), es[1..]);
    }
  }

  // ------------------------------------------------- who may change a row

  /**
   What one step may do to a stored row: nothing, an edit by its sender of a row
   that is not deleted, checked at most fifteen minutes after it was sent, or
   the deletion by its sender of a row that is not deleted. A new row is one its
   sender, then a member, just sent.
   */
  lemma RowChanges(w: World, e: Event, m: string)
    requires Enabled(w, e) && m in Step(w, e).messages
    ensures var row := Step(w, e).messages[m];
      if m !in w.messages then
        && e.DoSend? && e.id == m && IsMember(w, e.c, e.me) && e.existing.None?
        && row.conversationId == e.c && row.senderId == e.me && row.clientId == e.clientId && row.sentAt == e.sat.sent
        && row.ciphertext == Some(e.text) && !row.isEdited && row.editedAt == None && !row.isDeleted && row.deletedAt == None
      else
        || row == w.messages[m]
        || (&& e.DoEdit? && e.m == m && e.me == row.senderId && !w.messages[m].isDeleted
            && e.eat.check - row.sentAt <= 15 * 60 * 1000
            && row == w.messages[m].(ciphertext := Some(e.text), isEdited := true, editedAt := Some(e.eat.edited)))
        || (&& e.DoDelete? && e.m == m && e.me == row.senderId && !w.messages[m].isDeleted
            && row == w.messages[m].(ciphertext := None, isDeleted := true, deletedAt := Some(e.t)))
  {
  }

  lemma RowsStay(w: World, e: Event)
    requires Enabled(w, e)
    ensures w.messages.Keys <= Step(w, e).messages.Keys
  {
  }

  /** What time does to a row: its identity never changes and a tombstone never changes at all. */
  ghost predicate Endures(a: Message, b: Message) {
    SameIdentity(a, b) && (a.isDeleted ==> b == a)
  }

  /** Over any run rows never disappear, their identity is fixed, and a deleted row stays as it is for ever. */
  lemma {:induction false} TombstonesAreAbsorbing(w: World, es: seq<Event>, m: string)
    requires CanRun(w, es) && m in w.messages
    ensures m in Run(w, es).messages && Endures(w.messages[m], Run(w, es).messages[m])
    decreases |es|
  {
    if es != [] {
      RowsStay(w, es[0]);
      RowChanges(w, es[0], m);
      TombstonesAreAbsorbing(Step(w, es[0]), es[1..], m);
    }
  }

  /** In every reachable state a row is deleted exactly when its text is gone, exactly when its deletion time is set. */
  lemma DeletedIsNoText(es: seq<Event>, m: string)
    requires CanRun(INITIAL, es) && m in Run(INITIAL, es).messages
    ensures var row := Run(INITIAL, es).messages[m];
      && (row.isDeleted <==> row.ciphertext.None?)
      && (row.isDeleted <==> row.deletedAt.Some?)
      && (row.isEdited <==> row.editedAt.Some?)
  {
    RunKeeps(INITIAL, es);
  }

  /**
   Edits check and write in two queries. A write whose check has passed keeps
   the row sound exactly when the row has not been deleted in between.
   */
  lemma LateEditExact(w: World, m: string, text: string, t: int)
    requires MessageInv(w) && m in w.messages && w.now <= t
    ensures RowSound(EditRow(w.messages[m], text, t), t) <==> !w.messages[m].isDeleted
  {
  }

  // -------------------------------------------------------- idempotent send

  /** A retry as it is allowed to find the world: the row is there and nothing but the clock moves. */
  lemma RetryIsIdempotent(w: World, e: Event, es: seq<Event>, retry: Event)
    requires MessageInv(w) && Enabled(w, e) && e.DoSend?
    requires Send(w, e.c, e.me, e.clientId, e.text, e.existing, e.id, e.answer, e.sat).1.Ok?
    requires CanRun(Step(w, e), es) && Enabled(Run(Step(w, e), es), retry) && retry.DoSend? && retry.clientId == e.clientId
    ensures var stored := Send(w, e.c, e.me, e.clientId, e.text, e.existing, e.id, e.answer, e.sat).1.value;
      var v := Run(Step(w, e), es);
      var r := Send(v, retry.c, retry.me, retry.clientId, retry.text, retry.existing, retry.id, retry.answer, retry.sat);
      && r.0 == v.(now := r.0.now)
      && r.1 == (if IsMember(v, retry.c, retry.me) then Ok(stored) else Err(NotAParticipant))
  {
    var u := Step(w, e);
    var stored := Send(w, e.c, e.me, e.clientId, e.text, e.existing, e.id, e.answer, e.sat).1.value;
    assert stored in u.messages && u.messages[stored].clientId == e.clientId;
    StepKeeps(w, e);
    RunKeeps(u, es);
    TombstonesAreAbsorbing(u, es, stored);
    assert retry.existing == Some(stored);
  }

  /**
   However often a message is sent again, there is one row for its client id,
   at most one fan-out job and at most one link-preview job for that row, and
   the sender is never among the recipients.
   */
  lemma OneRowAndOneDelivery(es: seq<Event>, m: string, n: string, i: nat, k: nat)
    requires CanRun(INITIAL, es) && m in Run(INITIAL, es).messages && n in Run(INITIAL, es).messages
    requires i < |Run(INITIAL, es).jobs| && k < |Run(INITIAL, es).jobs|
    ensures var w := Run(INITIAL, es);
      && (w.messages[m].clientId == w.messages[n].clientId ==> m == n)
      && (SameDelivery(w.jobs[i], w.jobs[k]) ==> i == k)
      && (w.jobs[i].Fanout? ==>
            && w.jobs[i].messageId in w.messages
            && w.messages[w.jobs[i].messageId].senderId == w.jobs[i].senderId
            && w.jobs[i].senderId !in w.jobs[i].recipientIds)
  {
    RunKeeps(INITIAL, es);
    var w := Run(INITIAL, es);
    assert JobSound(w, w.jobs[i]);
    assert SameDelivery(w.jobs[i], w.jobs[k]) ==> SameDelivery(w.jobs[k], w.jobs[i]);
  }

  /** What a send adds to the queue for a list of participants. */
  lemma SendJobsExact(m: string, c: string, sender: string, text: string, ids: seq<string>)
    ensures var jobs := SendJobs(m, c, sender, text, ids);
      && ((exists j :: j in jobs && j.Fanout?) <==> |ids| >= 3)
      && ((exists j :: j in jobs && j.LinkPreview?) <==> HasUrl(text))
      && (forall j :: j in jobs && j.Fanout? ==> j.messageId == m && forall u :: u in j.recipientIds <==> u in ids && u != sender)
  {
    var jobs := SendJobs(m, c, sender, text, ids);
    if |ids| >= 3 { assert jobs[0] in jobs && jobs[0].Fanout?; }
    if HasUrl(text) { assert jobs[|jobs| - 1] in jobs && jobs[|jobs| - 1].LinkPreview?; }
  }

  // ------------------------------------------------------------- history

  /** What happened to one message: it was sent, edited or deleted. */
  datatype Change =
    | WasSent(text: string)
    | WasEdited(text: string, t: int)
    | WasDeleted(t: int)

  /** The change of one request, told by the rows it finds. */
  ghost function ChangesOf(w: World, e: Event, m: string): seq<Change> {
    if m !in w.messages then
      if e.DoSend? && e.id == m && IsMember(w, e.c, e.me) && e.existing.None? then [WasSent(e.text)] else []
    else if e.DoEdit? && e.m == m && w.messages[m].senderId == e.me && !w.messages[m].isDeleted
            && e.eat.check - w.messages[m].sentAt <= 15 * 60 * 1000
    then [WasEdited(e.text, e.eat.edited)]
    else if e.DoDelete? && e.m == m && w.messages[m].senderId == e.me then [WasDeleted(e.t)]
    else []
  }

  /** All changes of one message in a run, in order. */
  ghost function ChangesIn(w: World, es: seq<Event>, m: string): seq<Change>
    decreases |es|
  {
    if es == [] then [] else ChangesOf(w, es[0], m) + ChangesIn(Step(w, es[0]), es[1..], m)
  }

  /** The text last written. */
  ghost function LastText(log: seq<Change>): Option<string> {
    if log == [] then None
    else
      match log[|log| - 1]
      case WasSent(text) => Some(text)
      case WasEdited(text, _) => Some(text)
      case WasDeleted(_) => LastText(log[..|log| - 1])
  }

  ghost function LastEdit(log: seq<Change>): Option<int> {
    if log == [] then None
    else if log[|log| - 1].WasEdited? then Some(log[|log| - 1].t)
    else LastEdit(log[..|log| - 1])
  }

  ghost function FirstDeletion(log: seq<Change>): Option<int> {
    if log == [] then None
    else
      var before := FirstDeletion(log[..|log| - 1]);
      if before.None? && log[|log| - 1].WasDeleted? then Some(log[|log| - 1].t) else before
  }

  /**
   What a row says about the changes of its message: the text last written unless it
   was ever deleted, the time of the last edit and that of the first deletion.
   */
  ghost predicate Tells(w: World, m: string, log: seq<Change>) {
    if log == [] then m !in w.messages
    else
      && m in w.messages
      && var row := w.messages[m];
      && LastText(log).Some?
      && row.ciphertext == (if FirstDeletion(log).Some? then None else LastText(log))
      && row.isDeleted == FirstDeletion(log).Some? && row.deletedAt == FirstDeletion(log)
      && row.isEdited == LastEdit(log).Some? && row.editedAt == LastEdit(log)
  }

  lemma ChangeTold(w: World, v: World, m: string, log: seq<Change>, x: Change)
    requires Tells(w, m, log) && m in v.messages && (x.WasSent? <==> log == []) && (x.WasEdited? ==> !w.messages[m].isDeleted)
    requires match x
      case WasSent(text) =>
        var row := v.messages[m];
        row.ciphertext == Some(text) && !row.isEdited && row.editedAt == None && !row.isDeleted && row.deletedAt == None
      case WasEdited(text, t) => v.messages[m] == w.messages[m].(ciphertext := Some(text), isEdited := true, editedAt := Some(t))
      case WasDeleted(t) =>
        v.messages[m] == if w.messages[m].isDeleted then w.messages[m]
                         else w.messages[m].(ciphertext := None, isDeleted := true, deletedAt := Some(t))
    ensures Tells(v, m, log + [x])
  {
    assert (log + [x])[..|log|] == log;
  }

  lemma StepTells(w: World, e: Event, m: string, log: seq<Change>)
    requires Enabled(w, e) && Tells(w, m, log)
    ensures Tells(Step(w, e), m, log + ChangesOf(w, e, m))
  {
    if ChangesOf(w, e, m) == [] {
      assert log + [] == log;
      NothingChanges(w, e, m);
    } else {
      ChangeTold(w, Step(w, e), m, log, ChangesOf(w, e, m)[0]);
    }
  }

  lemma NothingChanges(w: World, e: Event, m: string)
    requires Enabled(w, e) && ChangesOf(w, e, m) == []
    ensures m in Step(w, e).messages <==> m in w.messages
    ensures m in w.messages ==> Step(w, e).messages[m] == w.messages[m]
  {
  }

  lemma Regroup(a: seq<Change>, b: seq<Change>, c: seq<Change>)
    ensures (a + b) + c == a + (b + c)
  {
  }

  /**
   A row is the summary of all that happened to its message: its text is that of the
   last edit that was let through, else that of the send, and none once a deletion was
   let through; its times are those of the last edit and the first deletion.
   */
  lemma {:induction false} MessageIsItsHistory(w: World, es: seq<Event>, m: string, log: seq<Change>)
    requires CanRun(w, es) && Tells(w, m, log)
    ensures Tells(Run(w, es), m, log + ChangesIn(w, es, m))
    decreases |es|
  {
    if es == [] {
      assert log + [] == log;
    } else {
      var v, now := Step(w, es[0]), ChangesOf(w, es[0], m);
      StepTells(w, es[0], m, log);
      MessageIsItsHistory(v, es[1..], m, log + now);
      Regroup(log, now, ChangesIn(v, es[1..], m));
    }
  }
}
