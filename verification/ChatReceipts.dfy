/** Delivery and read receipts over runs, and the aggregate status shown to the sender. */
module ChatReceipts {
  import opened Prelude
  import opened ChatModel

  function Rank(s: Status): nat {
    match s
    case Sent => 0
    case Delivered => 1
    case Read => 2
  }

  ghost predicate HasStatus(receipts: map<(string, string), Receipt>, m: string, u: string, s: Status) {
    (m, u) in receipts && receipts[(m, u)].status == s
  }

  /** The status a message shows: READ if anybody read it, else DELIVERED if it reached anybody, else SENT. */
  ghost function Aggregate(receipts: map<(string, string), Receipt>, m: string): Status {
    if exists u :: HasStatus(receipts, m, u, Read) then Read
    else if exists u :: HasStatus(receipts, m, u, Delivered) then Delivered
    else Sent
  }

  /** The aggregate is the maximum over the recipients: an upper bound that somebody attains. */
  lemma AggregateIsMaximum(receipts: map<(string, string), Receipt>, m: string)
    ensures forall u :: (m, u) in receipts ==> Rank(receipts[(m, u)].status) <= Rank(Aggregate(receipts, m))
    ensures Aggregate(receipts, m) == Sent || exists u :: HasStatus(receipts, m, u, Aggregate(receipts, m))
  {
    forall u | (m, u) in receipts
      ensures Rank(receipts[(m, u)].status) <= Rank(Aggregate(receipts, m))
    {
      assert HasStatus(receipts, m, u, receipts[(m, u)].status);
    }
  }

  /** At least `s` for somebody. */
  ghost predicate Reached(receipts: map<(string, string), Receipt>, m: string, s: Status) {
    s.Sent? || exists u :: (m, u) in receipts && Rank(receipts[(m, u)].status) >= Rank(s)
  }

  lemma AggregateReaches(receipts: map<(string, string), Receipt>, m: string, s: Status)
    ensures Rank(Aggregate(receipts, m)) >= Rank(s) <==> Reached(receipts, m, s)
  {
    AggregateIsMaximum(receipts, m);
  }

  // ------------------------------------------------------------ invariants

  ghost predicate ReceiptSound(r: Receipt) {
    && (r.readAt.Some? ==> r.deliveredAt.Some?)
    && (r.status.Read? ==> r.readAt.Some?)
    && (r.status.Delivered? ==> r.deliveredAt.Some?)
  }

  ghost predicate ReceiptsSound(receipts: map<(string, string), Receipt>) {
    forall k :: k in receipts ==> ReceiptSound(receipts[k])
  }

  /** No receipt disappears and no time stamp is cleared. */
  ghost predicate StampsKept(a: map<(string, string), Receipt>, b: map<(string, string), Receipt>) {
    forall k :: k in a ==>
      && k in b
      && (a[k].deliveredAt.Some? ==> b[k].deliveredAt.Some?)
      && (a[k].readAt.Some? ==> b[k].readAt.Some?)
  }

  lemma {:induction false} UpsertAllKeeps(receipts: map<(string, string), Receipt>, ms: seq<string>, u: string, s: Status, t: int)
    requires ReceiptsSound(receipts)
    ensures ReceiptsSound(UpsertAll(receipts, ms, u, s, t))
    ensures StampsKept(receipts, UpsertAll(receipts, ms, u, s, t))
    ensures forall m :: m in ms ==> HasStatus(UpsertAll(receipts, ms, u, s, t), m, u, s)
    ensures forall k :: k in receipts && (k.1 != u || k.0 !in ms) ==>
      k in UpsertAll(receipts, ms, u, s, t) && UpsertAll(receipts, ms, u, s, t)[k] == receipts[k]
  {
    if ms != [] {
      var front, last := ms[..|ms| - 1], ms[|ms| - 1];
      UpsertAllKeeps(receipts, front, u, s, t);
      assert ms == front + [last];
    }
  }

  lemma StepKeeps(w: World, e: Event)
    requires ReceiptsSound(w.receipts) && Enabled(w, e)
    ensures ReceiptsSound(Step(w, e).receipts) && StampsKept(w.receipts, Step(w, e).receipts)
  {
    if e.DoBatchRead? {
      UpsertAllKeeps(w.receipts, e.ms, e.user, Read, e.rat.batch);
    }
  }

  /** In every run "read" implies "delivered", and neither time stamp is ever cleared. */
  lemma {:induction false} ReadImpliesDelivered(w: World, es: seq<Event>)
    requires ReceiptsSound(w.receipts) && CanRun(w, es)
    ensures ReceiptsSound(Run(w, es).receipts) && StampsKept(w.receipts, Run(w, es).receipts)
    decreases |es|
  {
    if es != [] {
      StepKeeps(w, es[0]);
      ReadImpliesDelivered(Step(w, es[0]), es[1..]);
    }
  }

  // ------------------------------------------------------------- progress

  /** A status update that does not take its recipient back. */
  ghost predicate InOrder(w: World, e: Event) {
    e.DoSetStatus? && (e.m, e.user) in w.receipts ==> Rank(w.receipts[(e.m, e.user)].status) <= Rank(e.status)
  }

  ghost predicate InOrderRun(w: World, es: seq<Event>)
    decreases |es|
  {
    es == [] || (InOrder(w, es[0]) && InOrderRun(Step(w, es[0]), es[1..]))
  }

  /** No recipient goes back. */
  ghost predicate Forward(a: map<(string, string), Receipt>, b: map<(string, string), Receipt>) {
    forall k :: k in a ==> k in b && Rank(a[k].status) <= Rank(b[k].status)
  }

  lemma ForwardAggregate(a: map<(string, string), Receipt>, b: map<(string, string), Receipt>, m: string)
    requires Forward(a, b)
    ensures Rank(Aggregate(a, m)) <= Rank(Aggregate(b, m))
  {
    AggregateIsMaximum(a, m);
    AggregateReaches(b, m, Aggregate(a, m));
    if Aggregate(a, m) != Sent {
      var u :| HasStatus(a, m, u, Aggregate(a, m));
      assert (m, u) in b;
    }
  }

  lemma StepForward(w: World, e: Event)
    requires ReceiptsSound(w.receipts) && Enabled(w, e) && InOrder(w, e)
    ensures Forward(w.receipts, Step(w, e).receipts)
  {
    if e.DoBatchRead? && Step(w, e).receipts != w.receipts {
      UpsertAllKeeps(w.receipts, e.ms, e.user, Read, e.rat.batch);
      forall k | k in w.receipts
        ensures k in Step(w, e).receipts && Rank(w.receipts[k].status) <= Rank(Step(w, e).receipts[k].status)
      {
        assert k == (k.0, k.1);
        assert k.1 == e.user && k.0 in e.ms ==> HasStatus(Step(w, e).receipts, k.0, k.1, Read);
      }
    }
  }

  /** In any run whose updates come in order the status of a message never decreases. */
  lemma {:induction false} AggregateNeverDecreases(w: World, es: seq<Event>, m: string)
    requires ReceiptsSound(w.receipts) && CanRun(w, es) && InOrderRun(w, es)
    ensures Rank(Aggregate(w.receipts, m)) <= Rank(Aggregate(Run(w, es).receipts, m))
    decreases |es|
  {
    if es != [] {
      StepKeeps(w, es[0]);
      StepForward(w, es[0]);
      ForwardAggregate(w.receipts, Step(w, es[0]).receipts, m);
      AggregateNeverDecreases(Step(w, es[0]), es[1..], m);
    }
  }

  /**
   The upsert does not force a status forward. One update keeps the status of
   its message from falling exactly when it is at least that status itself, or
   another recipient holds that status.
   */
  lemma UpdateExact(w: World, m: string, u: string, s: Status, t: int)
    requires SetStatus(w, m, u, s, t).1.Ok?
    ensures var was := Aggregate(w.receipts, m);
      Rank(Aggregate(SetStatus(w, m, u, s, t).0.receipts, m)) >= Rank(was) <==>
      Rank(s) >= Rank(was) || exists x :: x != u && HasStatus(w.receipts, m, x, was)
  {
    var before := Aggregate(w.receipts, m);
    var v := SetStatus(w, m, u, s, t).0;
    AggregateIsMaximum(w.receipts, m);
    AggregateReaches(v.receipts, m, before);
    if x :| x != u && HasStatus(w.receipts, m, x, before) {
      assert (m, x) in v.receipts && v.receipts[(m, x)] == w.receipts[(m, x)];
    }
    if Reached(v.receipts, m, before) && Rank(s) < Rank(before) {
      var x :| (m, x) in v.receipts && Rank(v.receipts[(m, x)].status) >= Rank(before);
      assert x != u && HasStatus(w.receipts, m, x, before);
    }
  }

  /** The two passes of `some` over `statuses`, the statuses in the receipts of one message. */
  method ComputeAggregateStatus(ghost receipts: map<(string, string), Receipt>, ghost m: string, statuses: seq<Status>) returns (s: Status)
    requires forall x :: x in statuses <==> exists u :: HasStatus(receipts, m, u, x)
    ensures s == Aggregate(receipts, m)
  {
    if |statuses| == 0 {
      assert Read !in statuses && Delivered !in statuses;
      return Sent;
    }
    for i := 0 to |statuses|
      invariant forall k :: 0 <= k < i ==> statuses[k] != Read
    {
      if statuses[i] == Read {
        assert Read in statuses;
        return Read;
      }
    }
    assert Read !in statuses;
    for i := 0 to |statuses|
      invariant forall k :: 0 <= k < i ==> statuses[k] != Delivered
    {
      if statuses[i] == Delivered {
        assert Delivered in statuses;
        return Delivered;
      }
    }
    assert Delivered !in statuses;
    s := Sent;
  }

  // ------------------------------------------------------------- history

  /** One update of one recipient's receipt for one message. */
  datatype Update = Update(status: Status, t: int)

  ghost function UpdatesOf(w: World, e: Event, m: string, u: string): seq<Update> {
    if e.DoSetStatus? && e.m == m && e.user == u && m in w.messages && u in w.users then [Update(e.status, e.t)]
    else if e.DoBatchRead? && e.user == u && m in e.ms && u in w.users && (forall x :: x in e.ms ==> x in w.messages)
    then [Update(Read, e.rat.batch)]
    else []
  }

  /** All updates of a run, in order. */
  ghost function UpdatesIn(w: World, es: seq<Event>, m: string, u: string): seq<Update>
    decreases |es|
  {
    if es == [] then [] else UpdatesOf(w, es[0], m, u) + UpdatesIn(Step(w, es[0]), es[1..], m, u)
  }

  /** The time of the last update that is at least `s`. */
  ghost function LastReaching(log: seq<Update>, s: Status): Option<int> {
    if log == [] then None
    else
      var x := log[|log| - 1];
      if Rank(x.status) >= Rank(s) then Some(x.t) else LastReaching(log[..|log| - 1], s)
  }

  /** What a receipt row says about the log of its updates. */
  ghost predicate Tells(row: Option<Receipt>, log: seq<Update>) {
    if log == [] then row.None?
    else
      && row.Some? && row.value.status == log[|log| - 1].status
      && row.value.deliveredAt == LastReaching(log, Delivered)
      && row.value.readAt == LastReaching(log, Read)
  }

  lemma TellsMore(row: Option<Receipt>, log: seq<Update>, s: Status, t: int)
    requires Tells(row, log)
    ensures Tells(Some(Upsert(row, s, t)), log + [Update(s, t)])
  {
    assert (log + [Update(s, t)])[..|log|] == log;
  }

  /** A batch writes each of its rows as one update would, however often it names the message. */
  lemma {:induction false} BatchIsOneUpdateEach(receipts: map<(string, string), Receipt>, ms: seq<string>, u: string, s: Status, t: int, m: string)
    ensures RowOf(UpsertAll(receipts, ms, u, s, t), m, u) ==
      if m in ms then Some(Upsert(RowOf(receipts, m, u), s, t)) else RowOf(receipts, m, u)
    ensures forall x :: x != u ==> RowOf(UpsertAll(receipts, ms, u, s, t), m, x) == RowOf(receipts, m, x)
  {
    if ms != [] {
      var n := |ms| - 1;
      BatchIsOneUpdateEach(receipts, ms[..n], u, s, t, m);
      assert ms == ms[..n] + [ms[n]];
    }
  }

  /** What a request does to a row is what its updates, none or one, do. */
  ghost predicate IsUpdated(row: Option<Receipt>, after: Option<Receipt>, now: seq<Update>) {
    || (now == [] && after == row)
    || (exists s, t :: now == [Update(s, t)] && after == Some(Upsert(row, s, t)))
  }

  lemma StatusUpdates(w: World, e: Event, m: string, u: string)
    requires e.DoSetStatus?
    ensures IsUpdated(RowOf(w.receipts, m, u), RowOf(Step(w, e).receipts, m, u), UpdatesOf(w, e, m, u))
  {
    if UpdatesOf(w, e, m, u) != [] {
      assert UpdatesOf(w, e, m, u) == [Update(e.status, e.t)];
    }
  }

  lemma BatchUpdates(w: World, e: Event, m: string, u: string)
    requires e.DoBatchRead?
    ensures IsUpdated(RowOf(w.receipts, m, u), RowOf(Step(w, e).receipts, m, u), UpdatesOf(w, e, m, u))
  {
    BatchIsOneUpdateEach(w.receipts, e.ms, e.user, Read, e.rat.batch, m);
    if UpdatesOf(w, e, m, u) != [] {
      assert UpdatesOf(w, e, m, u) == [Update(Read, e.rat.batch)];
    }
  }

  lemma UpdatedTells(row: Option<Receipt>, after: Option<Receipt>, log: seq<Update>, now: seq<Update>)
    requires Tells(row, log) && IsUpdated(row, after, now)
    ensures Tells(after, log + now)
  {
    if now == [] {
      assert log + [] == log;
    } else {
      TellsMore(row, log, now[0].status, now[0].t);
    }
  }

  lemma StepTells(w: World, e: Event, m: string, u: string, log: seq<Update>)
    requires Enabled(w, e) && Tells(RowOf(w.receipts, m, u), log)
    ensures Tells(RowOf(Step(w, e).receipts, m, u), log + UpdatesOf(w, e, m, u))
  {
    if e.DoBatchRead? {
      BatchUpdates(w, e, m, u);
    } else if e.DoSetStatus? {
      StatusUpdates(w, e, m, u);
    }
    UpdatedTells(RowOf(w.receipts, m, u), RowOf(Step(w, e).receipts, m, u), log, UpdatesOf(w, e, m, u));
  }

  lemma Regroup(a: seq<Update>, b: seq<Update>, c: seq<Update>)
    ensures (a + b) + c == a + (b + c)
  {
  }

  /**
   A receipt row is the summary of its whole history: its status is the last one
   written, it was delivered at the last update to DELIVERED or READ, and read at
   the last update to READ.
   */
  lemma {:induction false} ReceiptIsItsHistory(w: World, es: seq<Event>, m: string, u: string, log: seq<Update>)
    requires CanRun(w, es) && Tells(RowOf(w.receipts, m, u), log)
    ensures Tells(RowOf(Run(w, es).receipts, m, u), log + UpdatesIn(w, es, m, u))
    decreases |es|
  {
    if es == [] {
      assert log + [] == log;
    } else {
      var v, now := Step(w, es[0]), UpdatesOf(w, es[0], m, u);
      StepTells(w, es[0], m, u, log);
      ReceiptIsItsHistory(v, es[1..], m, u, log + now);
      Regroup(log, now, UpdatesIn(v, es[1..], m, u));
    }
  }
}
