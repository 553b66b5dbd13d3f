/** History pages and offline sync over a chat that goes on meanwhile. */
module ChatPaging {
  import opened Prelude
  import opened ChatModel
  import opened ChatMessages
  import K = Keyset

  /** The rows of one conversation older than `before`, newest first: the key is the negated time. */
  ghost function HistoryRows(w: World, c: string, before: Option<int>): K.Table {
    map m | m in w.messages && w.messages[m].conversationId == c
            && (before.Some? ==> w.messages[m].sentAt < before.value) :: -w.messages[m].sentAt
  }

  /** The rows of some conversations, oldest first. */
  ghost function SyncRows(w: World, cs: set<string>): K.Table {
    map m | m in w.messages && w.messages[m].conversationId in cs :: w.messages[m].sentAt
  }

  // --------------------------------------------------------- going on

  /** `v` is reached from `w`. */
  ghost predicate Later(w: World, v: World) {
    exists es :: CanRun(w, es) && v == Run(w, es)
  }

  /** What lies between two states: old rows keep their place, new ones are no older than the earlier state. */
  ghost predicate Extends(w: World, v: World) {
    && w.now <= v.now
    && (forall m :: m in w.messages ==> m in v.messages && SameIdentity(w.messages[m], v.messages[m]))
    && (forall m :: m in v.messages && m !in w.messages ==> w.now <= v.messages[m].sentAt)
  }

  lemma StepExtends(w: World, e: Event)
    requires Enabled(w, e)
    ensures Extends(w, Step(w, e))
  {
    var v := Step(w, e);
    RowsStay(w, e);
    forall m | m in v.messages
      ensures m in w.messages ==> SameIdentity(w.messages[m], v.messages[m])
      ensures m !in w.messages ==> w.now <= v.messages[m].sentAt
    {
      RowChanges(w, e, m);
    }
    NowMoves(w, e);
  }

  lemma NowMoves(w: World, e: Event)
    requires Enabled(w, e)
    ensures Step(w, e).now == End(e)
  {
  }

  lemma {:induction false} RunExtends(w: World, es: seq<Event>)
    requires CanRun(w, es)
    ensures Extends(w, Run(w, es))
    decreases |es|
  {
    if es != [] {
      StepExtends(w, es[0]);
      RunExtends(Step(w, es[0]), es[1..]);
    }
  }

  // ------------------------------------------------------------- history

  /** What one request for history hands out. */
  datatype HistoryPage = HistoryPage(items: seq<string>, next: Option<int>, hasMore: bool)

  /** A cursor as a bound on negated time stamps. */
  function Negated(cursor: Option<int>): Option<int> {
    if cursor.Some? then Some(-cursor.value) else None
  }

  /**
   The page after the cursor among the messages before `before`, newest first: the
   right rows for the limit, "more" exactly when rows remain, and the time of the
   last row as the next cursor, handed on exactly when rows remain and there is a
   last row.
   */
  ghost predicate IsPage(w: World, c: string, cursor: Option<int>, before: Option<int>, limit: nat, page: HistoryPage) {
    var rows, bound := HistoryRows(w, c, before), Negated(cursor);
    && K.Answers(rows, bound, limit, page.items)
    && (page.hasMore <==> !K.Complete(rows, bound, page.items))
    && (page.next.Some? <==> page.hasMore && limit > 0)
    && (page.next.Some? ==> K.HasLast(K.Page(rows, page.items)) && Negated(page.next) == Some(K.Last(K.Page(rows, page.items))))
  }

  /** A message of the conversation older than the cursor and than `before`, where given. */
  ghost predicate IsOlder(w: World, c: string, cursor: Option<int>, before: Option<int>, m: string) {
    && m in w.messages && w.messages[m].conversationId == c
    && (cursor.Some? ==> w.messages[m].sentAt < cursor.value)
    && (before.Some? ==> w.messages[m].sentAt < before.value)
  }

  /**
   What a page means: messages of the conversation older than the bounds, each once,
   newest first, at most the limit; one left out is no newer than any on the page, which
   then is full. There is more exactly when one is left out, and the cursor handed on
   is the time of the last message.
   */
  lemma PageMeans(w: World, c: string, cursor: Option<int>, before: Option<int>, limit: nat, page: HistoryPage)
    requires IsPage(w, c, cursor, before, limit, page)
    ensures forall m :: m in page.items ==> IsOlder(w, c, cursor, before, m)
    ensures forall i, j :: 0 <= i < j < |page.items| ==>
      page.items[i] != page.items[j] && w.messages[page.items[i]].sentAt >= w.messages[page.items[j]].sentAt
    ensures |page.items| <= limit
    ensures forall m, n :: IsOlder(w, c, cursor, before, m) && m !in page.items ==>
      |page.items| == limit && (n in page.items ==> w.messages[m].sentAt <= w.messages[n].sentAt)
    ensures page.hasMore <==> exists m :: IsOlder(w, c, cursor, before, m) && m !in page.items
    ensures page.next.Some? <==> page.hasMore && limit > 0
    ensures page.next.Some? ==> page.items != [] && page.next.value == w.messages[page.items[|page.items| - 1]].sentAt
  {
    var rows, bound := HistoryRows(w, c, before), Negated(cursor);
    forall m
      ensures IsOlder(w, c, cursor, before, m) <==> m in rows && K.Beyond(rows[m], bound)
    {
    }
    if page.next.Some? {
      assert page.items[|page.items| - 1] in page.items;
    }
  }

  /**
   Pages got by following cursors, finished or not: each is asked for with the
   cursor the one before handed on, in a state reached from the state of that one.
   `w` is the state of the first and `end` that of the last.
   */
  ghost predicate HistoryChain(w: World, end: World, c: string, before: Option<int>, cursor: Option<int>, limit: nat, pages: seq<HistoryPage>)
    decreases |pages|
  {
    && pages != []
    && IsPage(w, c, cursor, before, limit, pages[0])
    && (if |pages| == 1 then end == w
        else pages[0].next.Some? && exists v :: Later(w, v) && HistoryChain(v, end, c, before, pages[0].next, limit, pages[1..]))
  }

  /** No rows remained after the last page. */
  predicate IsFinished(pages: seq<HistoryPage>) {
    pages != [] && !pages[|pages| - 1].hasMore
  }

  /** Everything the pages hold, in order. */
  function Items(pages: seq<HistoryPage>): seq<string> {
    if pages == [] then [] else pages[0].items + Items(pages[1..])
  }

  /** Some page but the last handed on the time `t` of the message as cursor without holding the message. */
  predicate IsPassedOver(pages: seq<HistoryPage>, t: int, m: string) {
    exists i :: 0 <= i < |pages| - 1 && pages[i].next == Some(t) && m !in pages[i].items
  }

  lemma LaterExtends(w: World, v: World)
    requires Later(w, v)
    ensures Extends(w, v)
  {
    var es :| CanRun(w, es) && v == Run(w, es);
    RunExtends(w, es);
  }

  lemma ExtendsTransitive(u: World, v: World, w: World)
    requires Extends(u, v) && Extends(v, w)
    ensures Extends(u, w)
  {
  }

  lemma RowsWithin(w: World, v: World, c: string, before: Option<int>)
    requires Extends(w, v)
    ensures K.Within(HistoryRows(w, c, before), HistoryRows(v, c, before))
  {
  }

  lemma {:induction false} ChainExtends(w: World, end: World, c: string, before: Option<int>, cursor: Option<int>, limit: nat, pages: seq<HistoryPage>)
    requires HistoryChain(w, end, c, before, cursor, limit, pages)
    ensures Extends(w, end)
    decreases |pages|
  {
    if |pages| > 1 {
      var v :| Later(w, v) && HistoryChain(v, end, c, before, pages[0].next, limit, pages[1..]);
      LaterExtends(w, v);
      ChainExtends(v, end, c, before, pages[0].next, limit, pages[1..]);
      ExtendsTransitive(w, v, end);
    }
  }

  /** The state of the second page, and what lies between. */
  lemma SecondState(w: World, end: World, c: string, before: Option<int>, cursor: Option<int>, limit: nat, pages: seq<HistoryPage>)
      returns (v: World)
    requires HistoryChain(w, end, c, before, cursor, limit, pages) && |pages| > 1
    ensures Extends(w, v) && HistoryChain(v, end, c, before, pages[0].next, limit, pages[1..])
    ensures IsPage(w, c, cursor, before, limit, pages[0]) && pages[0].next.Some?
    ensures K.Within(HistoryRows(w, c, before), HistoryRows(v, c, before))
    ensures K.Within(HistoryRows(w, c, before), HistoryRows(end, c, before))
  {
    v :| Later(w, v) && HistoryChain(v, end, c, before, pages[0].next, limit, pages[1..]);
    LaterExtends(w, v);
    RowsWithin(w, v, c, before);
    ChainExtends(w, end, c, before, cursor, limit, pages);
    RowsWithin(w, end, c, before);
  }

  /** The pages with the tables they were read from. */
  ghost predicate AreRead(ks: seq<K.Page>, pages: seq<HistoryPage>) {
    && |ks| == |pages|
    && (forall i :: 0 <= i < |pages| ==> ks[i].ids == pages[i].items)
    && (forall i :: 0 <= i < |pages| - 1 ==> K.HasLast(ks[i]) && Negated(pages[i].next) == Some(K.Last(ks[i])))
  }

  /** A page that hands on a cursor is full. */
  lemma PageIsFull(w: World, c: string, cursor: Option<int>, before: Option<int>, limit: nat, page: HistoryPage)
    requires IsPage(w, c, cursor, before, limit, page) && page.hasMore
    ensures |page.items| == limit
  {
  }

  /** `ks` are the pages with their tables: a walk over `all` that sees `rows`, finished if the last page says so. */
  ghost predicate IsWalkOf(ks: seq<K.Page>, pages: seq<HistoryPage>, all: K.Table, rows: K.Table, bound: Option<int>, limit: nat)
    requires pages != []
  {
    && AreRead(ks, pages) && K.Returned(ks) == Items(pages) && K.Seen(rows, ks)
    && K.Steps(all, ks, bound, limit) && (IsFinished(pages) ==> K.Walk(all, ks, bound, limit))
    && (pages[|pages| - 1].next.Some? ==> |pages[|pages| - 1].items| == limit > 0)
  }

  lemma OnePageIsWalk(w: World, c: string, before: Option<int>, cursor: Option<int>, limit: nat, page: HistoryPage, rows: K.Table)
    requires IsPage(w, c, cursor, before, limit, page) && K.Within(rows, HistoryRows(w, c, before))
    ensures IsWalkOf([K.Page(HistoryRows(w, c, before), page.items)], [page], HistoryRows(w, c, before), rows, Negated(cursor), limit)
  {
    K.OnePage(HistoryRows(w, c, before), rows, K.Page(HistoryRows(w, c, before), page.items), Negated(cursor), limit);
    assert [page][1..] == [];
    if page.hasMore {
      PageIsFull(w, c, cursor, before, limit, page);
    }
  }

  lemma MorePagesAreWalk(w: World, all: K.Table, c: string, before: Option<int>, cursor: Option<int>, limit: nat,
                         page: HistoryPage, rest: seq<HistoryPage>, ks: seq<K.Page>, rows: K.Table)
    requires IsPage(w, c, cursor, before, limit, page) && page.next.Some? && rest != []
    requires K.Within(rows, HistoryRows(w, c, before)) && K.Within(HistoryRows(w, c, before), all)
    requires IsWalkOf(ks, rest, all, rows, Negated(page.next), limit)
    ensures IsWalkOf([K.Page(HistoryRows(w, c, before), page.items)] + ks, [page] + rest, all, rows, Negated(cursor), limit)
  {
    var first := K.Page(HistoryRows(w, c, before), page.items);
    PageIsFull(w, c, cursor, before, limit, page);
    K.StepsMore(all, first, ks, Negated(cursor), limit);
    K.SeenMore(rows, first, ks);
    assert ([page] + rest)[1..] == rest;
    ReadMore(first, ks, [page] + rest);
  }

  /**
   What following cursors gives is a walk in the sense of `Keyset`, finished if the
   last page says that nothing remains; each message of the first state is in the
   tables of all pages.
   */
  lemma {:induction false} ChainIsWalk(w: World, end: World, c: string, before: Option<int>, cursor: Option<int>, limit: nat,
                                       pages: seq<HistoryPage>, rows: K.Table) returns (ks: seq<K.Page>)
    requires HistoryChain(w, end, c, before, cursor, limit, pages) && K.Within(rows, HistoryRows(w, c, before))
    ensures IsWalkOf(ks, pages, HistoryRows(end, c, before), rows, Negated(cursor), limit)
    decreases |pages|
  {
    var page := pages[0];
    ks := [K.Page(HistoryRows(w, c, before), page.items)];
    if |pages| == 1 {
      assert pages == [page];
      OnePageIsWalk(w, c, before, cursor, limit, page, rows);
    } else {
      var more := pages[1..];
      assert pages == [page] + more;
      var v := SecondState(w, end, c, before, cursor, limit, pages);
      var rest := ChainIsWalk(v, end, c, before, page.next, limit, more, rows);
      MorePagesAreWalk(w, HistoryRows(end, c, before), c, before, cursor, limit, page, more, rest, rows);
      ks := ks + rest;
    }
  }

  lemma ReadMore(first: K.Page, rest: seq<K.Page>, pages: seq<HistoryPage>)
    requires |pages| > 1 && AreRead(rest, pages[1..]) && first.ids == pages[0].items
    requires K.HasLast(first) && Negated(pages[0].next) == Some(K.Last(first))
    ensures AreRead([first] + rest, pages)
  {
  }

  lemma PassedOverIsTied(all: K.Table, ks: seq<K.Page>, pages: seq<HistoryPage>, m: string, t: int)
    requires AreRead(ks, pages) && m in all && all[m] == -t
    ensures IsPassedOver(pages, t, m) <==> K.Tied(all, ks, m)
  {
    K.TiedSomewhere(all, ks, m);
    if i :| 0 <= i < |pages| - 1 && pages[i].next == Some(t) && m !in pages[i].items {
      assert K.TiesWith(all, ks, i, m);
    }
    if i :| K.TiesWith(all, ks, i, m) {
      assert pages[i].next == Some(t) && m !in pages[i].items;
    }
  }

  /**
   Following the cursors of the code's own pages until none remains, while messages
   are sent, edited and deleted, returns a message present at the start if and only
   if no page handed on its time as cursor and left it out. What is returned comes
   newest first, each message once.
   */
  lemma HistoryWalkExact(w: World, end: World, c: string, before: Option<int>, limit: nat, pages: seq<HistoryPage>, m: string)
    requires HistoryChain(w, end, c, before, None, limit, pages) && IsFinished(pages)
    requires m in HistoryRows(w, c, before)
    ensures m in Items(pages) <==> !IsPassedOver(pages, w.messages[m].sentAt, m)
    ensures K.Ascending(HistoryRows(end, c, before), Items(pages))
  {
    var rows, all := HistoryRows(w, c, before), HistoryRows(end, c, before);
    ChainExtends(w, end, c, before, None, limit, pages);
    RowsWithin(w, end, c, before);
    var ks := ChainIsWalk(w, end, c, before, None, limit, pages, rows);
    PassedOverIsTied(all, ks, pages, m, w.messages[m].sentAt);
    K.WalkExact(all, rows, ks, None, limit, m);
    K.StepsAscend(all, ks, None, limit);
  }

  /** With different time stamps every message that was there at the start is returned. */
  lemma HistoryWalkComplete(w: World, end: World, c: string, before: Option<int>, limit: nat, pages: seq<HistoryPage>)
    requires HistoryChain(w, end, c, before, None, limit, pages) && IsFinished(pages)
    requires K.DistinctKeys(HistoryRows(end, c, before))
    ensures forall m :: m in HistoryRows(w, c, before) ==> m in Items(pages)
  {
    var rows, all := HistoryRows(w, c, before), HistoryRows(end, c, before);
    ChainExtends(w, end, c, before, None, limit, pages);
    RowsWithin(w, end, c, before);
    var ks := ChainIsWalk(w, end, c, before, None, limit, pages, rows);
    forall m | m in rows
      ensures m in Items(pages)
    {
      K.WalkExact(all, rows, ks, None, limit, m);
      K.DistinctKeysNeverTie(all, ks, None, limit, m);
    }
  }

  // ------------------------------------------------- nothing new, and an end

  /** A message sent after the first page never turns up behind its cursor, however far the pages are followed. */
  lemma {:induction false} NothingNew(start: World, w: World, end: World, c: string, before: Option<int>, cursor: int, limit: nat,
                                     pages: seq<HistoryPage>)
    requires HistoryChain(w, end, c, before, Some(cursor), limit, pages) && Extends(start, w) && cursor <= start.now
    ensures forall m :: m in Items(pages) ==> m in HistoryRows(start, c, before)
    decreases |pages|
  {
    var rows := HistoryRows(w, c, before);
    forall m | m in pages[0].items
      ensures m in HistoryRows(start, c, before)
    {
      assert m in rows && K.Beyond(rows[m], Some(-cursor));
    }
    if |pages| > 1 {
      var v := SecondState(w, end, c, before, Some(cursor), limit, pages);
      ExtendsTransitive(start, w, v);
      CursorGoesBack(w, c, Some(cursor), before, limit, pages[0]);
      NothingNew(start, v, end, c, before, pages[0].next.value, limit, pages[1..]);
    }
  }

  lemma CursorGoesBack(w: World, c: string, cursor: Option<int>, before: Option<int>, limit: nat, page: HistoryPage)
    requires IsPage(w, c, cursor, before, limit, page) && page.next.Some?
    ensures page.items != [] && page.items[|page.items| - 1] in HistoryRows(w, c, before)
    ensures page.next.value == w.messages[page.items[|page.items| - 1]].sentAt
    ensures cursor.Some? ==> page.next.value < cursor.value
  {
    assert page.items[|page.items| - 1] in page.items;
  }

  /**
   However many pages have been followed, they hold only messages of the first state,
   each once, and all but the last are full; so is the last, if it hands on a cursor.
   */
  lemma HistoryPagesAreBounded(w: World, end: World, c: string, before: Option<int>, limit: nat, pages: seq<HistoryPage>)
    requires MessageInv(w) && HistoryChain(w, end, c, before, None, limit, pages)
    ensures forall m :: m in Items(pages) ==> m in HistoryRows(w, c, before)
    ensures (|pages| - 1) * limit + |pages[|pages| - 1].items| <= |HistoryRows(w, c, before)|
    ensures pages[|pages| - 1].next.Some? ==> |pages[|pages| - 1].items| == limit > 0
  {
    var rows := HistoryRows(w, c, before);
    var ks := ChainIsWalk(w, end, c, before, None, limit, pages, rows);
    OnlyOldOnes(w, end, c, before, limit, pages);
    PagesFit(ks, pages, HistoryRows(end, c, before), rows, limit);
  }

  lemma PagesFit(ks: seq<K.Page>, pages: seq<HistoryPage>, all: K.Table, rows: K.Table, limit: nat)
    requires pages != [] && IsWalkOf(ks, pages, all, rows, None, limit)
    requires forall m :: m in Items(pages) ==> m in rows
    ensures (|pages| - 1) * limit + |pages[|pages| - 1].items| <= |rows|
    ensures pages[|pages| - 1].next.Some? ==> |pages| * limit <= |rows| && |pages| <= |rows|
  {
    K.StepsAreBounded(all, rows, ks, None, limit);
    if pages[|pages| - 1].next.Some? {
      FullCount(|pages|, |pages[|pages| - 1].items|, limit, |rows|);
    }
  }

  /**
   Following history cursors comes to an end, whatever happens meanwhile: the pages
   that hand on a cursor are no more than the messages there were at the start, and
   no more than the limit goes into them.
   */
  lemma HistoryWalkEnds(w: World, end: World, c: string, before: Option<int>, limit: nat, pages: seq<HistoryPage>)
    requires MessageInv(w) && HistoryChain(w, end, c, before, None, limit, pages) && pages[|pages| - 1].next.Some?
    ensures |pages| * limit <= |HistoryRows(w, c, before)| && |pages| <= |HistoryRows(w, c, before)|
  {
    var rows := HistoryRows(w, c, before);
    var ks := ChainIsWalk(w, end, c, before, None, limit, pages, rows);
    OnlyOldOnes(w, end, c, before, limit, pages);
    PagesFit(ks, pages, HistoryRows(end, c, before), rows, limit);
  }

  lemma FullCount(n: nat, last: nat, limit: nat, rows: nat)
    requires n > 0 && last == limit > 0 && (n - 1) * limit + last <= rows
    ensures n * limit <= rows && n <= rows
  {
    assert n * limit == (n - 1) * limit + limit;
  }

  lemma OnlyOldOnes(w: World, end: World, c: string, before: Option<int>, limit: nat, pages: seq<HistoryPage>)
    requires MessageInv(w) && HistoryChain(w, end, c, before, None, limit, pages)
    ensures forall m :: m in Items(pages) ==> m in HistoryRows(w, c, before)
  {
    if |pages| > 1 {
      var v := SecondState(w, end, c, before, None, limit, pages);
      CursorGoesBack(w, c, None, before, limit, pages[0]);
      assert RowSound(w.messages[pages[0].items[|pages[0].items| - 1]], w.now);
      NothingNew(w, v, end, c, before, pages[0].next.value, limit, pages[1..]);
    } else {
      assert Items(pages) == pages[0].items + Items(pages[1..]);
    }
  }

  // ---------------------------------------------------------------- sync

  /** What is left of the requested conversations once those without the user are dropped. */
  ghost function Authorized(w: World, user: string, requested: seq<string>): set<string> {
    set c | c in requested && IsMember(w, c, user)
  }

  /** An answer to a sync after `after`, with or without a limit. */
  ghost predicate SyncAnswers(w: World, cs: set<string>, after: int, limit: Option<nat>, ids: seq<string>) {
    K.AnswersQuery(SyncRows(w, cs), Some(after), limit, ids)
  }

  /** `log` holds every row of `cs` once, oldest first. */
  ghost predicate IsLog(w: World, cs: set<string>, log: seq<string>) {
    K.Ascending(SyncRows(w, cs), log) && forall m :: m in SyncRows(w, cs) ==> m in log
  }

  /**
   A client holds every message up to `after` as of state `w` and later appends
   an unlimited sync. It then holds every message exactly once, oldest first,
   if and only if no message was sent after `w` in the very millisecond `after`.
   */
  lemma UnlimitedSyncExact(w: World, v: World, cs: set<string>, after: int, held: seq<string>, ids: seq<string>)
    requires Extends(w, v) && after <= w.now
    requires K.Ascending(SyncRows(w, cs), held)
    requires forall m :: m in held <==> m in SyncRows(w, cs) && w.messages[m].sentAt <= after
    requires SyncAnswers(v, cs, after, None, ids)
    ensures K.Ascending(SyncRows(v, cs), held + ids)
    ensures IsLog(v, cs, held + ids) <==>
      forall m :: m in v.messages && m !in w.messages && v.messages[m].conversationId in cs ==> v.messages[m].sentAt != after
  {
    var rows, log := SyncRows(v, cs), held + ids;
    assert forall m :: m in held ==> m in rows && rows[m] <= after;
    forall i, j | 0 <= i < j < |log|
      ensures log[i] != log[j] && rows[log[i]] <= rows[log[j]]
    {
      if i < |held| <= j {
        assert log[i] in held && log[j] in ids;
      } else if j < |held| {
        assert held[i] in held && held[j] in held;
      }
    }
    forall m | m in rows
      ensures m in log <==> m in w.messages || rows[m] != after
    {
      assert m in log <==> m in held || m in ids;
    }
  }

  /** The time stamp a client asks from next: that of the last message it got. */
  function LastTime(messages: map<string, Message>, ids: seq<string>): int {
    if ids != [] && ids[|ids| - 1] in messages then messages[ids[|ids| - 1]].sentAt else 0
  }

  /**
   Bounded syncs repeated from the last time stamp, finished or not: each is answered
   in a state reached from that of the one before, as long as pages are full. The
   user is in every conversation of `cs`, which was asked for, all the time.
   */
  ghost predicate SyncChain(w: World, end: World, user: string, requested: seq<string>, cs: set<string>, after: int, limit: nat, pages: seq<seq<string>>)
    decreases |pages|
  {
    && pages != []
    && cs <= Authorized(w, user, requested)
    && SyncAnswers(w, Authorized(w, user, requested), after, Some(limit), pages[0])
    && (if |pages| == 1 then end == w
        else
          && |pages[0]| == limit > 0
          && exists v :: Later(w, v) && SyncChain(v, end, user, requested, cs, LastTime(w.messages, pages[0]), limit, pages[1..]))
  }

  /** A page shorter than the limit says that nothing remains. */
  predicate SyncIsFinished(pages: seq<seq<string>>, limit: nat) {
    pages != [] && |pages[|pages| - 1]| < limit
  }

  function Joined(pages: seq<seq<string>>): seq<string> {
    if pages == [] then [] else pages[0] + Joined(pages[1..])
  }

  /** Some page but the last ends at the time of the message without holding the message. */
  predicate IsSkipped(messages: map<string, Message>, pages: seq<seq<string>>, m: string)
    requires m in messages
  {
    exists i :: 0 <= i < |pages| - 1 && EndsWithout(messages, pages[i], m)
  }

  predicate EndsWithout(messages: map<string, Message>, ids: seq<string>, m: string)
    requires m in messages
  {
    ids != [] && LastTime(messages, ids) == messages[m].sentAt && m !in ids
  }

  ghost function Asked(requested: seq<string>): set<string> {
    set c | c in requested
  }

  lemma {:induction false} SyncExtends(w: World, end: World, user: string, requested: seq<string>, cs: set<string>, after: int, limit: nat, pages: seq<seq<string>>)
    requires SyncChain(w, end, user, requested, cs, after, limit, pages)
    ensures Extends(w, end) && cs <= Asked(requested)
    decreases |pages|
  {
    if |pages| > 1 {
      var v :| Later(w, v) && SyncChain(v, end, user, requested, cs, LastTime(w.messages, pages[0]), limit, pages[1..]);
      LaterExtends(w, v);
      SyncExtends(v, end, user, requested, cs, LastTime(w.messages, pages[0]), limit, pages[1..]);
      ExtendsTransitive(w, v, end);
    }
  }

  /** A message older than one of a page was there when the page was read. */
  lemma OldEnough(w: World, end: World, cs: set<string>, m: string, last: string)
    requires MessageInv(w) && Extends(w, end) && last in SyncRows(w, cs)
    requires m in end.messages && end.messages[m].conversationId in cs && end.messages[m].sentAt < w.messages[last].sentAt
    ensures m in SyncRows(w, cs)
  {
    assert RowSound(w.messages[last], w.now);
  }

  /** The rows of `cs` that a page goes past are in its table. */
  lemma PageSees(w: World, end: World, now: set<string>, cs: set<string>, k: K.Page)
    requires MessageInv(w) && Extends(w, end) && cs <= now && k.table == SyncRows(w, now) && K.HasLast(k)
    ensures forall m :: m in SyncRows(end, cs) && SyncRows(end, cs)[m] < K.Last(k) ==> m in k.table
  {
    forall m | m in SyncRows(end, cs) && end.messages[m].sentAt < K.Last(k)
      ensures m in k.table
    {
      OldEnough(w, end, now, m, k.ids[|k.ids| - 1]);
    }
  }

  /** A full page has a last message, from whose time the next sync asks. */
  lemma PageHasLast(w: World, cs: set<string>, after: int, limit: nat, ids: seq<string>)
    requires SyncAnswers(w, cs, after, Some(limit), ids) && ids != []
    ensures K.HasLast(K.Page(SyncRows(w, cs), ids)) && K.Last(K.Page(SyncRows(w, cs), ids)) == LastTime(w.messages, ids)
  {
    assert ids[|ids| - 1] in ids;
  }

  ghost predicate SyncsAreRead(ks: seq<K.Page>, pages: seq<seq<string>>) {
    && |ks| == |pages|
    && (forall i :: 0 <= i < |pages| ==> ks[i].ids == pages[i])
    && (forall i :: 0 <= i < |pages| - 1 ==> K.HasLast(ks[i]))
  }

  lemma SyncsReadMore(first: K.Page, rest: seq<K.Page>, pages: seq<seq<string>>)
    requires |pages| > 1 && SyncsAreRead(rest, pages[1..]) && first.ids == pages[0] && K.HasLast(first)
    ensures SyncsAreRead([first] + rest, pages)
  {
  }

  ghost predicate IsSyncWalkOf(ks: seq<K.Page>, pages: seq<seq<string>>, all: K.Table, rows: K.Table, after: int, limit: nat) {
    && SyncsAreRead(ks, pages) && K.Returned(ks) == Joined(pages) && K.Seen(rows, ks)
    && K.Steps(all, ks, Some(after), limit) && (SyncIsFinished(pages, limit) ==> K.Walk(all, ks, Some(after), limit))
  }

  lemma OneSyncIsWalk(w: World, now: set<string>, requested: seq<string>, cs: set<string>, after: int, limit: nat, ids: seq<string>)
    requires SyncAnswers(w, now, after, Some(limit), ids) && cs <= now <= Asked(requested)
    ensures IsSyncWalkOf([K.Page(SyncRows(w, now), ids)], [ids], SyncRows(w, Asked(requested)), SyncRows(w, cs), after, limit)
  {
    var k := K.Page(SyncRows(w, now), ids);
    K.OnePage(SyncRows(w, Asked(requested)), SyncRows(w, cs), k, Some(after), limit);
    if |ids| < limit {
      K.ShortIsComplete(SyncRows(w, now), Some(after), limit, ids);
    }
    assert [ids][1..] == [];
  }

  lemma MoreSyncsAreWalk(w: World, now: set<string>, all: K.Table, after: int, limit: nat, ids: seq<string>, rest: seq<seq<string>>,
                         ks: seq<K.Page>, rows: K.Table)
    requires SyncAnswers(w, now, after, Some(limit), ids) && |ids| == limit > 0 && rest != [] && K.Within(SyncRows(w, now), all)
    requires K.HasLast(K.Page(SyncRows(w, now), ids)) && K.Last(K.Page(SyncRows(w, now), ids)) == LastTime(w.messages, ids)
    requires forall m :: m in rows && rows[m] < LastTime(w.messages, ids) ==> m in SyncRows(w, now)
    requires IsSyncWalkOf(ks, rest, all, rows, LastTime(w.messages, ids), limit)
    ensures IsSyncWalkOf([K.Page(SyncRows(w, now), ids)] + ks, [ids] + rest, all, rows, after, limit)
  {
    var first := K.Page(SyncRows(w, now), ids);
    K.StepsMore(all, first, ks, Some(after), limit);
    K.SeenMore(rows, first, ks);
    assert ([ids] + rest)[1..] == rest;
    SyncsReadMore(first, ks, [ids] + rest);
  }

  /** Repeated syncs are a walk in the sense of `Keyset`, finished if the last page is short. */
  lemma {:induction false} SyncIsWalk(w: World, end: World, user: string, requested: seq<string>, cs: set<string>, after: int, limit: nat,
                                      pages: seq<seq<string>>) returns (ks: seq<K.Page>)
    requires MessageInv(w) && SyncChain(w, end, user, requested, cs, after, limit, pages)
    ensures IsSyncWalkOf(ks, pages, SyncRows(end, Asked(requested)), SyncRows(end, cs), after, limit)
    decreases |pages|
  {
    var now, all, rows := Authorized(w, user, requested), SyncRows(end, Asked(requested)), SyncRows(end, cs);
    var ids := pages[0];
    ks := [K.Page(SyncRows(w, now), ids)];
    if |pages| == 1 {
      assert pages == [ids];
      OneSyncIsWalk(w, now, requested, cs, after, limit, ids);
    } else {
      var more := pages[1..];
      assert pages == [ids] + more;
      var v := SecondSync(w, end, user, requested, cs, after, limit, pages);
      var rest := SyncIsWalk(v, end, user, requested, cs, LastTime(w.messages, ids), limit, more);
      MoreSyncsAreWalk(w, now, all, after, limit, ids, more, rest, rows);
      ks := ks + rest;
    }
  }

  /** The state of the second sync, and what the first page sees. */
  lemma SecondSync(w: World, end: World, user: string, requested: seq<string>, cs: set<string>, after: int, limit: nat,
                   pages: seq<seq<string>>) returns (v: World)
    requires MessageInv(w) && SyncChain(w, end, user, requested, cs, after, limit, pages) && |pages| > 1
    ensures MessageInv(v) && SyncChain(v, end, user, requested, cs, LastTime(w.messages, pages[0]), limit, pages[1..])
    ensures K.Within(SyncRows(w, Authorized(w, user, requested)), SyncRows(end, Asked(requested)))
    ensures var rows := SyncRows(w, Authorized(w, user, requested));
      && K.HasLast(K.Page(rows, pages[0])) && K.Last(K.Page(rows, pages[0])) == LastTime(w.messages, pages[0])
      && forall m :: m in SyncRows(end, cs) && SyncRows(end, cs)[m] < LastTime(w.messages, pages[0]) ==> m in rows
  {
    v :| Later(w, v) && SyncChain(v, end, user, requested, cs, LastTime(w.messages, pages[0]), limit, pages[1..]);
    LaterKeeps(w, v);
    SyncExtends(w, end, user, requested, cs, after, limit, pages);
    TableWithin(w, end, Authorized(w, user, requested), requested);
    PageHasLast(w, Authorized(w, user, requested), after, limit, pages[0]);
    PageSees(w, end, Authorized(w, user, requested), cs, K.Page(SyncRows(w, Authorized(w, user, requested)), pages[0]));
  }

  lemma LaterKeeps(w: World, v: World)
    requires MessageInv(w) && Later(w, v)
    ensures MessageInv(v)
  {
    var es :| CanRun(w, es) && v == Run(w, es);
    RunKeeps(w, es);
  }

  lemma TableWithin(w: World, end: World, cs: set<string>, requested: seq<string>)
    requires Extends(w, end) && cs <= Asked(requested)
    ensures K.Within(SyncRows(w, cs), SyncRows(end, Asked(requested)))
  {
  }

  lemma SkippedIsTied(end: World, cs: set<string>, ks: seq<K.Page>, pages: seq<seq<string>>, bound: Option<int>, limit: nat, m: string)
    requires SyncsAreRead(ks, pages) && m in SyncRows(end, cs)
    requires forall i :: 0 <= i < |ks| ==> K.Within(ks[i].table, SyncRows(end, cs))
    ensures IsSkipped(end.messages, pages, m) <==> K.Tied(SyncRows(end, cs), ks, m)
  {
    var all := SyncRows(end, cs);
    K.TiedSomewhere(all, ks, m);
    forall i | 0 <= i < |pages| - 1
      ensures EndsWithout(end.messages, pages[i], m) <==> K.TiesWith(all, ks, i, m)
    {
      assert K.HasLast(ks[i]);
    }
  }

  lemma {:induction false} TablesWithin(all: K.Table, ks: seq<K.Page>, bound: Option<int>, limit: nat)
    requires K.Steps(all, ks, bound, limit)
    ensures forall i :: 0 <= i < |ks| ==> K.Within(ks[i].table, all)
    decreases |ks|
  {
    if |ks| > 1 {
      TablesWithin(all, ks[1..], Some(K.Last(ks[0])), limit);
      forall i | 0 <= i < |ks|
        ensures K.Within(ks[i].table, all)
      {
        assert i > 0 ==> ks[i] == ks[1..][i - 1];
      }
    }
  }

  /**
   Repeating bounded syncs from the last time stamp until a page is short, while
   messages are sent, edited and deleted, returns a message of the final state if
   and only if no page ended at its time and left it out; oldest first, each once.
   */
  lemma SyncWalkExact(w: World, end: World, user: string, requested: seq<string>, cs: set<string>, after: int, limit: nat,
                      pages: seq<seq<string>>, m: string)
    requires MessageInv(w) && SyncChain(w, end, user, requested, cs, after, limit, pages) && SyncIsFinished(pages, limit)
    requires m in SyncRows(end, cs) && end.messages[m].sentAt > after
    ensures m in Joined(pages) <==> !IsSkipped(end.messages, pages, m)
    ensures K.Ascending(SyncRows(end, Asked(requested)), Joined(pages))
  {
    var all := SyncRows(end, Asked(requested));
    SyncExtends(w, end, user, requested, cs, after, limit, pages);
    var ks := SyncIsWalk(w, end, user, requested, cs, after, limit, pages);
    TablesWithin(all, ks, Some(after), limit);
    SkippedIsTied(end, Asked(requested), ks, pages, Some(after), limit, m);
    K.WalkExact(all, SyncRows(end, cs), ks, Some(after), limit, m);
    K.StepsAscend(all, ks, Some(after), limit);
  }

  /** However long it is repeated, every full page takes as many messages out of those there are. */
  lemma SyncWalkIsBounded(w: World, end: World, user: string, requested: seq<string>, cs: set<string>, after: int, limit: nat,
                          pages: seq<seq<string>>)
    requires MessageInv(w) && SyncChain(w, end, user, requested, cs, after, limit, pages)
    ensures (|pages| - 1) * limit + |pages[|pages| - 1]| <= |SyncRows(end, Asked(requested))|
  {
    var all := SyncRows(end, Asked(requested));
    var ks := SyncIsWalk(w, end, user, requested, cs, after, limit, pages);
    SyncsFit(ks, pages, all, SyncRows(end, cs), after, limit);
  }

  lemma SyncsFit(ks: seq<K.Page>, pages: seq<seq<string>>, all: K.Table, rows: K.Table, after: int, limit: nat)
    requires pages != [] && IsSyncWalkOf(ks, pages, all, rows, after, limit)
    ensures (|pages| - 1) * limit + |pages[|pages| - 1]| <= |all|
  {
    K.StepsAscend(all, ks, Some(after), limit);
    K.StepsAreBounded(all, all, ks, Some(after), limit);
  }

  /**
   With different time stamps, and nothing returned from conversations the user
   joins or leaves on the way, the bounded syncs give the very log that one
   unlimited sync of the final state gives.
   */
  lemma BoundedSyncIsUnlimitedSync(w: World, end: World, user: string, requested: seq<string>, cs: set<string>, after: int, limit: nat,
                                   pages: seq<seq<string>>, ids: seq<string>)
    requires MessageInv(w) && SyncChain(w, end, user, requested, cs, after, limit, pages) && SyncIsFinished(pages, limit)
    requires K.DistinctKeys(SyncRows(end, Asked(requested)))
    requires forall m :: m in Joined(pages) ==> m in SyncRows(end, cs)
    requires SyncAnswers(end, cs, after, None, ids)
    ensures Joined(pages) == ids
  {
    var all := SyncRows(end, Asked(requested));
    SyncExtends(w, end, user, requested, cs, after, limit, pages);
    var ks := SyncIsWalk(w, end, user, requested, cs, after, limit, pages);
    K.StepsAscend(all, ks, Some(after), limit);
    forall m
      ensures m in Joined(pages) <==> m in ids
    {
      ReturnedOrNot(end, Asked(requested), cs, ks, after, limit, ids, m);
    }
    K.OneListing(all, Joined(pages), ids);
  }

  /** A finished walk over distinct times returns just what an unlimited sync does. */
  lemma ReturnedOrNot(end: World, asked: set<string>, cs: set<string>, ks: seq<K.Page>, after: int, limit: nat, ids: seq<string>, m: string)
    requires cs <= asked && K.Walk(SyncRows(end, asked), ks, Some(after), limit) && K.Seen(SyncRows(end, cs), ks)
    requires K.DistinctKeys(SyncRows(end, asked)) && SyncAnswers(end, cs, after, None, ids)
    requires m in K.Returned(ks) ==> m in SyncRows(end, cs)
    ensures m in K.Returned(ks) <==> m in ids
  {
    K.StepsAscend(SyncRows(end, asked), ks, Some(after), limit);
    if m in SyncRows(end, cs) && end.messages[m].sentAt > after {
      K.WalkExact(SyncRows(end, asked), SyncRows(end, cs), ks, Some(after), limit, m);
      K.DistinctKeysNeverTie(SyncRows(end, asked), ks, Some(after), limit, m);
    }
  }

  /** A message sent after `after` in a requested conversation the user is in. */
  ghost predicate IsDue(w: World, user: string, requested: seq<string>, after: int, m: string) {
    && m in w.messages && w.messages[m].sentAt > after
    && w.messages[m].conversationId in requested && IsMember(w, w.messages[m].conversationId, user)
  }

  /**
   What a sync means: only messages due, each once, oldest first: without a limit all of
   them, and with one the first that many.
   */
  lemma SyncMeans(w: World, user: string, requested: seq<string>, after: int, limit: Option<nat>, ids: seq<string>)
    requires SyncAnswers(w, Authorized(w, user, requested), after, limit, ids)
    ensures forall m :: m in ids ==> IsDue(w, user, requested, after, m)
    ensures forall i, j :: 0 <= i < j < |ids| ==> ids[i] != ids[j] && w.messages[ids[i]].sentAt <= w.messages[ids[j]].sentAt
    ensures limit.None? ==> forall m :: IsDue(w, user, requested, after, m) ==> m in ids
    ensures limit.Some? ==> |ids| <= limit.value && forall m, n :: IsDue(w, user, requested, after, m) && m !in ids ==>
      |ids| == limit.value && (n in ids ==> w.messages[n].sentAt <= w.messages[m].sentAt)
  {
    var rows := SyncRows(w, Authorized(w, user, requested));
    forall m
      ensures IsDue(w, user, requested, after, m) <==> m in rows && K.Beyond(rows[m], Some(after))
    {
    }
  }
}
