/**
 Keyset pagination in general: rows with integer sort keys, pages in ascending
 order of key, each page starting strictly after the last key of the one before,
 while the table changes between pages.
 */
module Keyset {
  import opened Prelude

  /** Row ids with their sort keys. */
  type Table = map<string, int>

  predicate Beyond(key: int, bound: Option<int>) {
    bound.Some? ==> key > bound.value
  }

  ghost predicate Ascending(t: Table, ids: seq<string>) {
    && (forall id :: id in ids ==> id in t)
    && (forall i, j :: 0 <= i < j < |ids| ==> ids[i] != ids[j] && t[ids[i]] <= t[ids[j]])
  }

  /**
   What "order by key, take `n`" may answer: rows after the bound in ascending
   order, each once, and if any is left out then `n` are taken and none left out
   comes before one that is taken. Rows with equal keys come in any order.
   */
  ghost predicate Answers(t: Table, bound: Option<int>, n: nat, ids: seq<string>) {
    && Ascending(t, ids)
    && |ids| <= n
    && (forall id :: id in ids ==> Beyond(t[id], bound))
    && (forall id :: id in t && Beyond(t[id], bound) && id !in ids ==>
          |ids| == n && (n > 0 ==> t[ids[n - 1]] <= t[id]))
  }

  /** Every row after the bound is in `ids`. */
  ghost predicate Complete(t: Table, bound: Option<int>, ids: seq<string>) {
    forall id :: id in t && Beyond(t[id], bound) ==> id in ids
  }

  /** Fewer rows than asked for leave nothing behind. */
  lemma ShortIsComplete(t: Table, bound: Option<int>, limit: nat, ids: seq<string>)
    requires Answers(t, bound, limit, ids) && |ids| < limit
    ensures Complete(t, bound, ids)
  {
  }

  /** Asking for one row more than a page holds tells whether rows remain. */
  lemma OneMoreTells(t: Table, bound: Option<int>, limit: nat, records: seq<string>)
    requires Answers(t, bound, limit + 1, records)
    ensures |records| <= limit ==> Answers(t, bound, limit, records) && Complete(t, bound, records)
    ensures |records| > limit ==> Answers(t, bound, limit, records[..limit]) && !Complete(t, bound, records[..limit])
  {
    if |records| > limit {
      var page := records[..limit];
      assert records == page + [records[limit]];
      assert records[limit] in records && records[limit] !in page;
    }
  }

  /** What a query answers that has a limit or none. */
  ghost predicate AnswersQuery(t: Table, bound: Option<int>, limit: Option<nat>, ids: seq<string>) {
    if limit.Some? then Answers(t, bound, limit.value, ids)
    else Ascending(t, ids) && (forall id :: id in ids ==> Beyond(t[id], bound)) && Complete(t, bound, ids)
  }

  method Least(t: Table, s: set<string>) returns (least: string)
    requires s != {} && forall id :: id in s ==> id in t
    ensures least in s && forall id :: id in s ==> t[least] <= t[id]
  {
    least :| least in s;
    var rest := s - {least};
    while rest != {}
      invariant rest <= s && least in s
      invariant forall id :: id in s && id !in rest ==> t[least] <= t[id]
      decreases rest
    {
      var id :| id in rest;
      rest := rest - {id};
      if t[id] < t[least] {
        least := id;
      }
    }
  }

  /** The query "after the bound, in order of key, at most the limit": rows of equal keys come in any order. */
  method Query(t: Table, bound: Option<int>, limit: Option<nat>) returns (ids: seq<string>)
    ensures AnswersQuery(t, bound, limit, ids)
  {
    ids := [];
    var rest := set id | id in t && Beyond(t[id], bound);
    while rest != {} && (limit.None? || |ids| < limit.value)
      invariant Ascending(t, ids) && (limit.Some? ==> |ids| <= limit.value)
      invariant forall id :: id in t && Beyond(t[id], bound) <==> id in ids || id in rest
      invariant forall a, b :: a in ids && b in rest ==> a != b && t[a] <= t[b]
      decreases rest
    {
      var least := Least(t, rest);
      ids := ids + [least];
      rest := rest - {least};
    }
  }

  /** One page with the table it was read from. */
  datatype Page = Page(table: Table, ids: seq<string>)

  ghost predicate Within(a: Table, b: Table) {
    forall id :: id in a ==> id in b && b[id] == a[id]
  }

  predicate HasLast(p: Page) {
    |p.ids| > 0 && p.ids[|p.ids| - 1] in p.table
  }

  /** The cursor a page hands on: the key of its last row. */
  function Last(p: Page): int
    requires HasLast(p)
  {
    p.table[p.ids[|p.ids| - 1]]
  }

  /** The rows of a page, out of one row more. */
  function Cut(records: seq<string>, limit: nat): seq<string> {
    if |records| > limit then records[..limit] else records
  }

  /** The page cut from one row more, and whether it has a last row to hand on. */
  lemma CutPage(t: Table, bound: Option<int>, limit: nat, records: seq<string>)
    requires Answers(t, bound, limit + 1, records)
    ensures Answers(t, bound, limit, Cut(records, limit))
    ensures |records| > limit <==> !Complete(t, bound, Cut(records, limit))
    ensures Cut(records, limit) != [] ==> HasLast(Page(t, Cut(records, limit)))
    ensures |records| > limit ==> (Cut(records, limit) != [] <==> limit > 0)
  {
    OneMoreTells(t, bound, limit, records);
    var ids := Cut(records, limit);
    if ids != [] {
      assert ids[|ids| - 1] in ids;
    }
  }

  /** Part of a walk, or all of it: every page but the last is full and sets the bound of the next. */
  ghost predicate Steps(all: Table, pages: seq<Page>, bound: Option<int>, limit: nat)
    decreases |pages|
  {
    && pages != []
    && Within(pages[0].table, all)
    && Answers(pages[0].table, bound, limit, pages[0].ids)
    && (|pages| > 1 ==> |pages[0].ids| == limit > 0 && Steps(all, pages[1..], Some(Last(pages[0])), limit))
  }

  /** A finished walk: the last page leaves nothing behind. */
  ghost predicate Walk(all: Table, pages: seq<Page>, bound: Option<int>, limit: nat)
    decreases |pages|
  {
    && Steps(all, pages, bound, limit)
    && (if |pages| == 1 then Complete(pages[0].table, bound, pages[0].ids)
        else Walk(all, pages[1..], Some(Last(pages[0])), limit))
  }

  /** Everything a walk returns, in order. */
  ghost function Returned(pages: seq<Page>): seq<string>
    decreases |pages|
  {
    if pages == [] then [] else pages[0].ids + Returned(pages[1..])
  }

  lemma JoinAscends(t: Table, ids: seq<string>, rest: seq<string>, last: int)
    requires Ascending(t, ids) && Ascending(t, rest)
    requires forall id :: id in ids ==> t[id] <= last
    requires forall id :: id in rest ==> t[id] > last
    ensures Ascending(t, ids + rest)
  {
    var all := ids + rest;
    forall i, j | 0 <= i < j < |all|
      ensures all[i] != all[j] && t[all[i]] <= t[all[j]]
    {
      if i < |ids| <= j {
        assert ids[i] in ids && rest[j - |ids|] in rest;
      }
    }
  }

  lemma UpToLast(p: Page)
    requires Ascending(p.table, p.ids) && p.ids != []
    ensures HasLast(p) && forall id :: id in p.ids ==> p.table[id] <= Last(p)
  {
    assert p.ids[|p.ids| - 1] in p.ids;
  }

  /** What is returned comes in ascending order, each row once. */
  lemma {:induction false} StepsAscend(all: Table, pages: seq<Page>, bound: Option<int>, limit: nat)
    requires Steps(all, pages, bound, limit)
    ensures Ascending(all, Returned(pages))
    ensures forall id :: id in Returned(pages) ==> Beyond(all[id], bound)
    decreases |pages|
  {
    var ids := pages[0].ids;
    if |pages| == 1 {
      assert Returned(pages[1..]) == [];
      assert Returned(pages) == ids;
    } else {
      UpToLast(pages[0]);
      StepsAscend(all, pages[1..], Some(Last(pages[0])), limit);
      JoinAscends(all, ids, Returned(pages[1..]), Last(pages[0]));
    }
  }

  /** A row left out of a page that it ties with. */
  ghost predicate Tied(all: Table, pages: seq<Page>, id: string)
    requires id in all
    decreases |pages|
  {
    && |pages| > 1
    && ((HasLast(pages[0]) && all[id] == Last(pages[0]) && id !in pages[0].ids) || Tied(all, pages[1..], id))
  }

  /** The first page is the last one, or it goes past the key. */
  predicate Due(key: int, pages: seq<Page>)
    requires pages != []
  {
    |pages| == 1 || (HasLast(pages[0]) && key < Last(pages[0]))
  }

  /** Each row of interest is in the table by the time its page is read. */
  ghost predicate Seen(rows: Table, pages: seq<Page>)
    decreases |pages|
  {
    pages == [] ||
    (&& (forall id :: id in rows && Due(rows[id], pages) ==> id in pages[0].table)
     && Seen(rows, pages[1..]))
  }

  /** A full page before a walk is a walk. */
  lemma StepsMore(all: Table, first: Page, rest: seq<Page>, bound: Option<int>, limit: nat)
    requires Within(first.table, all) && Answers(first.table, bound, limit, first.ids)
    requires |first.ids| == limit > 0 && HasLast(first) && Steps(all, rest, Some(Last(first)), limit)
    ensures Steps(all, [first] + rest, bound, limit)
    ensures Walk(all, rest, Some(Last(first)), limit) ==> Walk(all, [first] + rest, bound, limit)
    ensures Returned([first] + rest) == first.ids + Returned(rest)
  {
    assert ([first] + rest)[1..] == rest;
  }

  lemma SeenMore(rows: Table, first: Page, rest: seq<Page>)
    requires rest != [] && Seen(rows, rest) && HasLast(first)
    requires forall id :: id in rows && rows[id] < Last(first) ==> id in first.table
    ensures Seen(rows, [first] + rest)
  {
    assert ([first] + rest)[1..] == rest;
  }

  lemma OnePage(all: Table, rows: Table, page: Page, bound: Option<int>, limit: nat)
    requires Within(page.table, all) && Answers(page.table, bound, limit, page.ids)
    requires forall id :: id in rows ==> id in page.table
    ensures Steps(all, [page], bound, limit) && Seen(rows, [page]) && Returned([page]) == page.ids
    ensures Complete(page.table, bound, page.ids) ==> Walk(all, [page], bound, limit)
  {
    assert [page][1..] == [] && Seen(rows, []) && Returned([]) == [];
  }

  /** A row before the bound is not returned and ties with no page. */
  lemma {:induction false} BehindBound(all: Table, pages: seq<Page>, bound: Option<int>, limit: nat, id: string)
    requires Walk(all, pages, bound, limit) && id in all && !Beyond(all[id], bound)
    ensures id !in Returned(pages) && !Tied(all, pages, id)
    decreases |pages|
  {
    StepsAscend(all, pages, bound, limit);
    if |pages| > 1 {
      assert pages[0].ids[limit - 1] in pages[0].ids;
      BehindBound(all, pages[1..], Some(Last(pages[0])), limit, id);
    }
  }

  lemma ReturnedSplits(pages: seq<Page>, id: string)
    requires pages != []
    ensures id in Returned(pages) <==> id in pages[0].ids || id in Returned(pages[1..])
  {
  }

  /** A row the first page reaches, but for its last key, is on it. */
  lemma ReachedIsReturned(all: Table, rows: Table, pages: seq<Page>, bound: Option<int>, limit: nat, id: string)
    requires Steps(all, pages, bound, limit) && Within(rows, all) && Seen(rows, pages) && |pages| > 1
    requires id in rows && Beyond(rows[id], bound) && HasLast(pages[0]) && rows[id] <= Last(pages[0])
    ensures id in pages[0].ids || rows[id] == Last(pages[0])
  {
    if rows[id] < Last(pages[0]) {
      assert id in pages[0].table && pages[0].table[id] == all[id];
    }
  }

  /** Main result: a row after the bound is returned if and only if it ties with no page that left it out. */
  lemma {:induction false} WalkExact(all: Table, rows: Table, pages: seq<Page>, bound: Option<int>, limit: nat, id: string)
    requires Walk(all, pages, bound, limit) && Within(rows, all) && Seen(rows, pages)
    requires id in rows && Beyond(rows[id], bound)
    ensures id in Returned(pages) <==> !Tied(all, pages, id)
    decreases |pages|
  {
    ReturnedSplits(pages, id);
    if |pages| == 1 {
      assert id in pages[0].table;
    } else {
      UpToLast(pages[0]);
      if rows[id] > Last(pages[0]) {
        assert id !in pages[0].ids;
        WalkExact(all, rows, pages[1..], Some(Last(pages[0])), limit, id);
      } else {
        ReachedIsReturned(all, rows, pages, bound, limit, id);
        BehindBound(all, pages[1..], Some(Last(pages[0])), limit, id);
      }
    }
  }

  ghost predicate DistinctKeys(t: Table) {
    forall a, b :: a in t && b in t && t[a] == t[b] ==> a == b
  }

  /** With different keys for different rows nothing ties. */
  lemma {:induction false} DistinctKeysNeverTie(all: Table, pages: seq<Page>, bound: Option<int>, limit: nat, id: string)
    requires Walk(all, pages, bound, limit) && id in all
    requires DistinctKeys(all)
    ensures !Tied(all, pages, id)
    decreases |pages|
  {
    if |pages| > 1 {
      DistinctKeysNeverTie(all, pages[1..], Some(Last(pages[0])), limit, id);
    }
  }

  /** Where a row ties: some page but the last leaves it out and has its key last. */
  lemma {:induction false} TiedSomewhere(all: Table, pages: seq<Page>, id: string)
    requires id in all
    ensures Tied(all, pages, id) <==> exists i :: TiesWith(all, pages, i, id)
    decreases |pages|
  {
    if |pages| > 1 {
      var rest := pages[1..];
      TiedSomewhere(all, rest, id);
      if i :| TiesWith(all, rest, i, id) {
        assert rest[i] == pages[i + 1];
        assert TiesWith(all, pages, i + 1, id);
      }
      if TiesWith(all, pages, 0, id) {
        assert Tied(all, pages, id);
      }
      forall i | TiesWith(all, pages, i, id) && i > 0
        ensures TiesWith(all, rest, i - 1, id)
      {
        assert rest[i - 1] == pages[i];
      }
    }
  }

  ghost predicate TiesWith(all: Table, pages: seq<Page>, i: int, id: string)
    requires id in all
  {
    0 <= i < |pages| - 1 && HasLast(pages[i]) && all[id] == Last(pages[i]) && id !in pages[i].ids
  }

  /** Every page but the last brings as many rows as the limit. */
  lemma {:induction false} FullPages(all: Table, pages: seq<Page>, bound: Option<int>, limit: nat)
    requires Steps(all, pages, bound, limit)
    ensures |Returned(pages)| == (|pages| - 1) * limit + |pages[|pages| - 1].ids|
    decreases |pages|
  {
    if |pages| == 1 {
      assert Returned(pages[1..]) == [];
    } else {
      FullPages(all, pages[1..], Some(Last(pages[0])), limit);
      assert (|pages| - 1) * limit == (|pages| - 2) * limit + limit;
    }
  }

  lemma {:induction false} NoMoreThan(ids: seq<string>, s: set<string>)
    requires forall id :: id in ids ==> id in s
    requires forall i, j :: 0 <= i < j < |ids| ==> ids[i] != ids[j]
    ensures |ids| <= |s|
  {
    if ids != [] {
      var front, last := ids[..|ids| - 1], ids[|ids| - 1];
      assert ids == front + [last] && last !in front;
      NoMoreThan(front, s - {last});
    }
  }

  /**
   Following the pages over `rows` cannot go on: whether or not a walk is finished,
   its pages hold different rows, and all but the last are full.
   */
  lemma StepsAreBounded(all: Table, rows: Table, pages: seq<Page>, bound: Option<int>, limit: nat)
    requires Steps(all, pages, bound, limit)
    requires forall id :: id in Returned(pages) ==> id in rows
    ensures (|pages| - 1) * limit + |pages[|pages| - 1].ids| <= |rows|
  {
    StepsAscend(all, pages, bound, limit);
    FullPages(all, pages, bound, limit);
    NoMoreThan(Returned(pages), rows.Keys);
    assert |rows.Keys| == |rows|;
  }

  /** The last row has the greatest key. */
  lemma LastIsGreatest(t: Table, ids: seq<string>, id: string)
    requires Ascending(t, ids) && id in ids
    ensures t[id] <= t[ids[|ids| - 1]]
  {
  }

  lemma WithoutLast(t: Table, ids: seq<string>)
    requires Ascending(t, ids) && ids != []
    ensures var front := ids[..|ids| - 1];
      && Ascending(t, front)
      && forall id :: id in front <==> id in ids && id != ids[|ids| - 1]
  {
    var front, last := ids[..|ids| - 1], ids[|ids| - 1];
    assert ids == front + [last];
    assert forall i :: 0 <= i < |front| ==> ids[i] != last;
  }

  /** With different keys there is only one way to list the same rows. */
  lemma {:induction false} OneListing(t: Table, a: seq<string>, b: seq<string>)
    requires DistinctKeys(t) && Ascending(t, a) && Ascending(t, b)
    requires forall id :: id in a <==> id in b
    ensures a == b
  {
    if a == [] {
      NoMoreThan(b, {});
    } else {
      assert a[0] in b;
      var x, y := a[|a| - 1], b[|b| - 1];
      assert x in b && y in a;
      LastIsGreatest(t, a, y);
      LastIsGreatest(t, b, x);
      WithoutLast(t, a);
      WithoutLast(t, b);
      OneListing(t, a[..|a| - 1], b[..|b| - 1]);
      assert a == a[..|a| - 1] + [x] && b == b[..|b| - 1] + [y];
    }
  }
}
