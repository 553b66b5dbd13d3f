/**
 One-time prekeys. `KeyRepository` keeps, for each user, the list of keys left.
 The ledger beside it keeps every key ever deposited since the last upload and
 which positions were taken. The list is proved to behave like the ledger, and
 what holds of the ledger then holds of the list: nothing is lost or served
 twice, and fetches go in order.
 */
module PreKeyModel {
  import opened Prelude

  datatype PreKey = PreKey(keyId: int, publicKey: string)

  datatype SignedPreKey = SignedPreKey(keyId: int, publicKey: string, signature: string)

  /** The parts of a bundle that are only ever replaced as a whole. */
  datatype Head = Head(identityKey: string, signedPreKey: SignedPreKey, registrationId: int)

  datatype Bundle = Bundle(head: Head, preKeys: seq<PreKey>)

  datatype Request =
    | Upload(user: string, bundle: Bundle)
    | Fetch(user: string)
    | Consume(user: string, keyId: int)
    | Append(user: string, keys: seq<PreKey>)

  datatype Answer =
    | Done
    | NoBundle
    | NotThere
    | Bundled(head: Head, key: Option<PreKey>, remaining: nat)
    | Taken(preKey: PreKey)

  // ------------------------------------------------------ the key column

  /** Where the first key with this id is, or the length. */
  function FindIndex(keys: seq<PreKey>, keyId: int): (i: nat)
    ensures i <= |keys|
    ensures i < |keys| ==> keys[i].keyId == keyId
    ensures forall k :: 0 <= k < i ==> keys[k].keyId != keyId
  {
    if keys == [] then 0
    else if keys[0].keyId == keyId then 0
    else 1 + FindIndex(keys[1..], keyId)
  }

  function Without<T>(s: seq<T>, i: nat): seq<T>
    requires i < |s|
  {
    s[..i] + s[i + 1..]
  }

  function Step(store: map<string, Bundle>, q: Request): (map<string, Bundle>, Answer) {
    match q
    case Upload(u, b) => (store[u := b], Done)
    case Fetch(u) =>
      if u !in store then (store, NoBundle)
      else if store[u].preKeys == [] then (store, Bundled(store[u].head, None, 0))
      else
        var rest := store[u].preKeys[1..];
        (store[u := store[u].(preKeys := rest)], Bundled(store[u].head, Some(store[u].preKeys[0]), |rest|))
    case Consume(u, id) =>
      if u !in store then (store, NotThere)
      else
        var keys := store[u].preKeys;
        var i := FindIndex(keys, id);
        if i == |keys| then (store, NotThere)
        else (store[u := store[u].(preKeys := Without(keys, i))], Taken(keys[i]))
    case Append(u, keys) =>
      if u !in store then (store, NoBundle)
      else (store[u := store[u].(preKeys := store[u].preKeys + keys)], Done)
  }

  function Run(store: map<string, Bundle>, qs: seq<Request>): (map<string, Bundle>, seq<Answer>)
    decreases |qs|
  {
    if qs == [] then (store, [])
    else
      var one := Step(store, qs[0]);
      var rest := Run(one.0, qs[1..]);
      (rest.0, [one.1] + rest.1)
  }

  // ---------------------------------------------------------- the ledger

  /** All keys deposited since the last upload, and the positions taken, in order, with or without asking for an id. */
  datatype Taking = Taking(position: nat, fetched: bool)

  datatype Ledger = Ledger(head: Head, deposits: seq<PreKey>, takings: seq<Taking>)

  ghost function TakenOf(takings: seq<Taking>): set<nat> {
    set t | t in takings :: t.position
  }

  /** The keys not taken, in order of deposit. */
  ghost function Left(deposits: seq<PreKey>, taken: set<nat>): seq<PreKey> {
    if deposits == [] then []
    else
      var n := |deposits| - 1;
      Left(deposits[..n], taken) + if n in taken then [] else [deposits[n]]
  }

  predicate Wanted(k: PreKey, keyId: Option<int>) {
    keyId.Some? ==> k.keyId == keyId.value
  }

  ghost predicate IsFree(deposits: seq<PreKey>, taken: set<nat>, keyId: Option<int>, p: nat) {
    p < |deposits| && p !in taken && Wanted(deposits[p], keyId)
  }

  /** The earliest deposit that is free, among those with the id asked for. */
  ghost predicate IsEarliest(deposits: seq<PreKey>, taken: set<nat>, keyId: Option<int>, p: nat) {
    IsFree(deposits, taken, keyId, p) && forall q: nat :: IsFree(deposits, taken, keyId, q) ==> p <= q
  }

  /** What one request may answer, in terms of the ledger alone. */
  ghost predicate LedgerStep(a: map<string, Ledger>, q: Request, b: map<string, Ledger>, r: Answer) {
    match q
    case Upload(u, bundle) => b == a[u := Ledger(bundle.head, bundle.preKeys, [])] && r == Done
    case Fetch(u) =>
      if u !in a then b == a && r == NoBundle
      else Takes(a, u, None, b, r)
    case Consume(u, id) =>
      if u !in a then b == a && r == NotThere
      else Takes(a, u, Some(id), b, r)
    case Append(u, keys) =>
      if u !in a then b == a && r == NoBundle
      else b == a[u := a[u].(deposits := a[u].deposits + keys)] && r == Done
  }

  ghost predicate Takes(a: map<string, Ledger>, u: string, keyId: Option<int>, b: map<string, Ledger>, r: Answer)
    requires u in a
  {
    var l := a[u];
    var taken := TakenOf(l.takings);
    || (&& b == a && (forall p: nat :: !IsFree(l.deposits, taken, keyId, p))
        && r == (if keyId.None? then Bundled(l.head, None, 0) else NotThere))
    || exists p: nat ::
         && IsEarliest(l.deposits, taken, keyId, p)
         && b == a[u := l.(takings := l.takings + [Taking(p, keyId.None?)])]
         && r == (if keyId.None? then Bundled(l.head, Some(l.deposits[p]), |Left(l.deposits, taken + {p})|) else Taken(l.deposits[p]))
  }

  /** A column of keys stands for a ledger. */
  ghost predicate StandsFor(store: map<string, Bundle>, ledgers: map<string, Ledger>) {
    && store.Keys == ledgers.Keys
    && forall u :: u in store ==>
         && store[u].head == ledgers[u].head
         && store[u].preKeys == Left(ledgers[u].deposits, TakenOf(ledgers[u].takings))
  }

  // ------------------------------------------------------- what is left

  lemma {:induction false} LeftOfMore(deposits: seq<PreKey>, more: seq<PreKey>, taken: set<nat>)
    requires forall p :: p in taken ==> p < |deposits|
    ensures Left(deposits + more, taken) == Left(deposits, taken) + more
  {
    if more == [] {
      assert deposits + more == deposits;
    } else {
      var n := |more| - 1;
      assert (deposits + more)[..|deposits| + n] == deposits + more[..n];
      LeftOfMore(deposits, more[..n], taken);
      assert more[..n] + [more[n]] == more;
    }
  }

  lemma {:induction false} AllLeft(deposits: seq<PreKey>)
    ensures Left(deposits, {}) == deposits
  {
    assert [] + deposits == deposits;
    LeftOfMore([], deposits, {});
  }

  /** The position of the key that stands at index `i` of what is left. */
  ghost function PositionOf(deposits: seq<PreKey>, taken: set<nat>, i: nat): (p: nat)
    requires i < |Left(deposits, taken)|
    ensures p < |deposits| && p !in taken && deposits[p] == Left(deposits, taken)[i]
    ensures |Left(deposits[..p], taken)| == i
  {
    var n := |deposits| - 1;
    if i < |Left(deposits[..n], taken)| then
      var p := PositionOf(deposits[..n], taken, i);
      assert deposits[..n][..p] == deposits[..p];
      p
    else n
  }

  /** A free position stands in what is left at the index that counts the free positions before it. */
  lemma {:induction false} FreeStands(deposits: seq<PreKey>, taken: set<nat>, p: nat)
    requires p < |deposits| && p !in taken
    ensures |Left(deposits[..p], taken)| < |Left(deposits, taken)|
    ensures Left(deposits, taken)[|Left(deposits[..p], taken)|] == deposits[p]
    decreases |deposits|
  {
    var n := |deposits| - 1;
    if p < n {
      FreeStands(deposits[..n], taken, p);
      assert deposits[..n][..p] == deposits[..p];
    }
  }

  lemma LaterStandsLater(deposits: seq<PreKey>, taken: set<nat>, p: nat, q: nat)
    requires p < q <= |deposits| && p !in taken
    ensures |Left(deposits[..p], taken)| < |Left(deposits[..q], taken)|
  {
    FreeStands(deposits[..q], taken, p);
    assert deposits[..q][..p] == deposits[..p];
  }

  lemma WithoutFront<T>(front: seq<T>, tail: seq<T>, i: nat)
    requires i < |front|
    ensures Without(front + tail, i) == Without(front, i) + tail
  {
  }

  lemma WithoutLast<T>(front: seq<T>, x: T)
    ensures Without(front + [x], |front|) == front
  {
  }

  /** What the last deposit adds to what is left. */
  ghost function Tail(deposits: seq<PreKey>, taken: set<nat>): seq<PreKey>
    requires deposits != []
  {
    if |deposits| - 1 in taken then [] else [deposits[|deposits| - 1]]
  }

  lemma LeftSplits(deposits: seq<PreKey>, taken: set<nat>)
    requires deposits != []
    ensures Left(deposits, taken) == Left(deposits[..|deposits| - 1], taken) + Tail(deposits, taken)
  {
  }

  /** Taking a position removes the key at its index. */
  lemma {:induction false} TakingRemoves(deposits: seq<PreKey>, taken: set<nat>, p: nat)
    requires p < |deposits| && p !in taken
    ensures |Left(deposits[..p], taken)| < |Left(deposits, taken)|
    ensures Left(deposits, taken + {p}) == Without(Left(deposits, taken), |Left(deposits[..p], taken)|)
    decreases |deposits|
  {
    var n, more, i := |deposits| - 1, taken + {p}, |Left(deposits[..p], taken)|;
    var front := deposits[..n];
    FreeStands(deposits, taken, p);
    LeftSplits(deposits, taken);
    LeftSplits(deposits, more);
    if p < n {
      assert front[..p] == deposits[..p];
      TakingRemoves(front, taken, p);
      assert Tail(deposits, more) == Tail(deposits, taken);
      WithoutFront(Left(front, taken), Tail(deposits, taken), i);
    } else {
      OthersUntouched(front, taken, p);
      assert Tail(deposits, more) == [] && Tail(deposits, taken) == [deposits[n]];
      assert Left(front, taken) + [] == Left(front, taken);
      WithoutLast(Left(front, taken), deposits[n]);
    }
  }

  lemma {:induction false} OthersUntouched(deposits: seq<PreKey>, taken: set<nat>, p: nat)
    requires p >= |deposits|
    ensures Left(deposits, taken + {p}) == Left(deposits, taken)
  {
    if deposits != [] {
      OthersUntouched(deposits[..|deposits| - 1], taken, p);
    }
  }

  /** The first wanted key of the column is the earliest wanted deposit that is free. */
  lemma FirstIsEarliest(deposits: seq<PreKey>, taken: set<nat>, keyId: Option<int>, i: nat)
    requires i < |Left(deposits, taken)| && Wanted(Left(deposits, taken)[i], keyId)
    requires forall k :: 0 <= k < i ==> !Wanted(Left(deposits, taken)[k], keyId)
    ensures IsEarliest(deposits, taken, keyId, PositionOf(deposits, taken, i))
  {
    var p := PositionOf(deposits, taken, i);
    forall q: nat | IsFree(deposits, taken, keyId, q)
      ensures p <= q
    {
      FreeStands(deposits, taken, q);
      if q < p {
        LaterStandsLater(deposits, taken, q, p);
      }
    }
  }

  lemma NoneIsFree(deposits: seq<PreKey>, taken: set<nat>, keyId: Option<int>)
    requires forall k :: 0 <= k < |Left(deposits, taken)| ==> !Wanted(Left(deposits, taken)[k], keyId)
    ensures forall p: nat :: !IsFree(deposits, taken, keyId, p)
  {
    forall p: nat | p < |deposits| && p !in taken
      ensures !Wanted(deposits[p], keyId)
    {
      FreeStands(deposits, taken, p);
    }
  }

  // ---------------------------------------------------------- refinement

  ghost predicate LedgerSound(l: Ledger) {
    && (forall t :: t in l.takings ==> t.position < |l.deposits|)
    && (forall i, j :: 0 <= i < j < |l.takings| ==> l.takings[i].position != l.takings[j].position)
  }

  /** Whatever a fetch took, everything deposited before it is taken too; fetches take ever later positions. */
  ghost predicate InOrder(l: Ledger) {
    && (forall t, q: nat :: t in l.takings && t.fetched && q <= t.position ==> q in TakenOf(l.takings))
    && (forall i, j :: 0 <= i < j < |l.takings| && l.takings[i].fetched && l.takings[j].fetched ==>
          l.takings[i].position < l.takings[j].position)
  }

  ghost predicate Sound(a: map<string, Ledger>) {
    forall u :: u in a ==> LedgerSound(a[u]) && InOrder(a[u])
  }

  lemma TakenOfMore(takings: seq<Taking>, t: Taking)
    ensures TakenOf(takings + [t]) == TakenOf(takings) + {t.position}
  {
    forall p
      ensures p in TakenOf(takings + [t]) <==> p in TakenOf(takings) + {t.position}
    {
      if p in TakenOf(takings) {
        var x :| x in takings && x.position == p;
        assert x in takings + [t];
      }
      assert t in takings + [t];
    }
  }

  /** What is free is at no position taken. */
  lemma FreeIsNew(l: Ledger, p: nat, keyId: Option<int>)
    requires IsFree(l.deposits, TakenOf(l.takings), keyId, p)
    ensures forall i :: 0 <= i < |l.takings| ==> l.takings[i].position != p
  {
    forall i | 0 <= i < |l.takings|
      ensures l.takings[i].position in TakenOf(l.takings)
    {
      assert l.takings[i] in l.takings;
    }
  }

  /** A fetch takes a position beyond all fetched before, with everything before it taken. */
  lemma FetchIsBeyond(l: Ledger, p: nat)
    requires InOrder(l) && IsEarliest(l.deposits, TakenOf(l.takings), None, p)
    ensures forall q: nat :: q < p ==> q in TakenOf(l.takings)
    ensures forall i :: 0 <= i < |l.takings| && l.takings[i].fetched ==> l.takings[i].position < p
  {
    forall q: nat | q < p
      ensures q in TakenOf(l.takings)
    {
      assert !IsFree(l.deposits, TakenOf(l.takings), None, q);
    }
    forall i | 0 <= i < |l.takings| && l.takings[i].fetched
      ensures l.takings[i].position < p
    {
      assert l.takings[i] in l.takings && p !in TakenOf(l.takings);
    }
  }

  lemma TakingInOrder(l: Ledger, p: nat, keyId: Option<int>)
    requires InOrder(l) && IsEarliest(l.deposits, TakenOf(l.takings), keyId, p)
    ensures InOrder(l.(takings := l.takings + [Taking(p, keyId.None?)]))
  {
    TakenOfMore(l.takings, Taking(p, keyId.None?));
    if keyId.None? {
      FetchIsBeyond(l, p);
    }
  }

  lemma TakingSound(l: Ledger, p: nat, keyId: Option<int>)
    requires LedgerSound(l) && InOrder(l) && IsEarliest(l.deposits, TakenOf(l.takings), keyId, p)
    ensures var m := l.(takings := l.takings + [Taking(p, keyId.None?)]); LedgerSound(m) && InOrder(m)
  {
    FreeIsNew(l, p, keyId);
    TakingInOrder(l, p, keyId);
  }

  /** Taking the `i`th key left of one ledger. */
  lemma TakeOne(l: Ledger, keyId: Option<int>, i: nat) returns (p: nat)
    requires LedgerSound(l) && InOrder(l)
    requires var keys := Left(l.deposits, TakenOf(l.takings));
      i < |keys| && Wanted(keys[i], keyId) && forall k :: 0 <= k < i ==> !Wanted(keys[k], keyId)
    ensures IsEarliest(l.deposits, TakenOf(l.takings), keyId, p)
    ensures var keys, m := Left(l.deposits, TakenOf(l.takings)), l.(takings := l.takings + [Taking(p, keyId.None?)]);
      && l.deposits[p] == keys[i]
      && Left(l.deposits, TakenOf(l.takings) + {p}) == Without(keys, i)
      && Left(m.deposits, TakenOf(m.takings)) == Without(keys, i)
      && LedgerSound(m) && InOrder(m)
  {
    var taken := TakenOf(l.takings);
    p := PositionOf(l.deposits, taken, i);
    FirstIsEarliest(l.deposits, taken, keyId, i);
    TakingRemoves(l.deposits, taken, p);
    TakenOfMore(l.takings, Taking(p, keyId.None?));
    TakingSound(l, p, keyId);
  }

  /** Taking the `i`th key of the column of one user. */
  lemma TakeRefines(store: map<string, Bundle>, a: map<string, Ledger>, u: string, keyId: Option<int>, i: nat) returns (b: map<string, Ledger>)
    requires StandsFor(store, a) && Sound(a) && u in store && i < |store[u].preKeys|
    requires Wanted(store[u].preKeys[i], keyId) && forall k :: 0 <= k < i ==> !Wanted(store[u].preKeys[k], keyId)
    ensures StandsFor(store[u := store[u].(preKeys := Without(store[u].preKeys, i))], b) && Sound(b)
    ensures var r := if keyId.None? then Bundled(store[u].head, Some(store[u].preKeys[i]), |store[u].preKeys| - 1)
                     else Taken(store[u].preKeys[i]);
      Takes(a, u, keyId, b, r)
  {
    var p := TakeOne(a[u], keyId, i);
    b := a[u := a[u].(takings := a[u].takings + [Taking(p, keyId.None?)])];
  }

  lemma NothingRefines(store: map<string, Bundle>, a: map<string, Ledger>, u: string, keyId: Option<int>)
    requires StandsFor(store, a) && u in store
    requires forall k :: 0 <= k < |store[u].preKeys| ==> !Wanted(store[u].preKeys[k], keyId)
    ensures Takes(a, u, keyId, a, if keyId.None? then Bundled(store[u].head, None, 0) else NotThere)
  {
    NoneIsFree(a[u].deposits, TakenOf(a[u].takings), keyId);
  }

  lemma UploadRefines(store: map<string, Bundle>, a: map<string, Ledger>, u: string, bundle: Bundle)
    requires StandsFor(store, a) && Sound(a)
    ensures var b := a[u := Ledger(bundle.head, bundle.preKeys, [])]; StandsFor(store[u := bundle], b) && Sound(b)
  {
    AllLeft(bundle.preKeys);
    assert TakenOf([]) == {};
  }

  lemma AppendRefines(store: map<string, Bundle>, a: map<string, Ledger>, u: string, keys: seq<PreKey>)
    requires StandsFor(store, a) && Sound(a) && u in store
    ensures var b := a[u := a[u].(deposits := a[u].deposits + keys)];
      StandsFor(store[u := store[u].(preKeys := store[u].preKeys + keys)], b) && Sound(b)
  {
    assert LedgerSound(a[u]) && InOrder(a[u]);
    LeftOfMore(a[u].deposits, keys, TakenOf(a[u].takings));
  }

  /** One request on the column answers as the ledger allows, and the new column stands for the new ledger. */
  lemma StepRefines(store: map<string, Bundle>, a: map<string, Ledger>, q: Request) returns (b: map<string, Ledger>)
    requires StandsFor(store, a) && Sound(a)
    ensures LedgerStep(a, q, b, Step(store, q).1)
    ensures StandsFor(Step(store, q).0, b) && Sound(b)
  {
    var u := q.user;
    b := a;
    if q.Upload? {
      UploadRefines(store, a, u, q.bundle);
      b := a[u := Ledger(q.bundle.head, q.bundle.preKeys, [])];
    } else if u in store {
      if q.Append? {
        AppendRefines(store, a, u, q.keys);
        b := a[u := a[u].(deposits := a[u].deposits + q.keys)];
      } else if q.Fetch? {
        b := FetchRefines(store, a, u);
      } else {
        b := ConsumeRefines(store, a, u, q.keyId);
      }
    }
  }

  lemma FetchRefines(store: map<string, Bundle>, a: map<string, Ledger>, u: string) returns (b: map<string, Ledger>)
    requires StandsFor(store, a) && Sound(a) && u in store
    ensures Takes(a, u, None, b, Step(store, Fetch(u)).1)
    ensures StandsFor(Step(store, Fetch(u)).0, b) && Sound(b)
  {
    if store[u].preKeys == [] {
      NothingRefines(store, a, u, None);
      b := a;
    } else {
      b := TakeRefines(store, a, u, None, 0);
      assert Without(store[u].preKeys, 0) == store[u].preKeys[1..];
    }
  }

  lemma ConsumeRefines(store: map<string, Bundle>, a: map<string, Ledger>, u: string, id: int) returns (b: map<string, Ledger>)
    requires StandsFor(store, a) && Sound(a) && u in store
    ensures Takes(a, u, Some(id), b, Step(store, Consume(u, id)).1)
    ensures StandsFor(Step(store, Consume(u, id)).0, b) && Sound(b)
  {
    var i := FindIndex(store[u].preKeys, id);
    if i == |store[u].preKeys| {
      NothingRefines(store, a, u, Some(id));
      b := a;
    } else {
      b := TakeRefines(store, a, u, Some(id), i);
    }
  }

  /** A run of the ledger: some ledgers in between, each step as `LedgerStep` allows. */
  ghost predicate LedgerRun(a: map<string, Ledger>, qs: seq<Request>, b: map<string, Ledger>, rs: seq<Answer>)
    decreases |qs|
  {
    if qs == [] then b == a && rs == []
    else rs != [] && exists m :: LedgerStep(a, qs[0], m, rs[0]) && LedgerRun(m, qs[1..], b, rs[1..])
  }

  // ---------------------------------------------------------- main results

  /**
   Every run of the key columns is a run of the ledger with the same answers:
   each fetch serves the earliest key not taken, each consumption by id the
   earliest with that id not taken, and either comes away empty only when there
   is none. On the ledger no position is taken twice, and fetches take ever
   later positions.
   */
  lemma {:induction false} ColumnsRefineLedgers(store: map<string, Bundle>, a: map<string, Ledger>, qs: seq<Request>)
      returns (b: map<string, Ledger>)
    requires StandsFor(store, a) && Sound(a)
    ensures LedgerRun(a, qs, b, Run(store, qs).1)
    ensures StandsFor(Run(store, qs).0, b) && Sound(b)
    decreases |qs|
  {
    if qs == [] {
      b := a;
    } else {
      var m := StepRefines(store, a, qs[0]);
      b := ColumnsRefineLedgers(Step(store, qs[0]).0, m, qs[1..]);
      var rs := Run(store, qs).1;
      assert rs[0] == Step(store, qs[0]).1 && rs[1..] == Run(Step(store, qs[0]).0, qs[1..]).1;
    }
  }

  ghost function ServedKey(q: Request, r: Answer, u: string): seq<PreKey> {
    if q.user != u then []
    else if r.Bundled? && r.key.Some? then [r.key.value]
    else if r.Taken? then [r.preKey]
    else []
  }

  /** The keys one user's correspondents were given, by fetch or by id. */
  ghost function Served(qs: seq<Request>, rs: seq<Answer>, u: string): seq<PreKey>
    requires |qs| == |rs|
  {
    if qs == [] then [] else ServedKey(qs[0], rs[0], u) + Served(qs[1..], rs[1..], u)
  }

  ghost function AppendedBy(q: Request, u: string): seq<PreKey> {
    if q.Append? && q.user == u then q.keys else []
  }

  ghost function Appended(qs: seq<Request>, u: string): seq<PreKey> {
    if qs == [] then [] else AppendedBy(qs[0], u) + Appended(qs[1..], u)
  }

  ghost predicate NoUpload(qs: seq<Request>, u: string) {
    forall q :: q in qs ==> !(q.Upload? && q.user == u)
  }

  lemma {:induction false} OneAnswerEach(store: map<string, Bundle>, qs: seq<Request>)
    ensures |Run(store, qs).1| == |qs|
    decreases |qs|
  {
    if qs != [] {
      OneAnswerEach(Step(store, qs[0]).0, qs[1..]);
    }
  }

  lemma TakeOut<T>(s: seq<T>, i: nat)
    requires i < |s|
    ensures multiset(s) == multiset([s[i]]) + multiset(Without(s, i))
  {
    assert s == s[..i] + [s[i]] + s[i + 1..];
  }

  lemma TakingConserves(store: map<string, Bundle>, q: Request)
    requires q.user in store && (q.Fetch? || q.Consume?)
    ensures var v := Step(store, q);
      && q.user in v.0
      && multiset(ServedKey(q, v.1, q.user)) + multiset(v.0[q.user].preKeys) == multiset(store[q.user].preKeys)
  {
    var keys, v := store[q.user].preKeys, Step(store, q);
    var i := if q.Fetch? then 0 else FindIndex(keys, q.keyId);
    if i < |keys| {
      TakeOut(keys, i);
      assert q.Fetch? ==> Without(keys, 0) == keys[1..];
      assert v.0[q.user].preKeys == Without(keys, i);
      assert ServedKey(q, v.1, q.user) == [keys[i]];
    } else {
      assert ServedKey(q, v.1, q.user) == [] && v.0 == store;
    }
  }

  lemma StepConserves(store: map<string, Bundle>, q: Request, u: string)
    requires u in store && !(q.Upload? && q.user == u)
    ensures var v := Step(store, q);
      && u in v.0
      && multiset(ServedKey(q, v.1, u)) + multiset(v.0[u].preKeys) == multiset(store[u].preKeys) + multiset(AppendedBy(q, u))
  {
    var v := Step(store, q);
    if q.user == u && !q.Append? {
      TakingConserves(store, q);
      assert AppendedBy(q, u) == [];
    } else {
      assert ServedKey(q, v.1, u) == [];
      assert v.0[u].preKeys == store[u].preKeys + AppendedBy(q, u);
    }
  }

  lemma Rearrange(a: multiset<PreKey>, b: multiset<PreKey>, c: multiset<PreKey>, d: multiset<PreKey>, x: multiset<PreKey>, y: multiset<PreKey>, z: multiset<PreKey>)
    requires a + x == y + b && c + z == x + d
    ensures (a + c) + z == y + (b + d)
  {
    assert (a + c) + z == a + (c + z);
    assert a + (x + d) == (a + x) + d;
    assert (y + b) + d == y + (b + d);
  }

  /**
   Between two uploads of a user's bundle, whatever is served by fetches and
   consumed by id, together with what remains, is what was uploaded together
   with what was appended.
   */
  lemma {:induction false} KeysAreConserved(store: map<string, Bundle>, qs: seq<Request>, u: string)
    requires u in store && NoUpload(qs, u)
    ensures |Run(store, qs).1| == |qs| && u in Run(store, qs).0
    ensures multiset(Served(qs, Run(store, qs).1, u)) + multiset(Run(store, qs).0[u].preKeys)
         == multiset(store[u].preKeys) + multiset(Appended(qs, u))
    decreases |qs|
  {
    OneAnswerEach(store, qs);
    if qs != [] {
      var q, v := qs[0], Step(store, qs[0]);
      StepConserves(store, q, u);
      KeysAreConserved(v.0, qs[1..], u);
      var rs, w := Run(store, qs).1, Run(store, qs).0;
      assert rs[0] == v.1 && rs[1..] == Run(v.0, qs[1..]).1;
      Rearrange(multiset(ServedKey(q, v.1, u)), multiset(AppendedBy(q, u)),
                multiset(Served(qs[1..], rs[1..], u)), multiset(Appended(qs[1..], u)),
                multiset(v.0[u].preKeys), multiset(store[u].preKeys), multiset(w[u].preKeys));
    }
  }

  ghost predicate DistinctIds(keys: seq<PreKey>) {
    forall i, j :: 0 <= i < j < |keys| ==> keys[i].keyId != keys[j].keyId
  }

  lemma {:induction false} DistinctKeepsOne(keys: seq<PreKey>, k: PreKey)
    requires DistinctIds(keys)
    ensures multiset(keys)[k] <= 1
  {
    if keys != [] {
      var front, last := keys[..|keys| - 1], keys[|keys| - 1];
      assert keys == front + [last];
      DistinctKeepsOne(front, k);
      assert k == last ==> k !in front;
    }
  }

  /** Any two places of a list whose keys all come from distinct ids differ in id. */
  lemma PartsAreDistinct(keys: seq<PreKey>, all: seq<PreKey>)
    requires DistinctIds(all) && multiset(keys) <= multiset(all)
    ensures DistinctIds(keys)
  {
    forall i, j | 0 <= i < j < |keys|
      ensures keys[i].keyId != keys[j].keyId
    {
      assert keys[i] in multiset(keys) && keys[j] in multiset(keys);
      assert keys[i] in all && keys[j] in all;
      if keys[i] == keys[j] {
        assert keys == keys[..j] + [keys[j]] + keys[j + 1..];
        assert keys[i] == keys[..j][i] && keys[i] in multiset(keys[..j]);
        DistinctKeepsOne(all, keys[j]);
      }
    }
  }

  /** When the ids uploaded and appended are distinct, no id is given out twice, and none given out remains. */
  lemma NoKeyTwice(store: map<string, Bundle>, qs: seq<Request>, u: string)
    requires u in store && NoUpload(qs, u) && DistinctIds(store[u].preKeys + Appended(qs, u))
    ensures |Run(store, qs).1| == |qs| && u in Run(store, qs).0
    ensures DistinctIds(Served(qs, Run(store, qs).1, u) + Run(store, qs).0[u].preKeys)
  {
    KeysAreConserved(store, qs, u);
    var served, rest := Served(qs, Run(store, qs).1, u), Run(store, qs).0[u].preKeys;
    PartsAreDistinct(served + rest, store[u].preKeys + Appended(qs, u));
  }

  // ------------------------------------------------------------- overlaps

  /** What one taking, by fetch or by id, serves from the column it read, and the column it then writes. */
  ghost function TakeFrom(read: seq<PreKey>, keyId: Option<int>): (seq<PreKey>, Option<seq<PreKey>>) {
    var i := if keyId.None? then 0 else FindIndex(read, keyId.value);
    if i < |read| then ([read[i]], Some(Without(read, i))) else ([], None)
  }

  ghost function Written(column: seq<PreKey>, write: Option<seq<PreKey>>): seq<PreKey> {
    if write.Some? then write.value else column
  }

  lemma TakeFromKeeps(keys: seq<PreKey>, keyId: Option<int>)
    ensures var f := TakeFrom(keys, keyId);
      && multiset(f.0) + multiset(Written(keys, f.1)) == multiset(keys)
      && (f.1.None? <==> f.0 == [])
      && |f.0| <= 1
  {
    var i := if keyId.None? then 0 else FindIndex(keys, keyId.value);
    if i < |keys| {
      TakeOut(keys, i);
    }
  }

  /**
   A taking reads the column and writes it back in two queries. When any two, each by
   fetch or by id, both read before either writes, the keys are conserved if and only
   if one of them comes away empty; otherwise one key more is given out than the
   column loses.
   */
  lemma OverlappingTakingsExact(keys: seq<PreKey>, a: Option<int>, b: Option<int>)
    ensures var f, g := TakeFrom(keys, a), TakeFrom(keys, b);
      var rest := Written(Written(keys, f.1), g.1);
      && (multiset(f.0) + multiset(g.0) + multiset(rest) == multiset(keys) <==> f.0 == [] || g.0 == [])
      && (f.0 != [] && g.0 != [] ==> |f.0| + |g.0| + |rest| == |keys| + 1)
  {
    var f, g := TakeFrom(keys, a), TakeFrom(keys, b);
    TakeFromKeeps(keys, a);
    TakeFromKeeps(keys, b);
    var rest := Written(Written(keys, f.1), g.1);
    assert |multiset(g.0) + multiset(Written(keys, g.1))| == |g.0| + |Written(keys, g.1)|;
    assert |multiset(f.0) + multiset(g.0) + multiset(rest)| == |f.0| + |g.0| + |rest|;
  }

  /** Keys appended between the reading and the writing of a fetch survive exactly when the column was empty or none are appended. */
  lemma OverlappingAppendExact(keys: seq<PreKey>, more: seq<PreKey>)
    ensures var f := TakeFrom(keys, None);
      multiset(f.0) + multiset(Written(keys + more, f.1)) == multiset(keys) + multiset(more) <==> keys == [] || more == []
  {
    if keys != [] {
      assert keys == [keys[0]] + keys[1..];
      assert multiset([keys[0]]) + multiset(keys[1..]) == multiset(keys);
      assert |multiset(keys) + multiset(more)| == |keys| + |more|;
    }
  }
}
