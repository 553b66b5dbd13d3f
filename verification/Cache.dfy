/**
 The Redis key map behind `CacheProvider`: keys with an optional deadline that
 disappear by themselves. Every instant is a number of milliseconds.
 */
module Cache {
  import opened Prelude

  /** The three families of keys the modelled services write. */
  datatype Key =
    | Blacklist(jti: string)
    | ServiceParticipants(conversationId: string)
    | MessageParticipants(conversationId: string)

  function Render(k: Key): string {
    match k
    case Blacklist(jti) => "blacklist:" + jti
    case ServiceParticipants(c) => "conversation:participants:" + c
    case MessageParticipants(c) => "conv:" + c + ":participants"
  }

  /** Different keys are different strings, so a map from `Key` loses nothing. */
  lemma RenderInjective(a: Key, b: Key)
    requires Render(a) == Render(b)
    ensures a == b
  {
    assert Render(a)[0] == Render(b)[0] && Render(a)[4] == Render(b)[4];
    match a
    case Blacklist(jti) =>
      assert Render(a)[10..] == jti;
      assert Render(b)[10..] == b.jti;
    case ServiceParticipants(c) =>
      assert Render(a)[26..] == c;
      assert Render(b)[26..] == b.conversationId;
    case MessageParticipants(c) =>
      assert Render(a)[5..|Render(a)| - 13] == c;
      assert Render(b)[5..|Render(b)| - 13] == b.conversationId;
  }

  datatype Value = Text(text: string) | Ids(ids: seq<string>)

  datatype Deadline = Never | At(ms: int)

  datatype Entry = Entry(value: Value, deadline: Deadline)

  /** The key map, one part for each family of keys. */
  datatype Store = Store(
    blacklist: map<string, Entry>,
    serviceParticipants: map<string, Entry>,
    messageParticipants: map<string, Entry>)

  const EMPTY := Store(map[], map[], map[])

  predicate Alive(e: Entry, t: int) {
    e.deadline.Never? || t < e.deadline.ms
  }

  function EntryIn(m: map<string, Entry>, id: string): Option<Entry> {
    if id in m then Some(m[id]) else None
  }

  function EntryAt(s: Store, k: Key): Option<Entry> {
    match k
    case Blacklist(jti) => EntryIn(s.blacklist, jti)
    case ServiceParticipants(c) => EntryIn(s.serviceParticipants, c)
    case MessageParticipants(c) => EntryIn(s.messageParticipants, c)
  }

  predicate Exists(s: Store, k: Key, t: int) {
    EntryAt(s, k).Some? && Alive(EntryAt(s, k).value, t)
  }

  function Lookup(s: Store, k: Key, t: int): (v: Option<Value>) {
    if Exists(s, k, t) then Some(EntryAt(s, k).value.value) else None
  }

  /** A TTL that is absent, zero or negative stores the key for ever. */
  function DeadlineFor(ttlSeconds: Option<int>, t: int): Deadline {
    if ttlSeconds.Some? && ttlSeconds.value > 0 then At(t + ttlSeconds.value * 1000) else Never
  }

  function WithEntry(s: Store, k: Key, e: Entry): Store {
    match k
    case Blacklist(jti) => s.(blacklist := s.blacklist[jti := e])
    case ServiceParticipants(c) => s.(serviceParticipants := s.serviceParticipants[c := e])
    case MessageParticipants(c) => s.(messageParticipants := s.messageParticipants[c := e])
  }

  function Put(s: Store, k: Key, v: Value, ttlSeconds: Option<int>, t: int): Store {
    WithEntry(s, k, Entry(v, DeadlineFor(ttlSeconds, t)))
  }

  function Remove(s: Store, k: Key): Store {
    match k
    case Blacklist(jti) => s.(blacklist := s.blacklist - {jti})
    case ServiceParticipants(c) => s.(serviceParticipants := s.serviceParticipants - {c})
    case MessageParticipants(c) => s.(messageParticipants := s.messageParticipants - {c})
  }

  /** What a key holds after a write or a removal, for every key: reads and writes agree. */
  lemma WritesAgree(s: Store, k: Key, e: Entry, other: Key)
    ensures EntryAt(WithEntry(s, k, e), other) == if other == k then Some(e) else EntryAt(s, other)
    ensures EntryAt(Remove(s, k), other) == if other == k then None else EntryAt(s, other)
  {
  }

  /**
   What a write means for later reads of its key: the value is there until exactly its
   TTL has passed, for ever when the TTL is absent, zero or negative; and after a
   removal nothing is. Reads of other keys are as before.
   */
  lemma ReadsExact(s: Store, k: Key, v: Value, ttlSeconds: Option<int>, t: int, other: Key, later: int)
    ensures Lookup(Put(s, k, v, ttlSeconds, t), k, later) ==
      if ttlSeconds.None? || ttlSeconds.value <= 0 || later < t + ttlSeconds.value * 1000 then Some(v) else None
    ensures Lookup(Remove(s, k), k, later) == None
    ensures other != k ==>
      && Lookup(Put(s, k, v, ttlSeconds, t), other, later) == Lookup(s, other, later)
      && Lookup(Remove(s, k), other, later) == Lookup(s, other, later)
  {
    WritesAgree(s, k, Entry(v, DeadlineFor(ttlSeconds, t)), k);
    WritesAgree(s, k, Entry(v, DeadlineFor(ttlSeconds, t)), other);
  }

  class CacheProvider {
    var store: Store

    constructor ()
      ensures store == EMPTY
    {
      store := EMPTY;
    }

    method Get(k: Key, t: int) returns (v: Option<Value>)
      ensures v == Lookup(store, k, t)
    {
      var e := EntryAt(store, k);
      v := if e.Some? && Alive(e.value, t) then Some(e.value.value) else None;
    }

    method Set(k: Key, v: Value, ttlSeconds: Option<int>, t: int)
      modifies this
      ensures store == Put(old(store), k, v, ttlSeconds, t)
    {
      if ttlSeconds.Some? && ttlSeconds.value > 0 {
        store := WithEntry(store, k, Entry(v, At(t + ttlSeconds.value * 1000)));
      } else {
        store := WithEntry(store, k, Entry(v, Never));
      }
    }

    method Del(k: Key)
      modifies this
      ensures store == Remove(old(store), k)
    {
      store := Remove(store, k);
    }

    method Has(k: Key, t: int) returns (b: bool)
      ensures b <==> Exists(store, k, t)
    {
      var v := Get(k, t);
      b := v.Some?;
    }
  }
}
