/** `StoryRepository` and `StoryService` as they change their tables, proved against `StoryModel`. */
module StoryService {
  import opened Prelude
  import opened StoryModel
  import K = Keyset

  // ------------------------------------------------------------- sorting

  ghost predicate LatestFirst(groups: seq<Group>) {
    forall i, j :: 0 <= i < j < |groups| ==> groups[i].latestStoryAt >= groups[j].latestStoryAt
  }

  /** The place of a group among groups in order: after those at least as late. */
  function InsertLatest(sorted: seq<Group>, g: Group): seq<Group> {
    if sorted == [] || sorted[|sorted| - 1].latestStoryAt >= g.latestStoryAt then sorted + [g]
    else InsertLatest(sorted[..|sorted| - 1], g) + [sorted[|sorted| - 1]]
  }

  /** What the stable sort "latest first" gives. */
  function SortLatest(groups: seq<Group>): seq<Group> {
    if groups == [] then [] else InsertLatest(SortLatest(groups[..|groups| - 1]), groups[|groups| - 1])
  }

  lemma {:induction false} InsertPermutes(sorted: seq<Group>, g: Group)
    ensures multiset(InsertLatest(sorted, g)) == multiset(sorted + [g])
  {
    if sorted != [] {
      var n := |sorted| - 1;
      InsertPermutes(sorted[..n], g);
      assert sorted == sorted[..n] + [sorted[n]];
    }
  }

  lemma InsertMembers(sorted: seq<Group>, g: Group)
    ensures forall x :: x in InsertLatest(sorted, g) <==> x in sorted || x == g
  {
    InsertPermutes(sorted, g);
    forall x
      ensures x in InsertLatest(sorted, g) <==> x in sorted || x == g
    {
      assert x in InsertLatest(sorted, g) <==> x in multiset(InsertLatest(sorted, g));
      assert x in sorted + [g] <==> x in multiset(sorted + [g]);
    }
  }

  lemma LatestPushed(front: seq<Group>, last: Group)
    requires LatestFirst(front) && forall x :: x in front ==> x.latestStoryAt >= last.latestStoryAt
    ensures LatestFirst(front + [last])
  {
  }

  lemma {:induction false} InsertKeepsOrder(sorted: seq<Group>, g: Group)
    requires LatestFirst(sorted)
    ensures LatestFirst(InsertLatest(sorted, g))
  {
    if sorted == [] || sorted[|sorted| - 1].latestStoryAt >= g.latestStoryAt {
      LatestPushed(sorted, g);
    } else {
      var n := |sorted| - 1;
      InsertKeepsOrder(sorted[..n], g);
      InsertMembers(sorted[..n], g);
      LatestPushed(InsertLatest(sorted[..n], g), sorted[n]);
    }
  }

  /** Sorting gives the same groups, each as often, with the latest first. */
  lemma {:induction false} SortSorts(groups: seq<Group>)
    ensures LatestFirst(SortLatest(groups)) && multiset(SortLatest(groups)) == multiset(groups)
  {
    if groups != [] {
      var n := |groups| - 1;
      SortSorts(groups[..n]);
      InsertKeepsOrder(SortLatest(groups[..n]), groups[n]);
      InsertPermutes(SortLatest(groups[..n]), groups[n]);
      assert groups == groups[..n] + [groups[n]];
    }
  }

  /** Groups of the same instant keep their order: the sort is stable. */
  lemma {:induction false} SortIsStable(groups: seq<Group>, at: int)
    ensures OfInstant(SortLatest(groups), at) == OfInstant(groups, at)
  {
    if groups != [] {
      var n := |groups| - 1;
      SortIsStable(groups[..n], at);
      InsertIsStable(SortLatest(groups[..n]), groups[n], at);
    }
  }

  ghost function OfInstant(groups: seq<Group>, at: int): seq<Group> {
    if groups == [] then []
    else
      var n := |groups| - 1;
      OfInstant(groups[..n], at) + Alone(groups[n], at)
  }

  ghost function Alone(g: Group, at: int): seq<Group> {
    if g.latestStoryAt == at then [g] else []
  }

  lemma OfInstantPushed(groups: seq<Group>, g: Group, at: int)
    ensures OfInstant(groups + [g], at) == OfInstant(groups, at) + Alone(g, at)
  {
    assert (groups + [g])[..|groups|] == groups;
  }

  lemma OneOfTwo<T>(s: seq<T>, a: seq<T>, b: seq<T>)
    requires a == [] || b == []
    ensures (s + a) + b == (s + b) + a
  {
  }

  lemma {:induction false} InsertIsStable(sorted: seq<Group>, g: Group, at: int)
    ensures OfInstant(InsertLatest(sorted, g), at) == OfInstant(sorted, at) + Alone(g, at)
  {
    if sorted == [] || sorted[|sorted| - 1].latestStoryAt >= g.latestStoryAt {
      OfInstantPushed(sorted, g, at);
    } else {
      var n := |sorted| - 1;
      InsertIsStable(sorted[..n], g, at);
      OfInstantPushed(InsertLatest(sorted[..n], g), sorted[n], at);
      OneOfTwo(OfInstant(sorted[..n], at), Alone(g, at), Alone(sorted[n], at));
    }
  }

  ghost predicate AuthorsDiffer(groups: seq<Group>) {
    forall i, j :: 0 <= i < j < |groups| ==> groups[i].author != groups[j].author
  }

  lemma {:induction false} InsertKeepsAuthors(sorted: seq<Group>, g: Group)
    requires AuthorsDiffer(sorted + [g])
    ensures AuthorsDiffer(InsertLatest(sorted, g))
  {
    if sorted != [] && sorted[|sorted| - 1].latestStoryAt < g.latestStoryAt {
      var n := |sorted| - 1;
      var front, all := InsertLatest(sorted[..n], g), sorted + [g];
      assert forall i :: 0 <= i < n ==> sorted[..n][i] == all[i];
      assert all[n] == sorted[n] && all[n + 1] == g;
      InsertKeepsAuthors(sorted[..n], g);
      InsertMembers(sorted[..n], g);
      forall i | 0 <= i < |front|
        ensures front[i].author != sorted[n].author
      {
        assert front[i] in front;
      }
    }
  }

  lemma {:induction false} SortKeepsAuthors(groups: seq<Group>)
    requires AuthorsDiffer(groups)
    ensures AuthorsDiffer(SortLatest(groups))
  {
    if groups != [] {
      var n := |groups| - 1;
      SortKeepsAuthors(groups[..n]);
      SortSorts(groups[..n]);
      var sorted := SortLatest(groups[..n]);
      forall i | 0 <= i < |sorted|
        ensures sorted[i].author != groups[n].author
      {
        assert sorted[i] in multiset(sorted);
        assert sorted[i] in groups[..n];
      }
      InsertKeepsAuthors(sorted, groups[n]);
    }
  }

  // ---------------------------------------------------------- the grouping

  predicate WrittenBy(stories: map<string, Story>, s: string, author: string) {
    s in stories && stories[s].authorId == author
  }

  /** The records of one author, in order. */
  ghost function ByAuthor(stories: map<string, Story>, records: seq<string>, author: string): seq<string> {
    if records == [] then []
    else
      var n := |records| - 1;
      ByAuthor(stories, records[..n], author) + if WrittenBy(stories, records[n], author) then [records[n]] else []
  }

  lemma {:induction false} ByAuthorSelects(stories: map<string, Story>, records: seq<string>, author: string)
    ensures forall s :: s in ByAuthor(stories, records, author) <==> s in records && WrittenBy(stories, s, author)
  {
    if records != [] {
      var n := |records| - 1;
      assert records == records[..n] + [records[n]];
      ByAuthorSelects(stories, records[..n], author);
    }
  }

  lemma {:induction false} ByAuthorAscends(t: K.Table, stories: map<string, Story>, records: seq<string>, author: string)
    requires K.Ascending(t, records)
    ensures K.Ascending(t, ByAuthor(stories, records, author))
  {
    if records != [] {
      var n := |records| - 1;
      assert records == records[..n] + [records[n]];
      ByAuthorAscends(t, stories, records[..n], author);
      ByAuthorSelects(stories, records[..n], author);
      var front := ByAuthor(stories, records[..n], author);
      forall i | 0 <= i < |front|
        ensures front[i] != records[n] && t[front[i]] <= t[records[n]]
      {
        assert front[i] in front;
      }
    }
  }

  ghost function Wanted(contacts: seq<string>): set<string> {
    set c | c in contacts
  }

  /** What the query "stories of these authors that expire later, oldest first" may answer. */
  ghost predicate AnswersFeed(w: World, contacts: set<string>, t: int, records: seq<string>) {
    K.Ascending(CreatedAt(w), records) && forall s :: s in records <==> Visible(w, contacts, s, t)
  }

  /** The authors of a feed: those asked for, or everybody the user shares a conversation with. */
  ghost function Authors(user: string, contactIds: seq<string>, conversations: seq<seq<string>>): set<string> {
    if contactIds != [] then Wanted(contactIds)
    else set c, x | c in conversations && x in c && x != user :: x
  }

  /** The authors of the records in order of first record. */
  ghost predicate OrderSound(stories: map<string, Story>, records: seq<string>, order: seq<string>) {
    && (forall i, j :: 0 <= i < j < |order| ==> order[i] != order[j])
    && (forall s :: s in records ==> s in stories && stories[s].authorId in order)
  }

  /** Each author in order, with all records so far. */
  ghost predicate Grouped(stories: map<string, Story>, records: seq<string>, order: seq<string>, groups: map<string, seq<string>>) {
    && OrderSound(stories, records, order)
    && (forall a :: a in order <==> a in groups)
    && (forall a :: a in groups ==> groups[a] != [] && groups[a] == ByAuthor(stories, records, a))
  }

  lemma {:induction false} ByAuthorNone(stories: map<string, Story>, records: seq<string>, author: string)
    requires forall s :: s in records ==> !WrittenBy(stories, s, author)
    ensures ByAuthor(stories, records, author) == []
  {
    if records != [] {
      ByAuthorNone(stories, records[..|records| - 1], author);
    }
  }

  lemma ByAuthorPushed(stories: map<string, Story>, records: seq<string>, r: string, author: string)
    ensures ByAuthor(stories, records + [r], author) ==
      ByAuthor(stories, records, author) + if WrittenBy(stories, r, author) then [r] else []
  {
    assert (records + [r])[..|records|] == records;
  }

  lemma OrderMore(stories: map<string, Story>, records: seq<string>, r: string, order: seq<string>)
    requires OrderSound(stories, records, order) && r in stories
    ensures var author := stories[r].authorId;
      OrderSound(stories, records + [r], if author in order then order else order + [author])
  {
  }

  /** One turn of the grouping loop: a record joins its author's group or starts one. */
  lemma GroupedMore(stories: map<string, Story>, records: seq<string>, r: string, order: seq<string>, groups: map<string, seq<string>>)
    requires Grouped(stories, records, order, groups) && r in stories
    ensures var author := stories[r].authorId;
      if author in groups then Grouped(stories, records + [r], order, groups[author := groups[author] + [r]])
      else Grouped(stories, records + [r], order + [author], groups[author := [r]])
  {
    var author := stories[r].authorId;
    OrderMore(stories, records, r, order);
    if author in groups {
      GroupsMore(stories, records, r, groups, groups[author] + [r]);
    } else {
      ByAuthorNone(stories, records, author);
      GroupsMore(stories, records, r, groups, [r]);
    }
  }

  lemma GroupsMore(stories: map<string, Story>, records: seq<string>, r: string, groups: map<string, seq<string>>, group: seq<string>)
    requires forall a :: a in groups ==> groups[a] != [] && groups[a] == ByAuthor(stories, records, a)
    requires r in stories && group == ByAuthor(stories, records, stories[r].authorId) + [r]
    ensures var more := groups[stories[r].authorId := group];
      forall a :: a in more ==> more[a] != [] && more[a] == ByAuthor(stories, records + [r], a)
  {
    var author := stories[r].authorId;
    var more := groups[author := group];
    forall a | a in more
      ensures more[a] != [] && more[a] == ByAuthor(stories, records + [r], a)
    {
      ByAuthorPushed(stories, records, r, a);
    }
  }

  /** The group made of one author's records. */
  lemma RecordsMakeGroup(w: World, user: string, contacts: set<string>, t: int, records: seq<string>, g: Group)
    requires AnswersFeed(w, contacts, t, records)
    requires g.stories == ByAuthor(w.stories, records, g.author) && g.stories != []
    requires g.stories[|g.stories| - 1] in w.stories && g.latestStoryAt == w.stories[g.stories[|g.stories| - 1]].createdAt
    requires g.hasUnviewed == exists s :: s in g.stories && !HasViewed(w.views, s, user)
    ensures IsGroup(w, user, contacts, t, g)
  {
    ByAuthorSelects(w.stories, records, g.author);
    ByAuthorAscends(CreatedAt(w), w.stories, records, g.author);
  }

  /** All groups, once sorted, are a feed. */
  lemma SortedIsFeed(w: World, user: string, contacts: set<string>, t: int, items: seq<Group>)
    requires forall g :: g in items ==> IsGroup(w, user, contacts, t, g)
    requires AuthorsDiffer(items)
    requires forall s :: Visible(w, contacts, s, t) ==> exists g :: g in items && s in g.stories
    ensures IsFeed(w, user, contacts, t, SortLatest(items))
  {
    SortSorts(items);
    SortKeepsAuthors(items);
    var feed := SortLatest(items);
    forall g
      ensures g in feed <==> g in items
    {
      assert g in feed <==> g in multiset(feed);
      assert g in items <==> g in multiset(items);
    }
  }

  class StoryRepository {
    var stories: map<string, Story>
    var views: seq<View>
    ghost var now: int
    ghost var used: set<string>

    ghost function Model(): World
      reads this
    {
      World(now, stories, views, used)
    }

    constructor ()
      ensures Model() == INITIAL
    {
      stories, views, now, used := map[], [], 0, {};
    }

    /** Collects the records author by author in a map that remembers its insertion order. */
    method GroupByAuthor(records: seq<string>) returns (order: seq<string>, groups: map<string, seq<string>>)
      requires forall s :: s in records ==> s in stories
      ensures Grouped(stories, records, order, groups)
    {
      order, groups := [], map[];
      for i := 0 to |records|
        invariant Grouped(stories, records[..i], order, groups)
      {
        var author := stories[records[i]].authorId;
        GroupedMore(stories, records[..i], records[i], order, groups);
        assert records[..i + 1] == records[..i] + [records[i]];
        if author in groups {
          groups := groups[author := groups[author] + [records[i]]];
        } else {
          order := order + [author];
          groups := groups[author := [records[i]]];
        }
      }
      assert records[..|records|] == records;
    }

    /** The query "stories of these authors that expire later, oldest first". */
    method FindVisible(contacts: seq<string>, t: int) returns (records: seq<string>)
      ensures AnswersFeed(Model(), Wanted(contacts), t, records)
    {
      var rows := map s | s in stories && stories[s].authorId in contacts && stories[s].expiresAt > t :: stories[s].createdAt;
      records := K.Query(rows, None, None);
      assert forall s :: s in rows <==> Visible(Model(), Wanted(contacts), s, t);
      assert forall s :: s in rows ==> K.Beyond(rows[s], None) && CreatedAt(Model())[s] == rows[s];
    }

    method FindFeed(user: string, contacts: seq<string>, t: int) returns (feed: seq<Group>)
      ensures IsFeed(Model(), user, Wanted(contacts), t, feed)
    {
      if |contacts| == 0 {
        return [];
      }
      var records := FindVisible(contacts, t);
      var order, groups := GroupByAuthor(records);
      var items: seq<Group> := [];
      for i := 0 to |order|
        invariant |items| == i
        invariant forall k :: 0 <= k < i ==> items[k].author == order[k]
        invariant forall g :: g in items ==> IsGroup(Model(), user, Wanted(contacts), t, g)
      {
        assert order[i] in order;
        var item := FeedItem(user, Wanted(contacts), records, t, order[i], groups[order[i]]);
        items := items + [item];
      }
      forall s | Visible(Model(), Wanted(contacts), s, t)
        ensures exists g :: g in items && s in g.stories
      {
        var i :| 0 <= i < |order| && order[i] == stories[s].authorId;
        assert items[i] in items && s in items[i].stories;
      }
      SortedIsFeed(Model(), user, Wanted(contacts), t, items);
      feed := SortLatest(items);
    }

    method FeedItem(user: string, ghost contacts: set<string>, records: seq<string>, t: int, author: string, group: seq<string>)
        returns (item: Group)
      requires AnswersFeed(Model(), contacts, t, records) && group == ByAuthor(stories, records, author) && group != []
      ensures item.author == author && IsGroup(Model(), user, contacts, t, item)
    {
      ByAuthorSelects(stories, records, author);
      var latest := group[|group| - 1];
      assert latest in group;
      var hasUnviewed := exists s | s in group :: !HasViewed(views, s, user);
      item := Group(author, group, hasUnviewed, stories[latest].createdAt);
      RecordsMakeGroup(Model(), user, contacts, t, records, item);
    }

    method AddView(story: string, viewer: string, t: int) returns (added: bool)
      modifies this`views
      ensures added <==> !HasViewed(old(views), story, viewer)
      ensures views == if added then old(views) + [View(story, viewer, t)] else old(views)
    {
      if HasViewed(views, story, viewer) {
        return false;
      }
      views := views + [View(story, viewer, t)];
      added := true;
    }

    method FindExpired(t: int) returns (ids: set<string>)
      ensures ids == Expired(Model(), t)
    {
      ids := set s | s in stories && stories[s].expiresAt <= t;
    }

    method DeleteStories(ids: set<string>) returns (count: nat)
      modifies this`stories, this`views
      ensures Model() == Drop(old(Model()), ids)
      ensures count == |old(stories).Keys * ids|
    {
      count := |stories.Keys * ids|;
      views := ViewsWithout(views, ids);
      stories := stories - ids;
    }
  }

  /** What a creation is asked with; images and videos are treated alike. */
  datatype StoryInput = TextStory(content: Option<string>) | MediaStory(mediaUrl: Option<string>)

  predicate IsFilled(s: Option<string>) {
    s.Some? && exists c :: c in s.value && !IsWhiteSpace(c)
  }

  predicate IsComplete(input: StoryInput) {
    match input
    case TextStory(content) => IsFilled(content)
    case MediaStory(mediaUrl) => IsFilled(mediaUrl)
  }

  class StoryService {
    const repo: StoryRepository

    constructor ()
      ensures repo.Model() == INITIAL && fresh(repo)
    {
      repo := new StoryRepository();
    }

    /** Text stories need a content and media stories a media URL, neither blank. */
    method ValidateCreateInput(input: StoryInput) returns (ok: bool)
      ensures ok <==> IsComplete(input)
    {
      var field := if input.TextStory? then input.content else input.mediaUrl;
      if field.None? {
        return false;
      }
      var i := 0;
      while i < |field.value| && IsWhiteSpace(field.value[i])
        invariant 0 <= i <= |field.value|
        invariant forall k :: 0 <= k < i ==> IsWhiteSpace(field.value[k])
      {
        i := i + 1;
      }
      ok := i < |field.value|;
    }

    method CreateStory(author: string, input: StoryInput, id: string, at: Times) returns (ok: bool)
      modifies repo
      ensures ok <==> IsComplete(input)
      ensures repo.Model() == if IsComplete(input) then Create(old(repo.Model()), author, id, at) else old(repo.Model())
    {
      ok := ValidateCreateInput(input);
      if ok {
        var expiresAt := at.check + STORY_DURATION_MS;
        repo.stories := repo.stories[id := Story(author, at.write, expiresAt)];
        repo.now, repo.used := at.write, repo.used + {id};
      }
    }

    /** Everybody else in the user's conversations, each once, in order of first occurrence. */
    method ResolveContactIds(user: string, conversations: seq<seq<string>>) returns (contacts: seq<string>)
      ensures forall x :: x in contacts <==> x != user && exists c :: c in conversations && x in c
      ensures forall i, j :: 0 <= i < j < |contacts| ==> contacts[i] != contacts[j]
    {
      contacts := [];
      for i := 0 to |conversations|
        invariant forall x :: x in contacts <==> x != user && exists c :: c in conversations[..i] && x in c
        invariant forall i, j :: 0 <= i < j < |contacts| ==> contacts[i] != contacts[j]
      {
        var members := conversations[i];
        ghost var before := contacts;
        for k := 0 to |members|
          invariant forall x :: x in contacts <==> x in before || (x != user && x in members[..k])
          invariant forall i, j :: 0 <= i < j < |contacts| ==> contacts[i] != contacts[j]
        {
          if members[k] != user && members[k] !in contacts {
            contacts := contacts + [members[k]];
          }
          assert members[..k + 1] == members[..k] + [members[k]];
        }
        assert members[..|members|] == members;
        assert conversations[..i + 1] == conversations[..i] + [members];
      }
      assert conversations[..|conversations|] == conversations;
    }

    method GetStoryFeed(user: string, contactIds: seq<string>, conversations: seq<seq<string>>, t: int)
        returns (feed: seq<Group>)
      ensures IsFeed(repo.Model(), user, Authors(user, contactIds, conversations), t, feed)
    {
      var resolved := contactIds;
      if |resolved| == 0 {
        resolved := ResolveContactIds(user, conversations);
      }
      assert Wanted(resolved) == Authors(user, contactIds, conversations);
      if |resolved| == 0 {
        return [];
      }
      feed := repo.FindFeed(user, resolved, t);
    }

    method ViewStory(story: string, viewer: string, at: Times) returns (r: Result<bool, StoryError>)
      modifies repo
      ensures (repo.Model(), r) == Look(old(repo.Model()), story, viewer, at)
    {
      repo.now := at.write;
      if story !in repo.stories {
        return Err(StoryNotFound);
      }
      if repo.stories[story].expiresAt < at.check {
        return Err(StoryExpired);
      }
      var added := repo.AddView(story, viewer, at.write);
      r := Ok(added);
    }

    method DeleteStory(story: string, author: string, t: int) returns (r: Result<(), StoryError>)
      modifies repo
      ensures (repo.Model(), r) == DeleteOwn(old(repo.Model()), story, author, t)
    {
      repo.now := t;
      if story !in repo.stories {
        return Err(StoryNotFound);
      }
      if repo.stories[story].authorId != author {
        return Err(NotTheAuthor);
      }
      var _ := repo.DeleteStories({story});
      r := Ok(());
    }

    method CleanupExpired(at: Times) returns (count: nat)
      modifies repo
      ensures repo.Model() == Cleanup(old(repo.Model()), at)
      ensures count == |Expired(old(repo.Model()), at.check)|
    {
      var expired := repo.FindExpired(at.check);
      repo.now := at.write;
      if expired == {} {
        NothingToDrop(repo.Model());
        return 0;
      }
      assert repo.stories.Keys * expired == expired;
      count := repo.DeleteStories(expired);
    }
  }

  lemma NothingToDrop(w: World)
    ensures Drop(w, {}) == w
  {
    AllViewsKept(w.views);
    assert w.stories - {} == w.stories;
  }

  lemma {:induction false} AllViewsKept(views: seq<View>)
    ensures ViewsWithout(views, {}) == views
  {
    if views != [] {
      AllViewsKept(views[..|views| - 1]);
    }
  }
}
