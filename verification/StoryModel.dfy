/**
 Stories that live for a day: creation, views, deletion by the author and the
 hourly cleanup, over runs, and what a feed is.
 */
module StoryModel {
  import opened Prelude
  import K = Keyset

  datatype Story = Story(authorId: string, createdAt: int, expiresAt: int)

  datatype View = View(storyId: string, viewerId: string, viewedAt: int)

  /** `used` are the story ids ever given out; the row order of `views` is the order of insertion. */
  datatype World = World(now: int, stories: map<string, Story>, views: seq<View>, used: set<string>)

  const INITIAL := World(0, map[], [], {})

  datatype StoryError = StoryNotFound | StoryExpired | NotTheAuthor

  const STORY_DURATION_MS := 24 * 60 * 60 * 1000

  // ----------------------------------------------------------------- steps

  /** Clock readings of a request: its check, then its write. */
  datatype Times = Times(check: int, write: int)

  ghost function Create(w: World, author: string, id: string, at: Times): World {
    w.(now := at.write, used := w.used + {id},
       stories := w.stories[id := Story(author, at.write, at.check + STORY_DURATION_MS)])
  }

  predicate HasViewed(views: seq<View>, story: string, viewer: string) {
    exists v :: v in views && v.storyId == story && v.viewerId == viewer
  }

  /** Answers whether a view was recorded. */
  ghost function Look(w: World, story: string, viewer: string, at: Times): (World, Result<bool, StoryError>) {
    var v := w.(now := at.write);
    if story !in w.stories then (v, Err(StoryNotFound))
    else if w.stories[story].expiresAt < at.check then (v, Err(StoryExpired))
    else if HasViewed(w.views, story, viewer) then (v, Ok(false))
    else (v.(views := w.views + [View(story, viewer, at.write)]), Ok(true))
  }

  /** The views of other stories, in order. */
  function ViewsWithout(views: seq<View>, gone: set<string>): seq<View> {
    if views == [] then []
    else
      var n := |views| - 1;
      ViewsWithout(views[..n], gone) + if views[n].storyId in gone then [] else [views[n]]
  }

  ghost function Drop(w: World, gone: set<string>): World {
    w.(stories := w.stories - gone, views := ViewsWithout(w.views, gone))
  }

  ghost function DeleteOwn(w: World, story: string, author: string, t: int): (World, Result<(), StoryError>) {
    var v := w.(now := t);
    if story !in w.stories then (v, Err(StoryNotFound))
    else if w.stories[story].authorId != author then (v, Err(NotTheAuthor))
    else (Drop(v, {story}), Ok(()))
  }

  ghost function Expired(w: World, t: int): set<string> {
    set s | s in w.stories && w.stories[s].expiresAt <= t
  }

  /** Expired at the check; deleted at the write. */
  ghost function Cleanup(w: World, at: Times): World {
    Drop(w.(now := at.write), Expired(w, at.check))
  }

  datatype Event =
    | DoCreate(author: string, id: string, at: Times)
    | DoLook(story: string, viewer: string, at: Times)
    | DoDelete(story: string, author: string, at: Times)
    | DoCleanup(at: Times)

  ghost predicate Enabled(w: World, e: Event) {
    w.now <= e.at.check <= e.at.write && (e.DoCreate? ==> e.id !in w.used)
  }

  ghost function Step(w: World, e: Event): World {
    match e
    case DoCreate(author, id, at) => Create(w, author, id, at)
    case DoLook(story, viewer, at) => Look(w, story, viewer, at).0
    case DoDelete(story, author, at) => DeleteOwn(w, story, author, at.write).0
    case DoCleanup(at) => Cleanup(w, at)
  }

  ghost function Run(w: World, es: seq<Event>): World
    decreases |es|
  {
    if es == [] then w else Run(Step(w, es[0]), es[1..])
  }

  ghost predicate CanRun(w: World, es: seq<Event>)
    decreases |es|
  {
    es == [] || (Enabled(w, es[0]) && CanRun(Step(w, es[0]), es[1..]))
  }

  // ------------------------------------------------------------- invariant

  ghost predicate OneViewEach(views: seq<View>) {
    forall i, j :: 0 <= i < j < |views| ==> (views[i].storyId, views[i].viewerId) != (views[j].storyId, views[j].viewerId)
  }

  ghost predicate Inv(w: World) {
    && OneViewEach(w.views)
    && (forall v :: v in w.views ==> v.storyId in w.stories)
    && (forall s :: s in w.stories ==> s in w.used && w.stories[s].createdAt <= w.now
                                       && w.stories[s].expiresAt <= w.stories[s].createdAt + STORY_DURATION_MS)
  }

  /** The views kept are the ones of the stories kept; of two views kept the order stays. */
  lemma {:induction false} ViewsKept(views: seq<View>, gone: set<string>)
    ensures forall v :: v in ViewsWithout(views, gone) <==> v in views && v.storyId !in gone
    ensures OneViewEach(views) ==> OneViewEach(ViewsWithout(views, gone))
  {
    if views != [] {
      var n := |views| - 1;
      ViewsKept(views[..n], gone);
      assert views == views[..n] + [views[n]];
      var front := ViewsWithout(views[..n], gone);
      if OneViewEach(views) {
        forall i | 0 <= i < |front|
          ensures (front[i].storyId, front[i].viewerId) != (views[n].storyId, views[n].viewerId)
        {
          assert front[i] in front && front[i] in views[..n];
        }
      }
    }
  }

  lemma LookKeeps(w: World, story: string, viewer: string, at: Times)
    requires Inv(w) && w.now <= at.check <= at.write
    ensures Inv(Look(w, story, viewer, at).0)
  {
    var v := Look(w, story, viewer, at).0;
    forall i, j | 0 <= i < j < |v.views|
      ensures (v.views[i].storyId, v.views[i].viewerId) != (v.views[j].storyId, v.views[j].viewerId)
    {
      assert v.views[i] in w.views;
    }
  }

  lemma DropKeeps(w: World, gone: set<string>)
    requires Inv(w)
    ensures Inv(Drop(w, gone))
  {
    ViewsKept(w.views, gone);
  }

  lemma StepKeeps(w: World, e: Event)
    requires Inv(w) && Enabled(w, e)
    ensures Inv(Step(w, e)) && w.now <= Step(w, e).now && w.used <= Step(w, e).used
  {
    match e
    case DoCreate(_, _, _) =>
    case DoLook(story, viewer, at) => LookKeeps(w, story, viewer, at);
    case DoDelete(story, author, at) => DropKeeps(w.(now := at.write), {story});
    case DoCleanup(at) => DropKeeps(w.(now := at.write), Expired(w, at.check));
  }

  lemma {:induction false} RunKeeps(w: World, es: seq<Event>)
    requires Inv(w) && CanRun(w, es)
    ensures Inv(Run(w, es)) && w.now <= Run(w, es).now && w.used <= Run(w, es).used
    decreases |es|
  {
    if es != [] {
      StepKeeps(w, es[0]);
      RunKeeps(Step(w, es[0]), es[1..]);
    }
  }

  // ---------------------------------------------------------- main results

  /** In every reachable state a viewer has at most one view of a story, and every view is of a story that exists. */
  lemma ViewsAreUnique(es: seq<Event>, i: nat, j: nat)
    requires CanRun(INITIAL, es) && i < |Run(INITIAL, es).views| && j < |Run(INITIAL, es).views|
    ensures var w := Run(INITIAL, es);
      && (w.views[i].storyId == w.views[j].storyId && w.views[i].viewerId == w.views[j].viewerId ==> i == j)
      && w.views[i].storyId in w.stories
  {
    RunKeeps(INITIAL, es);
    var w := Run(INITIAL, es);
    assert w.views[i] in w.views;
    if i < j {
      assert (w.views[i].storyId, w.views[i].viewerId) != (w.views[j].storyId, w.views[j].viewerId);
    } else if j < i {
      assert (w.views[j].storyId, w.views[j].viewerId) != (w.views[i].storyId, w.views[i].viewerId);
    }
  }

  /** What a feed may show at an instant. */
  ghost predicate Visible(w: World, contacts: set<string>, s: string, t: int) {
    s in w.stories && w.stories[s].authorId in contacts && w.stories[s].expiresAt > t
  }

  /**
   A cleanup removes exactly the stories expired at its check, with exactly
   their views; whatever anybody's feed shows at that instant is still there,
   unchanged.
   */
  lemma CleanupExact(w: World, at: Times)
    ensures var v := Cleanup(w, at);
      && (forall s :: s in v.stories <==> s in w.stories && w.stories[s].expiresAt > at.check)
      && (forall s :: s in v.stories ==> v.stories[s] == w.stories[s])
      && (forall x :: x in v.views <==> x in w.views && !(x.storyId in w.stories && w.stories[x.storyId].expiresAt <= at.check))
      && (forall contacts, s, t :: t >= at.check ==> (Visible(v, contacts, s, t) <==> Visible(w, contacts, s, t)))
  {
    ViewsKept(w.views, Expired(w, at.check));
  }

  /** A story that is gone or expired is shown in no feed of any later state. */
  lemma {:induction false} GoneIsGone(w: World, es: seq<Event>, s: string, contacts: set<string>, t: int)
    requires CanRun(w, es) && s in w.used && (s in w.stories ==> w.stories[s].expiresAt <= w.now)
    requires t >= Run(w, es).now
    ensures !Visible(Run(w, es), contacts, s, t)
    decreases |es|
  {
    if es != [] {
      var v := Step(w, es[0]);
      assert s in v.stories ==> s in w.stories && v.stories[s] == w.stories[s];
      GoneIsGone(v, es[1..], s, contacts, t);
    }
  }

  /** Nobody else but the author may have asked for the story's deletion. */
  ghost predicate NotDeleted(es: seq<Event>, s: string, author: string) {
    forall e :: e in es ==> !(e.DoDelete? && e.story == s && e.author == author)
  }

  /**
   A story its author does not delete stays, as it is and with every view it
   has, for as long as feeds may show it, whoever else asks for its deletion.
   */
  lemma {:induction false} LiveStoriesStay(w: World, es: seq<Event>, s: string)
    requires CanRun(w, es) && Inv(w) && s in w.stories
    requires NotDeleted(es, s, w.stories[s].authorId) && Run(w, es).now < w.stories[s].expiresAt
    ensures s in Run(w, es).stories && Run(w, es).stories[s] == w.stories[s]
    ensures forall x :: x in w.views && x.storyId == s ==> x in Run(w, es).views
    decreases |es|
  {
    if es != [] {
      StepKeeps(w, es[0]);
      RunKeeps(Step(w, es[0]), es[1..]);
      assert es[0] in es;
      LiveStoryStays(w, es[0], s);
      LiveStoriesStay(Step(w, es[0]), es[1..], s);
    }
  }

  lemma LiveStoryStays(w: World, e: Event, s: string)
    requires Enabled(w, e) && Inv(w) && s in w.stories
    requires !(e.DoDelete? && e.story == s && e.author == w.stories[s].authorId) && Step(w, e).now < w.stories[s].expiresAt
    ensures s in Step(w, e).stories && Step(w, e).stories[s] == w.stories[s]
    ensures forall x :: x in w.views && x.storyId == s ==> x in Step(w, e).views
  {
    match e
    case DoDelete(story, _, _) => ViewsKept(w.views, {story});
    case DoCleanup(at) => ViewsKept(w.views, Expired(w, at.check));
    case _ =>
  }

  /** Nothing but its removal happens to a story. */
  lemma {:induction false} StoriesNeverChange(w: World, es: seq<Event>, s: string)
    requires CanRun(w, es) && s in w.used && s in Run(w, es).stories
    ensures s in w.stories && Run(w, es).stories[s] == w.stories[s]
    decreases |es|
  {
    if es != [] {
      StoriesNeverChange(Step(w, es[0]), es[1..], s);
    }
  }

  /**
   A story its author does not delete is in the feeds of the author's contacts for
   exactly twenty-four hours from the instant its creation began, whatever happens
   meanwhile.
   */
  lemma ShownForExactlyADay(w: World, author: string, id: string, at: Times, es: seq<Event>, contacts: set<string>, t: int)
    requires Inv(w) && Enabled(w, DoCreate(author, id, at)) && CanRun(Create(w, author, id, at), es) && NotDeleted(es, id, author)
    requires Run(Create(w, author, id, at), es).now <= t
    ensures Visible(Run(Create(w, author, id, at), es), contacts, id, t) <==>
      author in contacts && t < at.check + 24 * 60 * 60 * 1000
  {
    var v := Create(w, author, id, at);
    StepKeeps(w, DoCreate(author, id, at));
    if Run(v, es).now < v.stories[id].expiresAt {
      LiveStoriesStay(v, es, id);
    } else if id in Run(v, es).stories {
      StoriesNeverChange(v, es, id);
    }
  }

  /**
   Looking at a story is refused only once its expiry has passed, while a feed
   stops showing it at that very instant: the two disagree exactly then.
   */
  lemma LookAndFeedDisagreeExactly(w: World, s: string, viewer: string, at: Times)
    requires s in w.stories
    ensures (Look(w, s, viewer, at).1.Ok? <==> Visible(w, {w.stories[s].authorId}, s, at.check))
      <==> at.check != w.stories[s].expiresAt
  {
  }

  // ------------------------------------------------------------------ feed

  datatype Group = Group(author: string, stories: seq<string>, hasUnviewed: bool, latestStoryAt: int)

  /** The stories with their creation times, as rows to be sorted. */
  ghost function CreatedAt(w: World): K.Table {
    map s | s in w.stories :: w.stories[s].createdAt
  }

  /** One group of a feed: all visible stories of one author, oldest first. */
  ghost predicate IsGroup(w: World, user: string, contacts: set<string>, t: int, g: Group) {
    && g.stories != []
    && K.Ascending(CreatedAt(w), g.stories)
    && (forall s :: s in g.stories <==> Visible(w, contacts, s, t) && w.stories[s].authorId == g.author)
    && g.latestStoryAt == CreatedAt(w)[g.stories[|g.stories| - 1]]
    && (g.hasUnviewed <==> exists s :: s in g.stories && !HasViewed(w.views, s, user))
  }

  /** A feed: one group for each author with something to show, the latest first. */
  ghost predicate IsFeed(w: World, user: string, contacts: set<string>, t: int, feed: seq<Group>) {
    && (forall g :: g in feed ==> IsGroup(w, user, contacts, t, g))
    && (forall i, j :: 0 <= i < j < |feed| ==> feed[i].author != feed[j].author && feed[i].latestStoryAt >= feed[j].latestStoryAt)
    && (forall s :: Visible(w, contacts, s, t) ==> exists g :: g in feed && s in g.stories)
  }

  /** `s` is the `k`th story of the `i`th group. */
  ghost predicate IsShown(feed: seq<Group>, i: int, k: int, s: string) {
    0 <= i < |feed| && 0 <= k < |feed[i].stories| && feed[i].stories[k] == s
  }

  /** A feed is a partition: each visible story is in one group, at one place, and nothing else is in any. */
  lemma FeedIsPartition(w: World, user: string, contacts: set<string>, t: int, feed: seq<Group>, s: string)
    requires IsFeed(w, user, contacts, t, feed)
    ensures Visible(w, contacts, s, t) <==> exists i, k :: IsShown(feed, i, k, s)
    ensures forall i, k, j, l :: IsShown(feed, i, k, s) && IsShown(feed, j, l, s) ==> i == j && k == l
  {
    if Visible(w, contacts, s, t) {
      var g :| g in feed && s in g.stories;
      var i :| 0 <= i < |feed| && feed[i] == g;
      var k :| 0 <= k < |g.stories| && g.stories[k] == s;
      assert IsShown(feed, i, k, s);
    }
    forall i, k | IsShown(feed, i, k, s)
      ensures Visible(w, contacts, s, t)
    {
      ShownIn(w, user, contacts, t, feed, i, k, s);
    }
    forall i, k, j, l | IsShown(feed, i, k, s) && IsShown(feed, j, l, s)
      ensures i == j && k == l
    {
      ShownIn(w, user, contacts, t, feed, i, k, s);
      ShownIn(w, user, contacts, t, feed, j, l, s);
    }
  }

  /** A shown story is visible, stands in its author's group, and at no other place of it. */
  lemma ShownIn(w: World, user: string, contacts: set<string>, t: int, feed: seq<Group>, i: int, k: int, s: string)
    requires IsFeed(w, user, contacts, t, feed) && IsShown(feed, i, k, s)
    ensures Visible(w, contacts, s, t) && feed[i].author == w.stories[s].authorId
    ensures forall l :: 0 <= l < |feed[i].stories| && l != k ==> feed[i].stories[l] != s
  {
    assert feed[i] in feed && s in feed[i].stories;
  }

  lemma GroupIsDetermined(w: World, user: string, contacts: set<string>, t: int, g: Group, h: Group)
    requires IsGroup(w, user, contacts, t, g) && IsGroup(w, user, contacts, t, h)
    requires g.author == h.author && K.DistinctKeys(CreatedAt(w))
    ensures g == h
  {
    K.OneListing(CreatedAt(w), g.stories, h.stories);
  }

  lemma BothEmpty(a: seq<Group>, b: seq<Group>)
    requires forall g :: g in a <==> g in b
    ensures a == [] <==> b == []
  {
    if a != [] { assert a[0] in b; }
    if b != [] { assert b[0] in a; }
  }

  lemma {:induction false} OneOrder(a: seq<Group>, b: seq<Group>)
    requires forall i, j :: 0 <= i < j < |a| ==> a[i].latestStoryAt > a[j].latestStoryAt
    requires forall i, j :: 0 <= i < j < |b| ==> b[i].latestStoryAt > b[j].latestStoryAt
    requires forall g :: g in a <==> g in b
    ensures a == b
  {
    BothEmpty(a, b);
    if a != [] {
      var x, y := a[|a| - 1], b[|b| - 1];
      assert x in b && y in a;
      assert x == y;
      var m, n := a[..|a| - 1], b[..|b| - 1];
      assert a == m + [x] && b == n + [y];
      assert x !in m && y !in n;
      forall g
        ensures g in m <==> g in n
      {
        assert g in a <==> g in m || g == x;
        assert g in b <==> g in n || g == y;
      }
      OneOrder(m, n);
    }
  }

  /** The last stories of different groups are different stories. */
  lemma LatestsDiffer(w: World, user: string, contacts: set<string>, t: int, g: Group, h: Group)
    requires IsGroup(w, user, contacts, t, g) && IsGroup(w, user, contacts, t, h)
    requires g.author != h.author && K.DistinctKeys(CreatedAt(w))
    ensures g.latestStoryAt != h.latestStoryAt
  {
    assert g.stories[|g.stories| - 1] in g.stories && h.stories[|h.stories| - 1] in h.stories;
  }

  lemma FeedDescends(w: World, user: string, contacts: set<string>, t: int, feed: seq<Group>)
    requires IsFeed(w, user, contacts, t, feed) && K.DistinctKeys(CreatedAt(w))
    ensures forall i, j :: 0 <= i < j < |feed| ==> feed[i].latestStoryAt > feed[j].latestStoryAt
  {
    forall i, j | 0 <= i < j < |feed|
      ensures feed[i].latestStoryAt > feed[j].latestStoryAt
    {
      LatestsDiffer(w, user, contacts, t, feed[i], feed[j]);
    }
  }

  lemma SameGroups(w: World, user: string, contacts: set<string>, t: int, a: seq<Group>, b: seq<Group>, g: Group)
    requires IsFeed(w, user, contacts, t, a) && IsFeed(w, user, contacts, t, b) && K.DistinctKeys(CreatedAt(w)) && g in a
    ensures g in b
  {
    var s := g.stories[0];
    assert s in g.stories && Visible(w, contacts, s, t);
    var h :| h in b && s in h.stories;
    GroupIsDetermined(w, user, contacts, t, g, h);
  }

  /** With different creation times there is exactly one feed. */
  lemma FeedIsDetermined(w: World, user: string, contacts: set<string>, t: int, a: seq<Group>, b: seq<Group>)
    requires IsFeed(w, user, contacts, t, a) && IsFeed(w, user, contacts, t, b) && K.DistinctKeys(CreatedAt(w))
    ensures a == b
  {
    forall g
      ensures g in a <==> g in b
    {
      if g in a { SameGroups(w, user, contacts, t, a, b, g); }
      if g in b { SameGroups(w, user, contacts, t, b, a, g); }
    }
    FeedDescends(w, user, contacts, t, a);
    FeedDescends(w, user, contacts, t, b);
    OneOrder(a, b);
  }
}
