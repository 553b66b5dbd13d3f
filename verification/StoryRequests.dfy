/**
 What each story request answers and writes, in terms of the tables alone, and by
 what stories and views come and go.
 */
module StoryRequests {
  import opened Prelude
  import opened StoryModel

  /** All tables are as before; only the clock has moved. */
  ghost predicate IsUntouched(w: World, v: World) {
    v == w.(now := v.now)
  }

  ghost predicate HasSeen(w: World, story: string, viewer: string) {
    exists t :: View(story, viewer, t) in w.views
  }

  ghost predicate IsLive(w: World, story: string, t: int) {
    story in w.stories && t <= w.stories[story].expiresAt
  }

  // --------------------------------------------------------------- requests

  /** A creation adds one row, which expires a day after the request began; nothing else changes. */
  lemma CreateExact(w: World, author: string, id: string, at: Times)
    requires id !in w.stories
    ensures var v := Create(w, author, id, at);
      && v.stories.Keys == w.stories.Keys + {id} && (forall s :: s in w.stories ==> v.stories[s] == w.stories[s])
      && v.stories[id].authorId == author && v.stories[id].createdAt == at.write
      && v.stories[id].expiresAt - at.check == 24 * 60 * 60 * 1000
      && v.views == w.views
  {
  }

  lemma SeenExact(w: World, story: string, viewer: string)
    ensures HasViewed(w.views, story, viewer) <==> HasSeen(w, story, viewer)
  {
    if v :| v in w.views && v.storyId == story && v.viewerId == viewer {
      assert v == View(story, viewer, v.viewedAt);
    }
  }

  /**
   A look succeeds exactly at a story that is there and not past its expiry, and
   afterwards the viewer has seen it. The answer is true exactly for the first such
   look, which adds one view and nothing else; no other look writes anything.
   */
  lemma LookExact(w: World, story: string, viewer: string, at: Times)
    ensures var (v, r) := Look(w, story, viewer, at);
      && (r.Ok? <==> IsLive(w, story, at.check))
      && (r == Err(StoryNotFound) <==> story !in w.stories)
      && (r == Err(StoryExpired) <==> story in w.stories && w.stories[story].expiresAt < at.check)
      && (r == Ok(true) <==> IsLive(w, story, at.check) && !HasSeen(w, story, viewer))
      && (r == Ok(true) ==> v == w.(now := v.now, views := w.views + [View(story, viewer, at.write)]))
      && (r != Ok(true) ==> IsUntouched(w, v))
      && (r.Ok? ==> HasSeen(v, story, viewer))
  {
    SeenExact(w, story, viewer);
    var v := Look(w, story, viewer, at).0;
    if Look(w, story, viewer, at).1 == Ok(true) {
      assert v.views[|v.views| - 1] == View(story, viewer, at.write);
    }
  }

  /**
   A deletion succeeds exactly for the author of a story that is there. Then that story
   is gone with all its views, and no other row; otherwise nothing is written.
   */
  lemma DeleteExact(w: World, story: string, me: string, t: int)
    ensures var (v, r) := DeleteOwn(w, story, me, t);
      && (r.Ok? <==> story in w.stories && w.stories[story].authorId == me)
      && (r == Err(StoryNotFound) <==> story !in w.stories)
      && (r == Err(NotTheAuthor) <==> story in w.stories && w.stories[story].authorId != me)
      && (r.Err? ==> IsUntouched(w, v))
      && (r.Ok? ==>
            && v.stories.Keys == w.stories.Keys - {story} && (forall s :: s in v.stories ==> v.stories[s] == w.stories[s])
            && (forall x :: x in v.views <==> x in w.views && x.storyId != story))
  {
    ViewsKept(w.views, {story});
  }

  // ---------------------------------------------------------- come and gone

  /** A story comes only by its creation, and leaves only by a deletion of its author or a cleanup after its expiry. */
  lemma StoriesComeAndGo(w: World, e: Event, s: string)
    requires Inv(w) && Enabled(w, e)
    ensures s in Step(w, e).stories && s !in w.stories ==>
      e.DoCreate? && e.id == s && Step(w, e).stories[s].authorId == e.author
    ensures s in w.stories && s !in Step(w, e).stories ==>
      || (e.DoDelete? && e.story == s && e.author == w.stories[s].authorId)
      || (e.DoCleanup? && w.stories[s].expiresAt <= e.at.check)
    ensures s in w.stories && s in Step(w, e).stories ==> Step(w, e).stories[s] == w.stories[s]
  {
  }

  /** A view comes only by its viewer's first look at a live story, and leaves only with the story. */
  lemma ViewsComeAndGo(w: World, e: Event, x: View)
    requires Inv(w) && Enabled(w, e)
    ensures x in Step(w, e).views && x !in w.views ==>
      && e.DoLook? && e.story == x.storyId && e.viewer == x.viewerId && e.at.write == x.viewedAt
      && IsLive(w, x.storyId, e.at.check) && !HasSeen(w, x.storyId, x.viewerId)
    ensures x in w.views && x !in Step(w, e).views ==> x.storyId in w.stories && x.storyId !in Step(w, e).stories
  {
    match e
    case DoCreate(_, _, _) =>
    case DoLook(story, viewer, at) => LookExact(w, story, viewer, at);
    case DoDelete(story, me, at) => ViewsKept(w.views, {story});
    case DoCleanup(at) => ViewsKept(w.views, Expired(w, at.check));
  }

  // --------------------------------------------------------------- over runs

  /** In a run from `w` the viewer looked at the story while it was live. */
  ghost predicate Looked(w: World, es: seq<Event>, story: string, viewer: string)
    decreases |es|
  {
    es != [] &&
    (|| (es[0].DoLook? && es[0].story == story && es[0].viewer == viewer && IsLive(w, story, es[0].at.check))
     || Looked(Step(w, es[0]), es[1..], story, viewer))
  }

  lemma StepSeen(w: World, e: Event, story: string, viewer: string)
    requires Inv(w) && Enabled(w, e) && (story in w.stories ==> story in Step(w, e).stories)
    ensures HasSeen(Step(w, e), story, viewer) <==>
      || HasSeen(w, story, viewer)
      || (e.DoLook? && e.story == story && e.viewer == viewer && IsLive(w, story, e.at.check))
  {
    var v := Step(w, e);
    if t :| View(story, viewer, t) in v.views {
      ViewsComeAndGo(w, e, View(story, viewer, t));
    }
    if t :| View(story, viewer, t) in w.views {
      ViewsComeAndGo(w, e, View(story, viewer, t));
    }
    if e.DoLook? && e.story == story && e.viewer == viewer {
      LookExact(w, story, viewer, e.at);
    }
  }

  /**
   Whatever happens meanwhile, a viewer has a view of a story that is there if and only
   if they had one before or looked at it in time: no view is lost and none made up.
   */
  lemma {:induction false} ViewsAreTheLooks(w: World, es: seq<Event>, story: string, viewer: string)
    requires Inv(w) && CanRun(w, es) && story in Run(w, es).stories
    ensures HasSeen(Run(w, es), story, viewer) <==> HasSeen(w, story, viewer) || Looked(w, es, story, viewer)
    decreases |es|
  {
    if es != [] {
      var v := Step(w, es[0]);
      StepKeeps(w, es[0]);
      if story in w.stories {
        StoriesNeverChange(v, es[1..], story);
      }
      StepSeen(w, es[0], story, viewer);
      ViewsAreTheLooks(v, es[1..], story, viewer);
    }
  }
}
