/**
  The home feed: the view-model starts observing the posts when it is
  created; each snapshot replaces the list, and an upstream error records
  its message.
 */
module Homefeed {
  import opened Outcomes
  import opened Domain
  import Flows

  datatype FeedState = FeedState(posts: seq<Post>, error: Option<string>)

  /** An empty feed without error. */
  function Initial(): (s: FeedState)
    ensures |s.posts| == 0 && s.error.None?
  {
    FeedState([], None)
  }

  /** `observePosts` over the events the upstream delivers. */
  function ObservePosts(s: FeedState, upstream: seq<Flows.StreamEvent<Post>>): (r: FeedState)
    ensures var k := Flows.FirstError(upstream);
      && r.posts == Flows.Latest(s.posts, upstream[..k], Flows.SnapshotOf)
      && r.error == (if k < |upstream| then upstream[k].message else s.error)
  {
    var view := Flows.Observe(Flows.ListView(s.posts, s.error), upstream);
    Flows.ObserveIsLastSnapshot(Flows.ListView(s.posts, s.error), upstream);
    FeedState(view.items, view.error)
  }

  /**
    A view-model created and then fed `upstream`: observation starts at
    construction, so the feed is the last snapshot before any error, or empty.
   */
  function Created(upstream: seq<Flows.StreamEvent<Post>>): (r: FeedState)
    ensures var k := Flows.FirstError(upstream);
      && r.posts == Flows.Latest([], upstream[..k], Flows.SnapshotOf)
      && r.error == (if k < |upstream| then upstream[k].message else None)
  {
    ObservePosts(Initial(), upstream)
  }

  /** Before the first error, each snapshot becomes the feed exactly, in the order delivered. */
  lemma SnapshotReplacesFeed(s: FeedState, upstream: seq<Flows.StreamEvent<Post>>, posts: seq<Post>)
    requires Flows.FirstError(upstream) == |upstream|
    ensures ObservePosts(s, upstream + [Flows.Emit(posts)]) == ObservePosts(s, upstream).(posts := posts)
  {
    Flows.ObserveSnapshotReplaces(Flows.ListView(s.posts, s.error), upstream, posts);
  }

  /** An error records its message and leaves the posts at the last snapshot. */
  lemma ErrorKeepsPosts(s: FeedState, upstream: seq<Flows.StreamEvent<Post>>, m: Option<string>)
    requires Flows.FirstError(upstream) == |upstream|
    ensures ObservePosts(s, upstream + [Flows.Error(m)]) == ObservePosts(s, upstream).(error := m)
  {
    Flows.FirstErrorAtEnd(upstream, m);
    assert (upstream + [Flows.Error(m)])[..|upstream|] == upstream;
  }
}
