/** Concrete inputs: one approved thread, and the variations that must drop it. */
module Scenarios {
  import opened Wrappers
  import opened ArrayMethods
  import opened ApprovedThreads

  function PlainComment(id: string, reactions: seq<Reaction>): Comment
  {
    Comment(id, "please rename", User("bob"), "2024-01-01T00:00:00Z", "@@ -1 +1 @@", ReactionConnection(reactions))
  }

  function OneThread(resolved: bool, comments: seq<Comment>): ReviewThread
  {
    ReviewThread("T1", resolved, "src/a.ts", Some(3), None, "RIGHT", CommentConnection(comments))
  }

  /** An unresolved thread with alice's thumbs-up is kept and projected. */
  lemma ThumbsUpFromUserIsKept()
    ensures var t := OneThread(false, [PlainComment("C1", [Reaction("THUMBS_UP", User("alice"))])]);
      FilterApproved([t], "alice") ==
        [ApprovedThread("T1", "src/a.ts", Some(3), None, "RIGHT",
           [ApprovedComment("C1", "please rename", "bob", "2024-01-01T00:00:00Z", "@@ -1 +1 @@")])]
  {
    var t := OneThread(false, [PlainComment("C1", [Reaction("THUMBS_UP", User("alice"))])]);
    assert IsApprovedBy(t, "alice") by {
      assert ApprovingReaction("alice")(t.comments.nodes[0].reactions.nodes[0]);
      assert ApprovingComment("alice")(t.comments.nodes[0]);
    }
    assert Filter([t], IsUnresolved) == [t];
    assert Filter([t], ApprovedBy("alice")) == [t];
    assert Map([t], ProjectThread) == [ProjectThread(t)];
    assert Map(t.comments.nodes, ProjectComment) == [ProjectComment(t.comments.nodes[0])];
  }

  /** A thumbs-down from the same user does not approve the thread. */
  lemma ThumbsDownIsDropped()
    ensures FilterApproved([OneThread(false, [PlainComment("C1", [Reaction("THUMBS_DOWN", User("alice"))])])], "alice") == []
  {
    var t := OneThread(false, [PlainComment("C1", [Reaction("THUMBS_DOWN", User("alice"))])]);
    OtherReactionsDoNotApprove(t, "alice");
    assert Filter([t], IsUnresolved) == [t];
  }

  /** A resolved thread is dropped even when approved. */
  lemma ResolvedIsDropped()
    ensures FilterApproved([OneThread(true, [PlainComment("C1", [Reaction("THUMBS_UP", User("alice"))])])], "alice") == []
  {
  }

  /** Filtering is per thread: both comments are kept although only the second carries the reaction. */
  lemma AllCommentsOfApprovedThreadKept()
    ensures var t := OneThread(false, [PlainComment("C1", []), PlainComment("C2", [Reaction("THUMBS_UP", User("alice"))])]);
      var out := FilterApproved([t], "alice");
      |out| == 1 && |out[0].comments| == 2 && out[0].comments[0].id == "C1" && out[0].comments[1].id == "C2"
  {
    var t := OneThread(false, [PlainComment("C1", []), PlainComment("C2", [Reaction("THUMBS_UP", User("alice"))])]);
    assert IsApprovedBy(t, "alice") by {
      assert ApprovingReaction("alice")(t.comments.nodes[1].reactions.nodes[0]);
      assert ApprovingComment("alice")(t.comments.nodes[1]);
    }
    assert Filter([t], IsUnresolved) == [t];
    assert Filter([t], ApprovedBy("alice")) == [t];
    assert Map([t], ProjectThread) == [ProjectThread(t)];
    assert ProjectThread(t).comments[0] == ProjectComment(t.comments.nodes[0]);
    assert ProjectThread(t).comments[1] == ProjectComment(t.comments.nodes[1]);
  }
}
