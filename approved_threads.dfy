/**
  The thread-approval filter of `filter-approved-threads.ts`: from the review
  threads of a pull request, keep the unresolved ones on which a given GitHub
  user left a thumbs-up reaction on some comment, and project each kept thread
  to a smaller record whose comments carry the author's login and no reactions.
*/
module ApprovedThreads {
  import opened Wrappers
  import opened ArrayMethods

  // ---------------------------------------------------------------------------
  // Input records, shaped as the GraphQL response delivers them
  // ---------------------------------------------------------------------------

  /** The `{ login }` object that stands for a GitHub user. */
  datatype User = User(login: string)

  /** One emoji reaction on a comment; `content` is the GraphQL enum name, e.g. "THUMBS_UP". */
  datatype Reaction = Reaction(content: string, user: User)

  /** The `{ nodes }` connection holding a comment's reactions. */
  datatype ReactionConnection = ReactionConnection(nodes: seq<Reaction>)

  datatype Comment = Comment(
    id: string,
    body: string,
    author: User,
    createdAt: string,
    diffHunk: string,
    reactions: ReactionConnection)

  /** The `{ nodes }` connection holding a thread's comments. */
  datatype CommentConnection = CommentConnection(nodes: seq<Comment>)

  datatype ReviewThread = ReviewThread(
    id: string,
    isResolved: bool,
    path: string,
    line: Option<int>,
    originalLine: Option<int>,
    diffSide: string,
    comments: CommentConnection)

  // ---------------------------------------------------------------------------
  // Output records
  // ---------------------------------------------------------------------------

  /** A comment of an approved thread: the author flattened to its login, no reactions. */
  datatype ApprovedComment = ApprovedComment(
    id: string,
    body: string,
    author: string,
    createdAt: string,
    diffHunk: string)

  datatype ApprovedThread = ApprovedThread(
    id: string,
    path: string,
    line: Option<int>,
    originalLine: Option<int>,
    diffSide: string,
    comments: seq<ApprovedComment>)

  // ---------------------------------------------------------------------------
  // The approval predicate
  // ---------------------------------------------------------------------------

  const ThumbsUp: string := "THUMBS_UP"

  /** The callback of the first filter: the thread is not resolved. */
  predicate IsUnresolved(t: ReviewThread)
  {
    !t.isResolved
  }

  /** A thumbs-up left by `username`: both conditions must hold. */
  predicate IsApprovingReaction(r: Reaction, username: string)
  {
    r.content == ThumbsUp && r.user.login == username
  }

  /** The innermost `some` callback, closed over `username`. */
  function ApprovingReaction(username: string): Reaction -> bool
  {
    r => IsApprovingReaction(r, username)
  }

  /** `comment.reactions.nodes.some(...)`: the comment carries an approving reaction. */
  predicate HasApprovingReaction(c: Comment, username: string)
  {
    Any(c.reactions.nodes, ApprovingReaction(username))
  }

  /** The outer `some` callback, closed over `username`. */
  function ApprovingComment(username: string): Comment -> bool
  {
    c => HasApprovingReaction(c, username)
  }

  /** `thread.comments.nodes.some(...)`: some comment of the thread is approved by `username`. */
  predicate IsApprovedBy(t: ReviewThread, username: string)
  {
    Any(t.comments.nodes, ApprovingComment(username))
  }

  /** The callback of the second filter, closed over `username`. */
  function ApprovedBy(username: string): ReviewThread -> bool
  {
    t => IsApprovedBy(t, username)
  }

  /** The two filters taken together: what a thread needs to reach the output. */
  predicate Qualifies(t: ReviewThread, username: string)
  {
    IsUnresolved(t) && IsApprovedBy(t, username)
  }

  function Qualifying(username: string): ReviewThread -> bool
  {
    t => Qualifies(t, username)
  }

  // ---------------------------------------------------------------------------
  // Projection and the pipeline
  // ---------------------------------------------------------------------------

  function ProjectComment(c: Comment): ApprovedComment
  {
    ApprovedComment(c.id, c.body, c.author.login, c.createdAt, c.diffHunk)
  }

  function ProjectThread(t: ReviewThread): ApprovedThread
  {
    ApprovedThread(t.id, t.path, t.line, t.originalLine, t.diffSide,
                   Map(t.comments.nodes, ProjectComment))
  }

  /**
    The body of `main` between reading `nodes` and writing the result: drop
    resolved threads, keep those approved by `username`, project the rest.
  */
  function FilterApproved(threads: seq<ReviewThread>, username: string): (out: seq<ApprovedThread>)
    ensures |out| <= |threads|
  {
    var unresolved := Filter(threads, IsUnresolved);
    var approved := Filter(unresolved, ApprovedBy(username));
    Map(approved, ProjectThread)
  }

  // ---------------------------------------------------------------------------
  // The approval predicate, unfolded
  // ---------------------------------------------------------------------------

  /**
    A thread is approved by `username` exactly when some comment of it has some
    reaction whose content is "THUMBS_UP" and whose user's login is `username`.
  */
  lemma ApprovedByIff(t: ReviewThread, username: string)
    ensures IsApprovedBy(t, username) <==>
      exists i, j :: 0 <= i < |t.comments.nodes| && 0 <= j < |t.comments.nodes[i].reactions.nodes| &&
        t.comments.nodes[i].reactions.nodes[j].content == ThumbsUp &&
        t.comments.nodes[i].reactions.nodes[j].user.login == username
  {
    var cs := t.comments.nodes;
    if IsApprovedBy(t, username) {
      var i :| 0 <= i < |cs| && ApprovingComment(username)(cs[i]);
      var j :| 0 <= j < |cs[i].reactions.nodes| && ApprovingReaction(username)(cs[i].reactions.nodes[j]);
    }
    if exists i, j :: 0 <= i < |cs| && 0 <= j < |cs[i].reactions.nodes| &&
        cs[i].reactions.nodes[j].content == ThumbsUp && cs[i].reactions.nodes[j].user.login == username {
      var i, j :| 0 <= i < |cs| && 0 <= j < |cs[i].reactions.nodes| &&
        cs[i].reactions.nodes[j].content == ThumbsUp && cs[i].reactions.nodes[j].user.login == username;
      assert ApprovingReaction(username)(cs[i].reactions.nodes[j]);
      assert ApprovingComment(username)(cs[i]);
    }
  }

  /** A thumbs-up only from other users does not approve a thread for `username`. */
  lemma OtherUsersThumbsUpDoesNotApprove(t: ReviewThread, username: string)
    requires forall c, r :: c in t.comments.nodes && r in c.reactions.nodes ==> r.user.login != username
    ensures !IsApprovedBy(t, username)
  {
    ApprovedByIff(t, username);
  }

  /** Reactions of `username` other than a thumbs-up do not approve a thread either. */
  lemma OtherReactionsDoNotApprove(t: ReviewThread, username: string)
    requires forall c, r :: c in t.comments.nodes && r in c.reactions.nodes && r.user.login == username ==>
      r.content != ThumbsUp
    ensures !IsApprovedBy(t, username)
  {
    ApprovedByIff(t, username);
  }

  // ---------------------------------------------------------------------------
  // Properties of the pipeline
  // ---------------------------------------------------------------------------

  /** The two successive filters keep exactly the qualifying threads. */
  lemma {:induction false} FilterApprovedIsOneFilter(threads: seq<ReviewThread>, username: string)
    ensures FilterApproved(threads, username) == Map(Filter(threads, Qualifying(username)), ProjectThread)
  {
    FilterFusion(threads, IsUnresolved, ApprovedBy(username), Qualifying(username));
  }

  /**
    The output is the projection of the subsequence of `threads` at the
    increasing positions `KeptIndices(threads, Qualifying(username))`, which are
    exactly the positions of the qualifying threads.
  */
  lemma FilterApprovedIsProjectedSubsequence(threads: seq<ReviewThread>, username: string)
    ensures var out := FilterApproved(threads, username);
      var idx := KeptIndices(threads, Qualifying(username));
      && |out| == |idx|
      && StrictlyIncreasing(idx)
      && (forall k :: 0 <= k < |idx| ==> idx[k] < |threads| && out[k] == ProjectThread(threads[idx[k]]))
      && (forall i :: 0 <= i < |threads| ==> (Qualifies(threads[i], username) <==> i in idx))
  {
    FilterApprovedIsOneFilter(threads, username);
    FilterIsSubsequence(threads, Qualifying(username));
  }

  /** Soundness: every output record projects an unresolved thread approved by `username`. */
  lemma FilterApprovedSound(threads: seq<ReviewThread>, username: string)
    ensures forall a :: a in FilterApproved(threads, username) ==>
      exists t :: t in threads && !t.isResolved && IsApprovedBy(t, username) && a == ProjectThread(t)
  {
    FilterApprovedIsOneFilter(threads, username);
    var kept := Filter(threads, Qualifying(username));
    forall a | a in FilterApproved(threads, username)
      ensures exists t :: t in threads && !t.isResolved && IsApprovedBy(t, username) && a == ProjectThread(t)
    {
      var k :| 0 <= k < |kept| && a == ProjectThread(kept[k]);
      assert Qualifying(username)(kept[k]);
    }
  }

  /** Completeness: every unresolved thread approved by `username` is projected into the output. */
  lemma FilterApprovedComplete(threads: seq<ReviewThread>, username: string)
    ensures forall t :: t in threads && !t.isResolved && IsApprovedBy(t, username) ==>
      ProjectThread(t) in FilterApproved(threads, username)
  {
    FilterApprovedIsOneFilter(threads, username);
    var kept := Filter(threads, Qualifying(username));
    forall t | t in threads && !t.isResolved && IsApprovedBy(t, username)
      ensures ProjectThread(t) in FilterApproved(threads, username)
    {
      var i :| 0 <= i < |threads| && threads[i] == t;
      assert Qualifying(username)(threads[i]);
      var k :| 0 <= k < |kept| && kept[k] == t;
      assert FilterApproved(threads, username)[k] == ProjectThread(t);
    }
  }

  /** Threads are filtered one at a time: the result over a concatenation is the concatenation of results. */
  lemma FilterApprovedConcat(a: seq<ReviewThread>, b: seq<ReviewThread>, username: string)
    ensures FilterApproved(a + b, username) == FilterApproved(a, username) + FilterApproved(b, username)
  {
    FilterApprovedIsOneFilter(a + b, username);
    FilterApprovedIsOneFilter(a, username);
    FilterApprovedIsOneFilter(b, username);
    FilterConcat(a, b, Qualifying(username));
    MapConcat(Filter(a, Qualifying(username)), Filter(b, Qualifying(username)), ProjectThread);
  }

  /**
    `a` copies `t`'s scalar fields and all of `t`'s comments, in order, each with
    the author's login in place of the author object and the other fields unchanged.
  */
  predicate IsFaithfulCopy(a: ApprovedThread, t: ReviewThread)
  {
    && a.id == t.id
    && a.path == t.path
    && a.line == t.line
    && a.originalLine == t.originalLine
    && a.diffSide == t.diffSide
    && |a.comments| == |t.comments.nodes|
    && forall i :: 0 <= i < |a.comments| ==>
         && a.comments[i].id == t.comments.nodes[i].id
         && a.comments[i].body == t.comments.nodes[i].body
         && a.comments[i].author == t.comments.nodes[i].author.login
         && a.comments[i].createdAt == t.comments.nodes[i].createdAt
         && a.comments[i].diffHunk == t.comments.nodes[i].diffHunk
  }

  lemma ProjectThreadIsFaithfulCopy(t: ReviewThread)
    ensures IsFaithfulCopy(ProjectThread(t), t)
  {
    var a := ProjectThread(t);
    forall i | 0 <= i < |a.comments|
      ensures a.comments[i] == ProjectComment(t.comments.nodes[i])
    {
    }
  }

  /** Each output thread is a faithful copy of the input thread at the matching kept position. */
  lemma FilterApprovedCopiesFields(threads: seq<ReviewThread>, username: string)
    ensures var out := FilterApproved(threads, username);
      var idx := KeptIndices(threads, Qualifying(username));
      |out| == |idx| &&
      forall k :: 0 <= k < |idx| ==> idx[k] < |threads| && IsFaithfulCopy(out[k], threads[idx[k]])
  {
    FilterApprovedIsProjectedSubsequence(threads, username);
    var out := FilterApproved(threads, username);
    var idx := KeptIndices(threads, Qualifying(username));
    forall k | 0 <= k < |idx|
      ensures IsFaithfulCopy(out[k], threads[idx[k]])
    {
      ProjectThreadIsFaithfulCopy(threads[idx[k]]);
    }
  }

  // ---------------------------------------------------------------------------
  // The projection loses exactly the reactions and the resolved flag
  // ---------------------------------------------------------------------------

  /** Puts reactions back on a projected comment. */
  function WithReactions(a: ApprovedComment, reactions: ReactionConnection): Comment
  {
    Comment(a.id, a.body, User(a.author), a.createdAt, a.diffHunk, reactions)
  }

  /** Projecting a comment drops its reactions and nothing else. */
  lemma ProjectCommentRoundTrip(c: Comment, a: ApprovedComment, reactions: ReactionConnection)
    ensures WithReactions(ProjectComment(c), c.reactions) == c
    ensures ProjectComment(WithReactions(a, reactions)) == a
  {
  }

  /** Puts the resolved flag and each comment's reactions back on a projected thread. */
  function WithThreadState(a: ApprovedThread, isResolved: bool, reactions: seq<ReactionConnection>): ReviewThread
    requires |reactions| == |a.comments|
  {
    ReviewThread(a.id, isResolved, a.path, a.line, a.originalLine, a.diffSide,
                 CommentConnection(seq(|a.comments|, i requires 0 <= i < |a.comments| =>
                   WithReactions(a.comments[i], reactions[i]))))
  }

  /** The reactions of each comment of a thread, in order. */
  function ReactionsOf(t: ReviewThread): (rs: seq<ReactionConnection>)
    ensures |rs| == |t.comments.nodes|
  {
    Map(t.comments.nodes, (c: Comment) => c.reactions)
  }

  /** Projecting a thread drops its resolved flag and its comments' reactions, and nothing else. */
  lemma ProjectThreadRoundTrip(t: ReviewThread)
    ensures WithThreadState(ProjectThread(t), t.isResolved, ReactionsOf(t)) == t
  {
    var back := WithThreadState(ProjectThread(t), t.isResolved, ReactionsOf(t));
    assert back.comments.nodes == t.comments.nodes by {
      forall i | 0 <= i < |t.comments.nodes|
        ensures back.comments.nodes[i] == t.comments.nodes[i]
      {
        ProjectCommentRoundTrip(t.comments.nodes[i], ProjectComment(t.comments.nodes[i]), t.comments.nodes[i].reactions);
      }
    }
  }
}
