# Approved review threads

A model of `filter-approved-threads.ts`, the script that narrows the review
threads of a pull request (as returned by GitHub's GraphQL API) to those a
given reviewer approved. A thread is kept when it is not resolved and some
comment in it carries a `THUMBS_UP` reaction whose user's login is the given
username. Each kept thread is projected to an `ApprovedThread`: the thread's
`id`, `path`, `line`, `originalLine` and `diffSide` are copied, and every
comment (not only the one with the reaction) is flattened to
`{id, body, author, createdAt, diffHunk}` with the author's login as a plain
string and the reactions dropped.

Files:

- `wrappers.dfy`: `Option`, for the `number | null` line fields.
- `array_methods.dfy`: the JavaScript array methods the script is built
  from (`filter`, `some`, `map`) as functions on sequences, with generic
  lemmas: a filter keeps a subsequence, at the positions `KeptIndices`; it
  distributes over concatenation; two filters in a row equal one filter on the
  conjunction.
- `approved_threads.dfy`: the records of the GraphQL response and of the
  output, the approval predicate, the projection, `FilterApproved` (the
  unresolved filter, then the approval filter, then the projection, exactly as
  chained in `main`) and its properties: soundness, completeness, order,
  faithful projection, and both conditions of the reaction test.
- `scenarios.dfy`: concrete inputs: an approved thread is kept, a thumbs-down
  or a resolved thread is dropped, and an approved thread keeps all its comments.

The nested `{ login }` objects and `{ nodes }` connections of the response are
kept as datatypes (`User`, `ReactionConnection`, `CommentConnection`), so
field access reads as in the script (`thread.comments.nodes`,
`reaction.user.login`).

## Model

| member | source | states |
|---|---|---|
| ArrayMethods.Filter | skills/implement-pr-suggestions/scripts/filter-approved-threads.ts:111-122 | `filter` returns no more elements than it is given, only elements of the input that satisfy the callback, and every input element that satisfies it |
| ArrayMethods.Any | skills/implement-pr-suggestions/scripts/filter-approved-threads.ts:115-121 | `some` is true exactly when the callback holds of at least one element |
| ArrayMethods.KeptIndices | skills/implement-pr-suggestions/scripts/filter-approved-threads.ts:111-122 | the positions a filter keeps are strictly increasing, in range, satisfy the callback, and include every position whose element satisfies it |
| ArrayMethods.FilterConcat | skills/implement-pr-suggestions/scripts/filter-approved-threads.ts:111-122 | filtering a concatenation is the concatenation of the filtered parts |
| ArrayMethods.FilterIsSubsequence | skills/implement-pr-suggestions/scripts/filter-approved-threads.ts:111-122 | a filter's result is the input read at the kept positions, so order is preserved |
| ArrayMethods.FilterFusion | skills/implement-pr-suggestions/scripts/filter-approved-threads.ts:111-122 | filtering by one callback and then another equals one filter by their conjunction |
| ArrayMethods.MapConcat | skills/implement-pr-suggestions/scripts/filter-approved-threads.ts:123-136 | `map` over a concatenation is the concatenation of the mapped parts |
| ApprovedThreads.FilterApproved | skills/implement-pr-suggestions/scripts/filter-approved-threads.ts:109-136 | the pipeline's output is never longer than the input thread list |
| ApprovedThreads.ApprovedByIff | skills/implement-pr-suggestions/scripts/filter-approved-threads.ts:113-122 | a thread is approved by a user exactly when some comment has some reaction with content `THUMBS_UP` and user login equal to the username |
| ApprovedThreads.OtherUsersThumbsUpDoesNotApprove | skills/implement-pr-suggestions/scripts/filter-approved-threads.ts:118-119 | thumbs-up reactions from other users alone never approve a thread |
| ApprovedThreads.OtherReactionsDoNotApprove | skills/implement-pr-suggestions/scripts/filter-approved-threads.ts:118-119 | reactions by the named user other than `THUMBS_UP` alone never approve a thread |
| ApprovedThreads.FilterApprovedIsOneFilter | skills/implement-pr-suggestions/scripts/filter-approved-threads.ts:111-123 | the unresolved filter followed by the approval filter keeps exactly the threads that are unresolved and approved |
| ApprovedThreads.FilterApprovedIsProjectedSubsequence | skills/implement-pr-suggestions/scripts/filter-approved-threads.ts:111-136 | the output is the projection of the input threads at strictly increasing positions, and a position is among them exactly when its thread is unresolved and approved |
| ApprovedThreads.FilterApprovedSound | skills/implement-pr-suggestions/scripts/filter-approved-threads.ts:111-122 | every output record is the projection of an input thread that is unresolved and approved by the user |
| ApprovedThreads.FilterApprovedComplete | skills/implement-pr-suggestions/scripts/filter-approved-threads.ts:111-123 | the projection of every unresolved input thread approved by the user is in the output |
| ApprovedThreads.FilterApprovedConcat | skills/implement-pr-suggestions/scripts/filter-approved-threads.ts:111-136 | threads are judged one by one: the output for a concatenated input is the concatenation of the outputs |
| ApprovedThreads.ProjectThreadIsFaithfulCopy | skills/implement-pr-suggestions/scripts/filter-approved-threads.ts:123-135 | a projected thread has the source's id, path, line, originalLine and diffSide, the same number of comments in the same order, and each comment's id, body, createdAt, diffHunk and author login |
| ApprovedThreads.FilterApprovedCopiesFields | skills/implement-pr-suggestions/scripts/filter-approved-threads.ts:123-136 | each output thread is such a faithful copy of the input thread at the matching kept position |
| ApprovedThreads.ProjectCommentRoundTrip | skills/implement-pr-suggestions/scripts/filter-approved-threads.ts:129-135 | projecting a comment loses its reactions and nothing else: putting them back restores the comment, and projecting a rebuilt comment gives back the projection |
| ApprovedThreads.ProjectThreadRoundTrip | skills/implement-pr-suggestions/scripts/filter-approved-threads.ts:123-136 | projecting a thread loses only its resolved flag and its comments' reactions: putting them back restores the thread |
| Scenarios.ThumbsUpFromUserIsKept | skills/implement-pr-suggestions/scripts/filter-approved-threads.ts:111-136 | an unresolved thread with the user's thumbs-up yields exactly its projection |
| Scenarios.ThumbsDownIsDropped | skills/implement-pr-suggestions/scripts/filter-approved-threads.ts:118-119 | a thumbs-down from the user yields an empty output |
| Scenarios.ResolvedIsDropped | skills/implement-pr-suggestions/scripts/filter-approved-threads.ts:111 | a resolved thread yields an empty output even with the user's thumbs-up |
| Scenarios.AllCommentsOfApprovedThreadKept | skills/implement-pr-suggestions/scripts/filter-approved-threads.ts:129 | an approved thread keeps all its comments, in order, not only the one with the reaction |

## Left out

- Argument-count check and usage message (lines 80-89): command-line plumbing; the username is a parameter of `FilterApproved`.
- Reading the input file and its error exit (lines 91-98): file I/O.
- `JSON.parse` and its error exit (lines 100-107): the runtime's JSON parser is not part of this model; the model starts from typed records, so a malformed-JSON input has no counterpart here.
- Reaching `data.repository.pullRequest.reviewThreads.nodes` (line 109): untyped access to the parsed JSON; the `nodes` sequence is the model's input, and the response's `number` and `headRefName` fields, which play no part, are not modelled.
- Creating the output directory, `JSON.stringify` with two-space indentation and writing the file (lines 138-139): file I/O and library serialisation; the model's result is the array that is serialised.
- `console.log`, `console.error` and `process.exit` (lines 83-86, 95-97, 104-106, 140): console and process side effects.
- Running the filter twice on the same input gives the same output: this holds of any Dafny function and is not stated separately.
- `line` and `originalLine` are JavaScript numbers (or null) in the script and unbounded integers here: they are only copied, never computed on, so the difference does not show.
