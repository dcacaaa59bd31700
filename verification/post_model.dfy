/**
 * The data model of the post/poll/vote backend (backend/src/models) and the
 * pure parts of its request handlers (backend/src/api.ts): payload
 * validation, the read access rule, the ordered lookup of a post's polls,
 * and the specification of a vote submission.
 */
module PostModel {
  import opened Wrappers
  import opened ErrorTypes

  // ---------------------------------------------------------------------------
  // Rows of the relational store

  /** A registered user; only the public profile fields a post read returns. */
  datatype User = User(id: int, name: string)

  /** A post; `isPublished` is false when the post is created. */
  datatype Post = Post(id: int, title: string, authorId: int, isPublished: bool)

  /** A poll row. `deleted` is the soft-delete mark of a paranoid model. */
  datatype Poll = Poll(
    id: int,
    postId: int,
    name: string,
    style: int,
    options: seq<string>,
    maxChosenOptionsCount: int,
    deleted: bool)

  /** One selected option of one poll by one user; the table keeps at most one row per triple. */
  datatype Choice = Choice(userId: int, pollId: int, optionIndex: int)

  // ---------------------------------------------------------------------------
  // Request payloads

  /** A poll as the client submits it. */
  datatype PollSpec = PollSpec(name: string, style: int, options: seq<string>, maxChosenOptionsCount: int)

  /** A post as the client submits it for creation or update. */
  datatype PostPayload = PostPayload(title: string, polls: seq<PollSpec>)

  /** One (pollId, optionIndex) pair of a vote submission. */
  datatype ChoiceRequest = ChoiceRequest(pollId: int, optionIndex: int)

  /** The poll row a submitted poll becomes: its four fields copied, not soft-deleted. */
  function FromSpec(id: int, postId: int, spec: PollSpec): Poll {
    Poll(id, postId, spec.name, spec.style, spec.options, spec.maxChosenOptionsCount, false)
  }

  // ---------------------------------------------------------------------------
  // verifyPost

  /** What `verifyPost` demands of one poll; the option labels themselves are not looked at. */
  predicate ValidPollSpec(p: PollSpec) {
    |p.name| > 0 && |p.options| > 0 && 1 <= p.maxChosenOptionsCount <= |p.options|
  }

  /** What `verifyPost` demands of a post: a title, at least one poll, and every poll well formed. */
  predicate ValidPayload(post: PostPayload) {
    && |post.title| > 0
    && |post.polls| > 0
    && forall i :: 0 <= i < |post.polls| ==> ValidPollSpec(post.polls[i])
  }

  /** `verifyPost`: the shape check run before any write, returning at the first bad poll. */
  method VerifyPost(post: PostPayload) returns (ok: bool)
    ensures ok <==> ValidPayload(post)
  {
    if |post.title| == 0 {
      return false;
    }
    if |post.polls| == 0 {
      return false;
    }
    for i := 0 to |post.polls|
      invariant forall j :: 0 <= j < i ==> ValidPollSpec(post.polls[j])
    {
      var poll := post.polls[i];
      if |poll.name| == 0
        || |poll.options| == 0
        || poll.maxChosenOptionsCount < 1
        || poll.maxChosenOptionsCount > |poll.options|
      {
        return false;
      }
    }
    return true;
  }

  /** Option labels are not checked: a poll whose only label is empty passes. */
  lemma EmptyLabelsPass()
    ensures ValidPayload(PostPayload("T", [PollSpec("P1", 0, [""], 1)]))
  {
    assert ValidPollSpec(PostPayload("T", [PollSpec("P1", 0, [""], 1)]).polls[0]);
  }

  // ---------------------------------------------------------------------------
  // The read access rule

  /**
   * The checks of the post GET handler, in order: a missing post is
   * NotFound whoever asks; an unpublished post is Forbidden unless the
   * requester is signed in as its author.
   */
  function ReadAccess(post: Option<Post>, requester: Option<int>): (r: Result<Post>)
    ensures post.None? ==> r == Err(NotFoundError)
    ensures post.Some? && (post.value.isPublished || requester == Some(post.value.authorId)) ==> r == Ok(post.value)
    ensures post.Some? && !post.value.isPublished && requester != Some(post.value.authorId) ==> r == Err(Forbidden)
  {
    match post
    case None => Err(NotFoundError)
    case Some(p) =>
      if !p.isPublished && (requester.None? || requester.value != p.authorId) then Err(Forbidden)
      else Ok(p)
  }

  /** Nobody but the author, and never an anonymous requester, reads an unpublished post. */
  lemma {:induction false} UnpublishedReadOnlyByAuthor(p: Post, requester: Option<int>)
    ensures ReadAccess(Some(p), requester).Ok? ==> p.isPublished || requester == Some(p.authorId)
    ensures ReadAccess(Some(p), None).Ok? ==> p.isPublished
  {
  }

  // ---------------------------------------------------------------------------
  // Poll.findAll({ where: { postId } }), with and without `paranoid: false`

  /** Whether `Poll.findAll` returns the row with key `id`: soft-deleted rows only when asked for. */
  predicate Selected(polls: map<int, Poll>, postId: int, withDeleted: bool, id: int) {
    id in polls && polls[id].postId == postId && (withDeleted || !polls[id].deleted)
  }

  /**
   * The ids of a post's polls among the keys below `bound`, in creation
   * (auto-increment) order. `withDeleted` is the query's `paranoid: false`.
   */
  function FindPolls(polls: map<int, Poll>, postId: int, bound: nat, withDeleted: bool): (ids: seq<int>)
    ensures |ids| <= bound
  {
    if bound == 0 then []
    else
      var ids := FindPolls(polls, postId, bound - 1, withDeleted);
      if Selected(polls, postId, withDeleted, bound - 1) then ids + [bound - 1] else ids
  }

  /**
   * The lookup lists exactly the selected keys below the bound, each once,
   * in increasing order.
   */
  lemma {:induction false} FindPollsExact(polls: map<int, Poll>, postId: int, bound: nat, withDeleted: bool)
    ensures forall k :: 0 <= k < |FindPolls(polls, postId, bound, withDeleted)| ==>
      var id := FindPolls(polls, postId, bound, withDeleted)[k];
      0 <= id < bound && Selected(polls, postId, withDeleted, id)
    ensures forall j, k :: 0 <= j < k < |FindPolls(polls, postId, bound, withDeleted)| ==>
      FindPolls(polls, postId, bound, withDeleted)[j] < FindPolls(polls, postId, bound, withDeleted)[k]
    ensures forall id :: 0 <= id < bound && Selected(polls, postId, withDeleted, id) ==>
      id in FindPolls(polls, postId, bound, withDeleted)
  {
    if bound > 0 {
      FindPollsExact(polls, postId, bound - 1, withDeleted);
      var prefix := FindPolls(polls, postId, bound - 1, withDeleted);
      var ids := FindPolls(polls, postId, bound, withDeleted);
      if Selected(polls, postId, withDeleted, bound - 1) {
        assert ids == prefix + [bound - 1];
        assert forall k :: 0 <= k < |prefix| ==> ids[k] == prefix[k];
      } else {
        assert ids == prefix;
      }
    }
  }

  /** The lookup depends only on which keys below the bound are selected. */
  lemma {:induction false} FindPollsFrame(p1: map<int, Poll>, p2: map<int, Poll>, postId: int, bound: nat, withDeleted: bool)
    requires forall id :: 0 <= id < bound ==> (Selected(p1, postId, withDeleted, id) <==> Selected(p2, postId, withDeleted, id))
    ensures FindPolls(p1, postId, bound, withDeleted) == FindPolls(p2, postId, bound, withDeleted)
  {
    if bound > 0 {
      FindPollsFrame(p1, p2, postId, bound - 1, withDeleted);
    }
  }

  /** Inserting a poll under the next free key appends that key to the lookup exactly when it is selected. */
  lemma FindPollsInsert(polls: map<int, Poll>, postId: int, key: nat, q: Poll, withDeleted: bool)
    requires forall id :: id in polls ==> id < key
    ensures FindPolls(polls[key := q], postId, key + 1, withDeleted)
         == FindPolls(polls, postId, key, withDeleted)
            + (if q.postId == postId && (withDeleted || !q.deleted) then [key] else [])
  {
    FindPollsFrame(polls[key := q], polls, postId, key, withDeleted);
  }

  /** A post none of whose polls is selected has an empty lookup. */
  lemma {:induction false} FindPollsNone(polls: map<int, Poll>, postId: int, bound: nat, withDeleted: bool)
    requires forall id :: 0 <= id < bound ==> !Selected(polls, postId, withDeleted, id)
    ensures FindPolls(polls, postId, bound, withDeleted) == []
  {
    if bound > 0 {
      FindPollsNone(polls, postId, bound - 1, withDeleted);
    }
  }

  /** Keeps the live ids of `ids`, in order. */
  function LiveOnly(polls: map<int, Poll>, ids: seq<int>): (live: seq<int>)
    ensures |live| <= |ids|
  {
    if |ids| == 0 then []
    else
      var last := ids[|ids| - 1];
      LiveOnly(polls, ids[..|ids| - 1]) + (if last in polls && !polls[last].deleted then [last] else [])
  }

  /** A list of live ids is its own live part. */
  lemma {:induction false} LiveOnlyOfLive(polls: map<int, Poll>, ids: seq<int>)
    ensures (forall k :: 0 <= k < |ids| ==> ids[k] in polls && !polls[ids[k]].deleted) ==> LiveOnly(polls, ids) == ids
  {
    if |ids| > 0 {
      LiveOnlyOfLive(polls, ids[..|ids| - 1]);
      assert ids[..|ids| - 1] + [ids[|ids| - 1]] == ids;
    }
  }

  /**
   * When every key lies below the bound, the two lookups of a post differ
   * exactly when a soft-deleted poll of the post exists.
   */
  lemma LookupsDifferIffSoftDeleted(polls: map<int, Poll>, postId: int, bound: nat)
    requires forall id :: id in polls ==> 0 <= id < bound
    ensures FindPolls(polls, postId, bound, true) != FindPolls(polls, postId, bound, false) <==>
            exists id :: id in polls && polls[id].postId == postId && polls[id].deleted
  {
    var all, live := FindPolls(polls, postId, bound, true), FindPolls(polls, postId, bound, false);
    if exists id :: id in polls && polls[id].postId == postId && polls[id].deleted {
      var id :| id in polls && polls[id].postId == postId && polls[id].deleted;
      FindPollsExact(polls, postId, bound, true);
      FindPollsExact(polls, postId, bound, false);
      assert id in all && id !in live;
    } else {
      FindPollsExact(polls, postId, bound, true);
      FindLiveIsFiltered(polls, postId, bound);
      LiveOnlyOfLive(polls, all);
    }
  }


  /** The default (paranoid) lookup is the full lookup with soft-deleted rows dropped. */
  lemma {:induction false} FindLiveIsFiltered(polls: map<int, Poll>, postId: int, bound: nat)
    ensures FindPolls(polls, postId, bound, false) == LiveOnly(polls, FindPolls(polls, postId, bound, true))
  {
    if bound > 0 {
      FindLiveIsFiltered(polls, postId, bound - 1);
      var all := FindPolls(polls, postId, bound, true);
      var prev := FindPolls(polls, postId, bound - 1, true);
      if Selected(polls, postId, true, bound - 1) {
        assert all[..|all| - 1] == prev;
      }
    }
  }

  /** A list whose first `n` polls are live and whose others are soft-deleted keeps exactly its first `n`. */
  lemma {:induction false} LiveOnlyPrefix(polls: map<int, Poll>, ids: seq<int>, n: nat)
    requires n <= |ids|
    requires forall k :: 0 <= k < |ids| ==> ids[k] in polls
    requires forall k :: 0 <= k < n ==> !polls[ids[k]].deleted
    requires forall k :: n <= k < |ids| ==> polls[ids[k]].deleted
    ensures LiveOnly(polls, ids) == ids[..n]
  {
    if |ids| > 0 {
      var m := |ids| - 1;
      LiveOnlyPrefix(polls, ids[..m], if n <= m then n else m);
      if n == |ids| {
        assert ids[..m] + [ids[m]] == ids;
      }
    }
  }

  /**
   * When exactly the first `n` polls of a post's full lookup are live, its
   * default lookup is that prefix.
   */
  lemma LiveLookupIsPrefix(polls: map<int, Poll>, postId: int, bound: nat, n: nat)
    requires n <= |FindPolls(polls, postId, bound, true)|
    requires forall k :: 0 <= k < |FindPolls(polls, postId, bound, true)| ==>
      var id := FindPolls(polls, postId, bound, true)[k];
      id in polls && (polls[id].deleted <==> n <= k)
    ensures FindPolls(polls, postId, bound, false) == FindPolls(polls, postId, bound, true)[..n]
  {
    FindLiveIsFiltered(polls, postId, bound);
    LiveOnlyPrefix(polls, FindPolls(polls, postId, bound, true), n);
  }

  // ---------------------------------------------------------------------------
  // The vote submission, as a function of the choice table

  /** Whether the vote handler inserts a row for this pair: its poll is a live poll of the post and its index is in range. */
  predicate Acceptable(polls: map<int, Poll>, live: seq<int>, req: ChoiceRequest) {
    req.pollId in live && req.pollId in polls && 0 <= req.optionIndex < |polls[req.pollId].options|
  }

  /** The rows a submission inserts for `userId`: one per acceptable pair, duplicates once. */
  function AcceptedChoices(polls: map<int, Poll>, live: seq<int>, userId: int, requests: seq<ChoiceRequest>): (accepted: set<Choice>)
    ensures forall c :: c in accepted <==>
      c.userId == userId
      && Acceptable(polls, live, ChoiceRequest(c.pollId, c.optionIndex))
      && ChoiceRequest(c.pollId, c.optionIndex) in requests
  {
    if |requests| == 0 then {}
    else
      var last := requests[|requests| - 1];
      var prev := requests[..|requests| - 1];
      assert requests == prev + [last];
      AcceptedChoices(polls, live, userId, prev)
        + (if Acceptable(polls, live, last) then {Choice(userId, last.pollId, last.optionIndex)} else {})
  }

  /** The user's rows on the post's live polls. */
  predicate Replaced(live: seq<int>, userId: int, c: Choice) {
    c.userId == userId && c.pollId in live
  }

  /** The table after a vote submission: the user's rows on the post's live polls replaced by the accepted pairs. */
  function ReplaceChoices(choices: set<Choice>, polls: map<int, Poll>, live: seq<int>, userId: int, requests: seq<ChoiceRequest>): set<Choice>
  {
    (set c | c in choices && !Replaced(live, userId, c)) + AcceptedChoices(polls, live, userId, requests)
  }

  /**
   * After a submission the user's rows on the post's live polls are exactly
   * the accepted pairs, and every other row is as it was.
   */
  lemma ReplaceChoicesExact(choices: set<Choice>, polls: map<int, Poll>, live: seq<int>, userId: int, requests: seq<ChoiceRequest>, c: Choice)
    ensures Replaced(live, userId, c) ==>
      (c in ReplaceChoices(choices, polls, live, userId, requests) <==> c in AcceptedChoices(polls, live, userId, requests))
    ensures !Replaced(live, userId, c) ==>
      (c in ReplaceChoices(choices, polls, live, userId, requests) <==> c in choices)
  {
  }

  /** Submitting the same list twice leaves the table as submitting it once. */
  lemma {:induction false} ReplaceChoicesIdempotent(choices: set<Choice>, polls: map<int, Poll>, live: seq<int>, userId: int, requests: seq<ChoiceRequest>)
    ensures var once := ReplaceChoices(choices, polls, live, userId, requests);
      ReplaceChoices(once, polls, live, userId, requests) == once
  {
    var once := ReplaceChoices(choices, polls, live, userId, requests);
    var twice := ReplaceChoices(once, polls, live, userId, requests);
    forall c ensures c in twice <==> c in once {
      ReplaceChoicesExact(choices, polls, live, userId, requests, c);
      ReplaceChoicesExact(once, polls, live, userId, requests, c);
    }
  }

  /**
   * The max-choices bound is not enforced: a poll allowing one choice keeps
   * both options of a submission that selects two.
   */
  lemma MaxChosenNotEnforced()
    ensures var poll := Poll(0, 0, "P1", 0, ["x", "y"], 1, false);
      var accepted := AcceptedChoices(map[0 := poll], [0], 7, [ChoiceRequest(0, 0), ChoiceRequest(0, 1)]);
      accepted == {Choice(7, 0, 0), Choice(7, 0, 1)} && |accepted| > poll.maxChosenOptionsCount
  {
    var poll := Poll(0, 0, "P1", 0, ["x", "y"], 1, false);
    var reqs := [ChoiceRequest(0, 0), ChoiceRequest(0, 1)];
    assert reqs[..1] == [ChoiceRequest(0, 0)];
    assert [ChoiceRequest(0, 0)][..0] == [];
    assert Acceptable(map[0 := poll], [0], ChoiceRequest(0, 0));
    assert Acceptable(map[0 := poll], [0], ChoiceRequest(0, 1));
    assert |{Choice(7, 0, 0), Choice(7, 0, 1)}| == 2;
  }
}
