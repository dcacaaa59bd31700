/**
 * The `/api/post/` and `/api/post_options_choices` handlers (backend/src/api.ts)
 * over an in-memory model of the relational store. Each write handler runs
 * as one transaction: it either applies all of its writes or answers with an
 * error and leaves the store as it was.
 */
module Api {
  import opened Wrappers
  import opened ErrorTypes
  import opened PostModel
  import opened Tables
  import Aggregation

  /** One poll as the post GET handler returns it, with its aggregated results. */
  datatype PollView = PollView(
    id: int,
    name: string,
    style: int,
    options: seq<string>,
    results: seq<int>,
    answersCount: int,
    maxChosenOptionsCount: int)

  /** A post as the post GET handler returns it. */
  datatype PostView = PostView(id: int, title: string, author: User, isPublished: bool, polls: seq<PollView>)

  /** The rows of poll `pollId`. */
  function PollRows(choices: set<Choice>, pollId: int): set<Choice> {
    set c | c in choices && c.pollId == pollId
  }

  /** The rows of poll `pollId` that select option `k`. */
  function OptionRows(choices: set<Choice>, pollId: int, k: int): set<Choice> {
    Aggregation.Selecting(PollRows(choices, pollId), k)
  }

  /** The users who hold a row on poll `pollId`. */
  function PollVoters(choices: set<Choice>, pollId: int): set<int> {
    set c | c in choices && c.pollId == pollId :: c.userId
  }

  /** `view` shows poll `p` with one tally slot per option and the distinct voters of `choices`. */
  predicate ShowsPoll(view: PollView, p: Poll, choices: set<Choice>) {
    && view.id == p.id && view.name == p.name && view.style == p.style
    && view.options == p.options && view.maxChosenOptionsCount == p.maxChosenOptionsCount
    && |view.results| == |p.options|
    && (forall k :: 0 <= k < |p.options| ==> view.results[k] == |OptionRows(choices, p.id, k)|)
    && view.answersCount == |PollVoters(choices, p.id)|
  }

  class Store {
    /** The user table, written only by the login flow. */
    var users: map<int, User>
    /** The post table, keyed by id. */
    var posts: map<int, Post>
    /** The poll table, keyed by id, soft-deleted rows included. */
    var polls: map<int, Poll>
    /** The choice table; a set, as the (userId, pollId, optionIndex) index is unique. */
    var choices: set<Choice>
    /** The next auto-increment post id. */
    var nextPostId: nat
    /** The next auto-increment poll id; poll ids grow in creation order. */
    var nextPollId: nat

    /** The store's integrity constraints hold. */
    ghost predicate Valid()
      reads this
    {
      Consistent(posts, polls, choices, nextPostId, nextPollId)
    }

    /** Some soft-deleted poll row still references the post. */
    ghost predicate HasSoftDeletedPolls(postId: int)
      reads this
    {
      exists id :: id in polls && polls[id].postId == postId && polls[id].deleted
    }

    /** `Poll.findAll({ where: { postId }, paranoid: false })`: all of a post's polls in creation order. */
    function AllPolls(postId: int): (ids: seq<int>)
      reads this
      ensures forall k :: 0 <= k < |ids| ==> ids[k] in polls && polls[ids[k]].postId == postId
      ensures forall j, k :: 0 <= j < k < |ids| ==> ids[j] < ids[k]
      ensures forall id :: 0 <= id < nextPollId && id in polls && polls[id].postId == postId ==> id in ids
    {
      FindPollsExact(polls, postId, nextPollId, true);
      FindPolls(polls, postId, nextPollId, true)
    }

    /** `Poll.findAll({ where: { postId } })`: a post's live polls in creation order. */
    function LivePolls(postId: int): (ids: seq<int>)
      reads this
      ensures forall k :: 0 <= k < |ids| ==> ids[k] in polls && polls[ids[k]].postId == postId && !polls[ids[k]].deleted
      ensures forall j, k :: 0 <= j < k < |ids| ==> ids[j] < ids[k]
      ensures forall id :: 0 <= id < nextPollId && id in polls && polls[id].postId == postId && !polls[id].deleted ==> id in ids
    {
      FindPollsExact(polls, postId, nextPollId, false);
      FindPolls(polls, postId, nextPollId, false)
    }

    /** An empty store over a given user table. */
    constructor (users: map<int, User>)
      ensures Valid()
      ensures this.users == users && posts == map[] && polls == map[] && choices == {}
    {
      this.users := users;
      posts, polls, choices := map[], map[], {};
      nextPostId, nextPollId := 0, 0;
    }

    // -------------------------------------------------------------------------
    // GET /api/post/

    /** `PollOptionChoice.findAll({ where: { pollId } })`: the poll's rows, each once, in some order. */
    method ChoicesOf(pollId: int) returns (rows: seq<Choice>)
      ensures forall i, j :: 0 <= i < j < |rows| ==> rows[i] != rows[j]
      ensures forall c :: c in rows <==> c in choices && c.pollId == pollId
    {
      var rest := set c | c in choices && c.pollId == pollId;
      rows := [];
      while rest != {}
        invariant forall c :: c in rows ==> c in choices && c.pollId == pollId && c !in rest
        invariant forall c :: c in rest ==> c in choices && c.pollId == pollId
        invariant forall c :: c in choices && c.pollId == pollId ==> c in rows || c in rest
        invariant forall i, j :: 0 <= i < j < |rows| ==> rows[i] != rows[j]
        decreases |rest|
      {
        var c :| c in rest;
        rows := rows + [c];
        rest := rest - {c};
      }
    }

    /**
     * The post GET handler: NotFound, then the access rule, then the author
     * lookup (UnknownError when the author row is missing), then every live
     * poll with its tally and distinct-voter count.
     */
    method Read(requester: Option<int>, postId: int) returns (r: Result<PostView>)
      requires Valid()
      ensures postId !in posts ==> r == Err(NotFoundError)
      ensures postId in posts ==> match ReadAccess(Some(posts[postId]), requester)
        case Err(e) => r == Err(e)
        case Ok(post) =>
          if post.authorId !in users then r == Err(UnknownError)
          else
            && r.Ok?
            && r.value.id == postId && r.value.title == post.title
            && r.value.author == users[post.authorId] && r.value.isPublished == post.isPublished
            && |r.value.polls| == |LivePolls(postId)|
            && forall i :: 0 <= i < |LivePolls(postId)| ==>
                 ShowsPoll(r.value.polls[i], polls[LivePolls(postId)[i]], choices)
    {
      var access := ReadAccess(if postId in posts then Some(posts[postId]) else None, requester);
      if access.Err? {
        return Err(access.error);
      }
      var post := access.value;
      if post.authorId !in users {
        return Err(UnknownError);
      }
      var author := users[post.authorId];
      var live := LivePolls(postId);
      var views: seq<PollView> := [];
      for i := 0 to |live|
        invariant |views| == i
        invariant forall j :: 0 <= j < i ==> ShowsPoll(views[j], polls[live[j]], choices)
      {
        var poll := polls[live[i]];
        var rows := ChoicesOf(poll.id);
        var results, answersCount := Aggregation.Tally(|poll.options|, rows);
        ghost var own := PollRows(choices, poll.id);
        forall k | 0 <= k < |poll.options|
          ensures results[k] == |OptionRows(choices, poll.id, k)|
        {
          Aggregation.CountOptionOfSet(rows, own, k);
        }
        assert Aggregation.Voters(rows) == PollVoters(choices, poll.id);
        views := views + [PollView(poll.id, poll.name, poll.style, poll.options, results, answersCount, poll.maxChosenOptionsCount)];
      }
      return Ok(PostView(post.id, post.title, author, post.isPublished, views));
    }

    // -------------------------------------------------------------------------
    // POST /api/post/

    /**
     * The post POST handler: 401 without a session, UnknownError for a
     * payload `verifyPost` rejects, otherwise one new unpublished post owned
     * by the requester and one new poll per submitted poll, in order.
     */
    method Create(requester: Option<int>, payload: PostPayload) returns (r: Result<int>)
      requires Valid()
      modifies this
      ensures Valid()
      ensures requester.None? ==> r == Err(AuthorizationRequired)
      ensures requester.Some? && !ValidPayload(payload) ==> r == Err(UnknownError)
      ensures requester.Some? && ValidPayload(payload) ==> r.Ok?
      ensures r.Err? ==> unchanged(this)
      ensures r.Ok? ==> r.value == old(nextPostId) && r.value !in old(posts)
      ensures r.Ok? ==> posts == old(posts)[r.value := Post(r.value, payload.title, requester.value, false)]
      ensures r.Ok? ==> users == old(users) && choices == old(choices)
      ensures r.Ok? ==> Appended(old(polls), old(nextPollId), r.value, payload.polls, polls, nextPollId)
      ensures r.Ok? ==> AllPolls(r.value) == seq(|payload.polls|, k => old(nextPollId) + k)
      ensures r.Ok? ==> nextPostId == old(nextPostId) + 1
    {
      if requester.None? {
        return Err(AuthorizationRequired);
      }
      var ok := VerifyPost(payload);
      if !ok {
        return Err(UnknownError);
      }
      var postId, next := nextPostId, nextPollId;
      FindPollsNone(polls, postId, next, true);
      var polls', next' := AddPolls(polls, next, postId, payload.polls);
      assert FindPolls(polls', postId, next', true) == seq(|payload.polls|, k => next + k);
      var post := Post(postId, payload.title, requester.value, false);
      CreationKeepsConsistency(posts, polls, choices, nextPostId, next, post, payload.polls, polls', next');
      posts := posts[postId := post];
      polls, nextPostId, nextPollId := polls', nextPostId + 1, next';
      return Ok(postId);
    }

    // -------------------------------------------------------------------------
    // PUT /api/post/

    /**
     * The post PUT handler: after the 401, payload, 404 and 403 checks it
     * renames the post and reconciles its polls with the submitted ones by
     * position, as `Reconciled` describes.
     */
    method Update(requester: Option<int>, postId: int, payload: PostPayload) returns (r: Result<()>)
      requires Valid()
      modifies this
      ensures Valid()
      ensures requester.None? ==> r == Err(AuthorizationRequired)
      ensures requester.Some? && !ValidPayload(payload) ==> r == Err(UnknownError)
      ensures requester.Some? && ValidPayload(payload) && postId !in old(posts) ==> r == Err(NotFoundError)
      ensures requester.Some? && ValidPayload(payload) && postId in old(posts) && old(posts)[postId].authorId != requester.value
              ==> r == Err(Forbidden)
      ensures requester.Some? && ValidPayload(payload) && postId in old(posts) && old(posts)[postId].authorId == requester.value
              ==> r.Ok?
      ensures r.Err? ==> unchanged(this)
      ensures r.Ok? ==> posts == old(posts)[postId := old(posts)[postId].(title := payload.title)]
      ensures r.Ok? ==> users == old(users) && nextPostId == old(nextPostId)
      ensures r.Ok? ==> Reconciled(old(polls), old(choices), old(nextPollId), postId, payload.polls, polls, choices, nextPollId)
    {
      if requester.None? {
        return Err(AuthorizationRequired);
      }
      var ok := VerifyPost(payload);
      if !ok {
        return Err(UnknownError);
      }
      if postId !in posts {
        return Err(NotFoundError);
      }
      var post := posts[postId];
      if post.authorId != requester.value {
        return Err(Forbidden);
      }
      var polls', choices', next' := Reconcile(polls, choices, nextPollId, postId, payload.polls);
      ReconcileKeepsConsistency(posts, polls, choices, nextPostId, nextPollId, postId, payload.polls, polls', choices', next');
      posts := posts[postId := post.(title := payload.title)];
      polls, choices, nextPollId := polls', choices', next';
      return Ok(());
    }

    // -------------------------------------------------------------------------
    // DELETE /api/post/

    /**
     * The post DELETE handler: after the 401, 404 and 403 checks it removes
     * the choices of each live poll of the post, the poll itself, and then
     * the post. The poll lookup omits `paranoid: false`, so a soft-deleted
     * poll of the post is still in the table when the post goes; the
     * `postId` foreign key then refuses the removal, and the transaction
     * rolls back with a 500.
     */
    method Delete(requester: Option<int>, postId: int) returns (r: Result<()>)
      requires Valid()
      modifies this
      ensures Valid()
      ensures requester.None? ==> r == Err(AuthorizationRequired)
      ensures requester.Some? && postId !in old(posts) ==> r == Err(NotFoundError)
      ensures requester.Some? && postId in old(posts) && old(posts)[postId].authorId != requester.value ==> r == Err(Forbidden)
      ensures requester.Some? && postId in old(posts) && old(posts)[postId].authorId == requester.value ==>
                (r.Ok? <==> !old(HasSoftDeletedPolls(postId)))
      ensures r.Err? ==> unchanged(this)
      ensures r.Err? && requester.Some? && postId in old(posts) && old(posts)[postId].authorId == requester.value ==>
                r == Err(UnknownError)
      ensures r.Ok? ==> posts == old(posts) - {postId}
      ensures r.Ok? ==> users == old(users) && nextPostId == old(nextPostId) && nextPollId == old(nextPollId)
      ensures r.Ok? ==> forall id :: id in polls <==> id in old(polls) && old(polls)[id].postId != postId
      ensures r.Ok? ==> forall id :: id in polls ==> polls[id] == old(polls)[id]
      ensures r.Ok? ==> choices == set c | c in old(choices) && !Selected(old(polls), postId, true, c.pollId)
      ensures r.Ok? ==> AllPolls(postId) == []
    {
      if requester.None? {
        return Err(AuthorizationRequired);
      }
      if postId !in posts {
        return Err(NotFoundError);
      }
      if posts[postId].authorId != requester.value {
        return Err(Forbidden);
      }
      var all, live := AllPolls(postId), LivePolls(postId);
      LookupsDifferIffSoftDeleted(polls, postId, nextPollId);
      if all != live {
        // The foreign key refuses to drop a post that soft-deleted polls still reference.
        return Err(UnknownError);
      }
      FindPollsExact(polls, postId, nextPollId, false);
      var polls', choices' := RemovePolls(polls, choices, live);
      assert forall id :: id in live <==> id in polls && Selected(polls, postId, false, id);
      RemovalKeepsConsistency(posts, polls, choices, nextPostId, nextPollId, postId, polls', choices');
      FindPollsNone(polls', postId, nextPollId, true);
      posts := posts - {postId};
      polls, choices := polls', choices';
      return Ok(());
    }

    // -------------------------------------------------------------------------
    // GET /api/set_post_publishing_state/

    /** The publishing switch: after the 401, 404 and 403 checks it sets the post's flag. */
    method SetPublishingState(requester: Option<int>, postId: int, isPublished: bool) returns (r: Result<()>)
      requires Valid()
      modifies this
      ensures Valid()
      ensures requester.None? ==> r == Err(AuthorizationRequired)
      ensures requester.Some? && postId !in old(posts) ==> r == Err(NotFoundError)
      ensures requester.Some? && postId in old(posts) && old(posts)[postId].authorId != requester.value ==> r == Err(Forbidden)
      ensures requester.Some? && postId in old(posts) && old(posts)[postId].authorId == requester.value ==> r.Ok?
      ensures r.Err? ==> unchanged(this)
      ensures r.Ok? ==> posts == old(posts)[postId := old(posts)[postId].(isPublished := isPublished)]
      ensures r.Ok? ==> users == old(users) && polls == old(polls) && choices == old(choices)
      ensures r.Ok? ==> nextPostId == old(nextPostId) && nextPollId == old(nextPollId)
    {
      if requester.None? {
        return Err(AuthorizationRequired);
      }
      if postId !in posts {
        return Err(NotFoundError);
      }
      var post := posts[postId];
      if post.authorId != requester.value {
        return Err(Forbidden);
      }
      posts := posts[postId := post.(isPublished := isPublished)];
      return Ok(());
    }

    // -------------------------------------------------------------------------
    // POST /api/post_options_choices

    /** `PollOptionChoice.destroy({ where: { pollId, userId } })` for each live poll in turn. */
    method PurgeUserChoices(userId: int, live: seq<int>)
      modifies this`choices
      ensures choices == set c | c in old(choices) && !Replaced(live, userId, c)
    {
      for i := 0 to |live|
        invariant choices == set c | c in old(choices) && !Replaced(live[..i], userId, c)
      {
        choices := set c | c in choices && !(c.pollId == live[i] && c.userId == userId);
        assert live[..i + 1] == live[..i] + [live[i]];
      }
      assert live[..|live|] == live;
    }

    /**
     * The insertion pass of a vote submission: a map from each live poll to
     * the indices accepted so far filters the pairs, so no insert ever
     * meets an existing row.
     */
    method InsertAccepted(userId: int, live: seq<int>, requests: seq<ChoiceRequest>)
      requires forall id :: id in live ==> id in polls
      requires forall c :: c in choices ==> !Replaced(live, userId, c)
      modifies this`choices
      ensures choices == old(choices) + AcceptedChoices(polls, live, userId, requests)
    {
      var chosen: map<int, set<int>> := map[];
      for i := 0 to |live|
        invariant forall id :: id in chosen <==> id in live[..i]
        invariant forall id :: id in chosen ==> chosen[id] == {}
      {
        chosen := chosen[live[i] := {}];
        assert live[..i + 1] == live[..i] + [live[i]];
      }
      assert live[..|live|] == live;

      for i := 0 to |requests|
        invariant forall id :: id in chosen <==> id in live
        invariant forall id, idx :: id in chosen ==>
          (idx in chosen[id] <==> Choice(userId, id, idx) in AcceptedChoices(polls, live, userId, requests[..i]))
        invariant choices == old(choices) + AcceptedChoices(polls, live, userId, requests[..i])
      {
        var req := requests[i];
        assert requests[..i + 1][..i] == requests[..i];
        if req.pollId in chosen {
          var idx := req.optionIndex;
          if 0 <= idx < |polls[req.pollId].options| && idx !in chosen[req.pollId] {
            chosen := chosen[req.pollId := chosen[req.pollId] + {idx}];
            InsertChoice(Choice(userId, req.pollId, idx));
          }
        }
      }
      assert requests[..|requests|] == requests;
    }

    /** `PollOptionChoice.create`: the unique index refuses a row that already exists. */
    method InsertChoice(c: Choice)
      requires c !in choices
      modifies this`choices
      ensures choices == old(choices) + {c}
    {
      choices := choices + {c};
    }

    /**
     * The vote submission handler: after the 401 and 404 checks it deletes
     * the requester's rows on the post's live polls, then inserts one row per
     * submitted pair whose poll is a live poll of the post and whose index is
     * in range, skipping pairs already inserted by this request. The post
     * need not be published and the max-choices bound is not checked.
     */
    method SubmitChoices(requester: Option<int>, postId: int, requests: seq<ChoiceRequest>) returns (r: Result<()>)
      requires Valid()
      modifies this
      ensures Valid()
      ensures requester.None? ==> r == Err(AuthorizationRequired)
      ensures requester.Some? && postId !in old(posts) ==> r == Err(NotFoundError)
      ensures requester.Some? && postId in old(posts) ==> r.Ok?
      ensures r.Err? ==> unchanged(this)
      ensures r.Ok? ==> users == old(users) && posts == old(posts) && polls == old(polls)
      ensures r.Ok? ==> nextPostId == old(nextPostId) && nextPollId == old(nextPollId)
      ensures r.Ok? ==> choices == ReplaceChoices(old(choices), polls, LivePolls(postId), requester.value, requests)
    {
      if requester.None? {
        return Err(AuthorizationRequired);
      }
      if postId !in posts {
        return Err(NotFoundError);
      }
      var userId := requester.value;
      var live := LivePolls(postId);
      PurgeUserChoices(userId, live);
      InsertAccepted(userId, live, requests);
      return Ok(());
    }
  }
}
