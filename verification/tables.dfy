/**
 * The row-level writes the post handlers of backend/src/api.ts issue against
 * the poll and choice tables, as steps from one table value to the next: the
 * PUT handler's position-based reconciliation and the poll inserts shared
 * with the POST handler.
 */
module Tables {
  import opened PostModel

  /** A choice row may only reference a live poll, at an index inside its options. */
  predicate Fits(polls: map<int, Poll>, c: Choice) {
    c.pollId in polls && !polls[c.pollId].deleted && 0 <= c.optionIndex < |polls[c.pollId].options|
  }

  /**
   * The store's integrity constraints: keys match row ids and lie below
   * their auto-increment counters, every poll row, soft-deleted or not,
   * belongs to an existing post (the `postId` foreign key), and every
   * choice row sits on a live poll at an index inside its options.
   */
  predicate Consistent(posts: map<int, Post>, polls: map<int, Poll>, choices: set<Choice>, nextPostId: nat, nextPollId: nat) {
    && (forall id :: id in posts ==> 0 <= id < nextPostId && posts[id].id == id)
    && (forall id :: id in polls ==> 0 <= id < nextPollId && polls[id].id == id && 0 <= polls[id].postId < nextPostId)
    && (forall id :: id in polls ==> polls[id].postId in posts)
    && (forall c :: c in choices ==> Fits(polls, c))
  }

  /** The choice table without the rows of the polls in `ids`. */
  function Purged(choices: set<Choice>, ids: seq<int>): set<Choice> {
    set c | c in choices && c.pollId !in ids
  }

  /** Purging two lists of polls in turn purges their concatenation. */
  lemma PurgedTwice(choices: set<Choice>, a: seq<int>, b: seq<int>)
    ensures Purged(Purged(choices, a), b) == Purged(choices, a + b)
  {
  }

  /** `PollOptionChoice.destroy({ where: { pollId } })` for each poll of `ids` in turn. */
  method PurgeEach(choices: set<Choice>, ids: seq<int>) returns (choices': set<Choice>)
    ensures choices' == Purged(choices, ids)
  {
    choices' := choices;
    for i := 0 to |ids|
      invariant choices' == Purged(choices, ids[..i])
    {
      PurgedTwice(choices, ids[..i], [ids[i]]);
      choices' := Purged(choices', [ids[i]]);
      assert ids[..i + 1] == ids[..i] + [ids[i]];
    }
    assert ids[..|ids|] == ids;
  }

  /**
   * The outcome of one pass over a post's stored slots: every slot loses
   * its choices; slot k takes the k-th submitted poll (restored) or, past
   * the submitted polls, is soft-deleted; no other poll changes.
   */
  predicate Rewritten(polls: map<int, Poll>, choices: set<Choice>, postId: int, slots: seq<int>, specs: seq<PollSpec>,
                      polls': map<int, Poll>, choices': set<Choice>)
  {
    && polls'.Keys == polls.Keys
    && (forall id :: id in polls && id !in slots ==> polls'[id] == polls[id])
    && (forall k :: 0 <= k < |slots| && k < |specs| ==>
          slots[k] in polls' && polls'[slots[k]] == FromSpec(slots[k], postId, specs[k]))
    && (forall k :: |specs| <= k < |slots| ==>
          slots[k] in polls && polls'[slots[k]] == polls[slots[k]].(deleted := true))
    && choices' == Purged(choices, slots)
  }

  /**
   * Slot by slot over a post's stored polls: purge the slot's choices, then
   * either restore it and overwrite its fields with the submitted poll of
   * the same position or, past the submitted polls, soft-delete it.
   */
  method RewriteSlots(polls: map<int, Poll>, choices: set<Choice>, postId: int, slots: seq<int>, specs: seq<PollSpec>)
    returns (polls': map<int, Poll>, choices': set<Choice>)
    requires forall k :: 0 <= k < |slots| ==> slots[k] in polls
    requires forall j, k :: 0 <= j < k < |slots| ==> slots[j] < slots[k]
    ensures Rewritten(polls, choices, postId, slots, specs, polls', choices')
  {
    choices' := PurgeEach(choices, slots);
    polls' := polls;
    for i := 0 to |slots|
      invariant polls'.Keys == polls.Keys
      invariant forall id :: id in polls && id !in slots ==> polls'[id] == polls[id]
      invariant forall k :: i <= k < |slots| ==> polls'[slots[k]] == polls[slots[k]]
      invariant forall k :: 0 <= k < i ==> polls'[slots[k]] == SlotAfter(slots[k], polls[slots[k]], postId, specs, k)
    {
      var id := slots[i];
      polls' := polls'[id := SlotAfter(id, polls[id], postId, specs, i)];
    }
  }

  /** What the pass leaves under key `id`, the post's `k`-th slot, which held `poll`. */
  function SlotAfter(id: int, poll: Poll, postId: int, specs: seq<PollSpec>, k: nat): Poll
  {
    if k < |specs| then FromSpec(id, postId, specs[k]) else poll.(deleted := true)
  }

  /**
   * The outcome of creating the polls `specs` for post `postId` in turn:
   * poll k is stored under the fresh key next + k, nothing stored before
   * changes, and the post's lookup gains the new keys at its end.
   */
  ghost predicate Appended(polls: map<int, Poll>, next: nat, postId: int, specs: seq<PollSpec>,
                           polls': map<int, Poll>, next': nat)
  {
    && next' == next + |specs|
    && (forall id :: id in polls' <==> id in polls || next <= id < next')
    && (forall id :: id in polls ==> polls'[id] == polls[id])
    && (forall k :: 0 <= k < |specs| ==> polls'[next + k] == FromSpec(next + k, postId, specs[k]))
    && FindPolls(polls', postId, next', true) == FindPolls(polls, postId, next, true) + seq(|specs|, k => next + k)
  }

  /** `Poll.create` for each submitted poll in turn, under fresh auto-increment ids. */
  method AddPolls(polls: map<int, Poll>, next: nat, postId: int, specs: seq<PollSpec>)
    returns (polls': map<int, Poll>, next': nat)
    requires forall id :: id in polls ==> id < next
    ensures Appended(polls, next, postId, specs, polls', next')
  {
    polls', next' := polls, next;
    for i := 0 to |specs|
      invariant next' == next + i
      invariant forall id :: id in polls' <==> id in polls || next <= id < next'
      invariant forall id :: id in polls ==> polls'[id] == polls[id]
      invariant forall k :: 0 <= k < i ==> polls'[next + k] == FromSpec(next + k, postId, specs[k])
      invariant FindPolls(polls', postId, next', true) == FindPolls(polls, postId, next, true) + seq(i, k => next + k)
    {
      var poll := FromSpec(next', postId, specs[i]);
      FindPollsInsert(polls', postId, next', poll, true);
      assert seq(i + 1, k => next + k) == seq(i, k => next + k) + [next'];
      polls' := polls'[next' := poll];
      next' := next' + 1;
    }
  }

  /**
   * The outcome of the PUT handler's reconciliation of a post's polls with
   * the submitted ones, by position. `before` is the post's lookup with
   * soft-deleted polls included. Slot i of `before` takes the i-th submitted
   * poll, is restored, and loses its choices; submitted polls beyond the
   * stored ones are created in order under fresh keys; stored slots beyond
   * the submitted ones are soft-deleted and lose their choices; no other
   * post's poll changes. Afterwards the post's live lookup is exactly its
   * first |specs| slots.
   */
  predicate Reconciled(polls: map<int, Poll>, choices: set<Choice>, next: nat, postId: int, specs: seq<PollSpec>,
                       polls': map<int, Poll>, choices': set<Choice>, next': nat)
  {
    && KeysReconciled(polls, next, postId, polls', next')
    && SlotsReconciled(polls, choices, next, postId, specs, polls', choices', next')
  }

  /** The keys half of `Reconciled`: what is stored under which key, apart from the post's slots. */
  predicate KeysReconciled(polls: map<int, Poll>, next: nat, postId: int, polls': map<int, Poll>, next': nat)
  {
    && next <= next' && (forall id :: id in polls' ==> id < next')
    && (forall id :: id in polls ==> id in polls')
    && (forall id :: id in polls' ==> id in polls || id in FindPolls(polls', postId, next', true))
    && (forall id :: id in polls && polls[id].postId != postId ==> polls'[id] == polls[id])
  }

  /** The slots half of `Reconciled`: what each of the post's slots holds afterwards. */
  predicate SlotsReconciled(polls: map<int, Poll>, choices: set<Choice>, next: nat, postId: int, specs: seq<PollSpec>,
                            polls': map<int, Poll>, choices': set<Choice>, next': nat)
  {
    var before, after := FindPolls(polls, postId, next, true), FindPolls(polls', postId, next', true);
    && |after| == (if |specs| <= |before| then |before| else |specs|)
    && after[..|before|] == before
    && (forall k :: 0 <= k < |specs| ==> after[k] in polls' && polls'[after[k]] == FromSpec(after[k], postId, specs[k]))
    && (forall k :: |specs| <= k < |before| ==>
          before[k] in polls && before[k] in polls' && polls'[before[k]] == polls[before[k]].(deleted := true))
    && choices' == Purged(choices, before)
    && FindPolls(polls', postId, next', false) == after[..|specs|]
  }

  /** A pass over all of a post's slots with no more submitted polls than slots reconciles the post. */
  lemma ShrinkReconciles(polls: map<int, Poll>, choices: set<Choice>, next: nat, postId: int, specs: seq<PollSpec>,
                         polls': map<int, Poll>, choices': set<Choice>)
    requires forall id :: id in polls ==> id < next
    requires |specs| <= |FindPolls(polls, postId, next, true)|
    requires Rewritten(polls, choices, postId, FindPolls(polls, postId, next, true), specs, polls', choices')
    ensures Reconciled(polls, choices, next, postId, specs, polls', choices', next)
  {
    var slots := FindPolls(polls, postId, next, true);
    FindPollsExact(polls, postId, next, true);
    RewriteKeepsLookup(polls, choices, postId, next, specs, polls', choices');
    assert slots[..|slots|] == slots;
    LiveLookupIsPrefix(polls', postId, next, |specs|);
  }

  /**
   * A pass over all of a post's slots followed by the creation of the
   * remaining submitted polls reconciles the post.
   */
  lemma GrowReconciles(polls: map<int, Poll>, choices: set<Choice>, next: nat, postId: int, specs: seq<PollSpec>,
                       p1: map<int, Poll>, choices': set<Choice>, polls': map<int, Poll>, next': nat)
    requires forall id :: id in polls ==> id < next
    requires |FindPolls(polls, postId, next, true)| < |specs|
    requires Rewritten(polls, choices, postId, FindPolls(polls, postId, next, true), specs, p1, choices')
    requires Appended(p1, next, postId, specs[|FindPolls(polls, postId, next, true)|..], polls', next')
    ensures Reconciled(polls, choices, next, postId, specs, polls', choices', next')
  {
    RewriteKeepsLookup(polls, choices, postId, next, specs, p1, choices');
    GrowKeys(polls, choices, next, postId, specs, p1, choices', polls', next');
    GrowSlots(polls, choices, next, postId, specs, p1, choices', polls', next');
  }

  /** The keys half of `GrowReconciles`: the new keys are exactly the lookup's new tail. */
  lemma GrowKeys(polls: map<int, Poll>, choices: set<Choice>, next: nat, postId: int, specs: seq<PollSpec>,
                 p1: map<int, Poll>, choices': set<Choice>, polls': map<int, Poll>, next': nat)
    requires forall id :: id in polls ==> id < next
    requires |FindPolls(polls, postId, next, true)| < |specs|
    requires Rewritten(polls, choices, postId, FindPolls(polls, postId, next, true), specs, p1, choices')
    requires FindPolls(p1, postId, next, true) == FindPolls(polls, postId, next, true)
    requires Appended(p1, next, postId, specs[|FindPolls(polls, postId, next, true)|..], polls', next')
    ensures KeysReconciled(polls, next, postId, polls', next')
  {
    var slots := FindPolls(polls, postId, next, true);
    var m := |slots|;
    FindPollsExact(polls, postId, next, true);
    var after := FindPolls(polls', postId, next', true);
    forall id | id in polls' && id !in p1
      ensures id in after
    {
      assert after[m + (id - next)] == id;
    }
  }

  /** The slots half of `GrowReconciles`: the created polls fill the positions past the stored slots. */
  lemma GrowSlots(polls: map<int, Poll>, choices: set<Choice>, next: nat, postId: int, specs: seq<PollSpec>,
                  p1: map<int, Poll>, choices': set<Choice>, polls': map<int, Poll>, next': nat)
    requires forall id :: id in polls ==> id < next
    requires |FindPolls(polls, postId, next, true)| < |specs|
    requires Rewritten(polls, choices, postId, FindPolls(polls, postId, next, true), specs, p1, choices')
    requires FindPolls(p1, postId, next, true) == FindPolls(polls, postId, next, true)
    requires Appended(p1, next, postId, specs[|FindPolls(polls, postId, next, true)|..], polls', next')
    ensures SlotsReconciled(polls, choices, next, postId, specs, polls', choices', next')
  {
    var slots := FindPolls(polls, postId, next, true);
    var m := |slots|;
    FindPollsExact(polls, postId, next, true);
    var after := FindPolls(polls', postId, next', true);
    assert after == slots + seq(|specs| - m, k => next + k);
    assert after[..m] == slots;
    forall k | m <= k < |specs|
      ensures after[k] in polls' && polls'[after[k]] == FromSpec(after[k], postId, specs[k])
    {
      assert after[k] == next + (k - m) && specs[m..][k - m] == specs[k];
    }
    assert after[..|specs|] == after;
    LiveLookupIsPrefix(polls', postId, next', |specs|);
  }

  /** The pass over a post's slots leaves its `paranoid: false` lookup as it was. */
  lemma RewriteKeepsLookup(polls: map<int, Poll>, choices: set<Choice>, postId: int, next: nat, specs: seq<PollSpec>,
                           polls': map<int, Poll>, choices': set<Choice>)
    requires Rewritten(polls, choices, postId, FindPolls(polls, postId, next, true), specs, polls', choices')
    ensures FindPolls(polls', postId, next, true) == FindPolls(polls, postId, next, true)
  {
    var slots := FindPolls(polls, postId, next, true);
    FindPollsExact(polls, postId, next, true);
    forall id | id in polls'
      ensures polls'[id].postId == polls[id].postId
    {
      if id in slots {
        var k :| 0 <= k < |slots| && slots[k] == id;
      }
    }
    FindPollsFrame(polls', polls, postId, next, true);
  }

  /**
   * The PUT handler's reconciliation: one pass over the stored slots, then
   * the creation of the submitted polls that found no slot.
   */
  method Reconcile(polls: map<int, Poll>, choices: set<Choice>, next: nat, postId: int, specs: seq<PollSpec>)
    returns (polls': map<int, Poll>, choices': set<Choice>, next': nat)
    requires forall id :: id in polls ==> id < next
    ensures Reconciled(polls, choices, next, postId, specs, polls', choices', next')
  {
    var slots := FindPolls(polls, postId, next, true);
    FindPollsExact(polls, postId, next, true);
    var p1;
    p1, choices' := RewriteSlots(polls, choices, postId, slots, specs);
    var m := |slots|;
    if |specs| <= m {
      polls', next' := p1, next;
      ShrinkReconciles(polls, choices, next, postId, specs, polls', choices');
    } else {
      polls', next' := AddPolls(p1, next, postId, specs[m..]);
      GrowReconciles(polls, choices, next, postId, specs, p1, choices', polls', next');
    }
  }

  /** Poll by poll: delete the poll's choices, then the poll row itself. */
  method RemovePolls(polls: map<int, Poll>, choices: set<Choice>, ids: seq<int>)
    returns (polls': map<int, Poll>, choices': set<Choice>)
    ensures forall id :: id in polls' <==> id in polls && id !in ids
    ensures forall id :: id in polls' ==> polls'[id] == polls[id]
    ensures choices' == Purged(choices, ids)
  {
    choices' := PurgeEach(choices, ids);
    polls' := polls;
    for i := 0 to |ids|
      invariant forall id :: id in polls' <==> id in polls && id !in ids[..i]
      invariant forall id :: id in polls' ==> polls'[id] == polls[id]
    {
      polls' := polls' - {ids[i]};
      assert ids[..i + 1] == ids[..i] + [ids[i]];
    }
    assert ids[..|ids|] == ids;
  }

  /** The reconciliation keeps the store consistent when the post exists. */
  lemma ReconcileKeepsConsistency(posts: map<int, Post>, polls: map<int, Poll>, choices: set<Choice>, nextPostId: nat,
                                  next: nat, postId: int, specs: seq<PollSpec>,
                                  polls': map<int, Poll>, choices': set<Choice>, next': nat)
    requires Consistent(posts, polls, choices, nextPostId, next) && postId in posts
    requires Reconciled(polls, choices, next, postId, specs, polls', choices', next')
    ensures Consistent(posts, polls', choices', nextPostId, next')
  {
    var before, after := FindPolls(polls, postId, next, true), FindPolls(polls', postId, next', true);
    FindPollsExact(polls, postId, next, true);
    FindPollsExact(polls', postId, next', true);
    assert Owned: forall id :: id in polls && polls[id].postId == postId ==> id in before;
    forall id | id in polls'
      ensures 0 <= id && polls'[id].id == id && 0 <= polls'[id].postId < nextPostId
      ensures polls'[id].postId in posts
    {
      if id in polls && polls[id].postId == postId {
        assert id in before;
        var k :| 0 <= k < |before| && before[k] == id;
        assert after[k] == id;
      }
      if id in after {
        var k :| 0 <= k < |after| && after[k] == id;
        if k >= |specs| {
          assert before[k] == id;
        }
      }
    }
  }

  /** Adding a post under the next post id, with fresh polls of its own, keeps the store consistent. */
  lemma CreationKeepsConsistency(posts: map<int, Post>, polls: map<int, Poll>, choices: set<Choice>, nextPostId: nat,
                                 next: nat, post: Post, specs: seq<PollSpec>, polls': map<int, Poll>, next': nat)
    requires Consistent(posts, polls, choices, nextPostId, next) && post.id == nextPostId
    requires Appended(polls, next, post.id, specs, polls', next')
    ensures Consistent(posts[post.id := post], polls', choices, nextPostId + 1, next')
  {
    forall id | id in polls' && id !in polls
      ensures polls'[id] == FromSpec(id, post.id, specs[id - next])
    {
    }
  }

  /**
   * Removing a post that has no soft-deleted polls, with its live polls and
   * their choices, keeps the store consistent.
   */
  lemma RemovalKeepsConsistency(posts: map<int, Post>, polls: map<int, Poll>, choices: set<Choice>, nextPostId: nat,
                                next: nat, postId: int, polls': map<int, Poll>, choices': set<Choice>)
    requires Consistent(posts, polls, choices, nextPostId, next)
    requires forall id :: id in polls && polls[id].postId == postId ==> !polls[id].deleted
    requires forall id :: id in polls' <==> id in polls && !Selected(polls, postId, false, id)
    requires forall id :: id in polls' ==> polls'[id] == polls[id]
    requires choices' == set c | c in choices && !Selected(polls, postId, false, c.pollId)
    ensures Consistent(posts - {postId}, polls', choices', nextPostId, next)
  {
  }
}
