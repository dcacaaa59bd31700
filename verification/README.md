# open-polls: a verified model of the post, poll and vote core

open-polls is a small polling site: a signed-in user writes a *post* made of
one or more *polls*, publishes it, and other users vote by choosing options.
This project models, in Dafny, the three parts of the code base that carry
its logic:

- **The `/api/post/` and `/api/post_options_choices` handlers**
  (backend/src/api.ts), over an in-memory store of users, posts, polls and
  choice rows:
  - payload validation (`verifyPost`);
  - the read access rule and the per-poll vote tally;
  - post creation;
  - the position-based reconciliation of a post's polls on update;
  - the delete cascade;
  - the publishing switch;
  - vote submission.

  Each write handler is a method of the `Api.Store` class that either
  performs all of its writes or returns an error with the store unchanged.
  The create, update, delete and vote handlers run their writes inside one
  transaction; the publishing switch opens one but reads and saves the
  post outside it, which makes no difference to a single sequential
  request. The early 404 and 403 returns inside those handlers
  (backend/src/api.ts:185-192, 259-266, 312-319, 400-403) neither commit
  nor roll back the transaction they opened. The store is left unchanged,
  as modelled, but the connection the transaction holds is not released. Each of these methods also keeps the store's
  integrity constraints (`Tables.Consistent`, the class's `Valid()`).
- **The frontend helpers** of frontend/src/utils.ts:
  - the `range` generator;
  - `findSum`;
  - the two error-code-to-message-key maps.
- **The Russian pluralization rule** of frontend/src/i18n.ts.

Modules:

| file | module | what it holds |
|---|---|---|
| wrappers.dfy | `Wrappers` | `Option` and `Result` |
| wrappers.dfy | `ErrorTypes` | the shared error enum |
| post_model.dfy | `PostModel` | rows, payloads, `verifyPost`, the read access rule, the ordered poll lookup (`FindPolls`, with and without `paranoid: false`), and the vote submission as a function of the choice table |
| tables.dfy | `Tables` | the store invariant and the row-level writes of the post handlers, as steps from one table value to the next |
| aggregation.dfy | `Aggregation` | the tally loop and its specification |
| api.dfy | `Api` | the `Store` class and its handlers |
| utils.dfy | `Utils` | `range`, `findSum`, the error keys |
| i18n.dfy | `I18n` | the `ru` plural rule |

How the store is modelled:

- Poll ids come from an auto-increment counter, so a post's polls in
  creation order are its poll keys in ascending order. `FindPolls` lists
  them that way; the code's lookups ask for no order (see "Left out").
- Soft deletion is a `deleted` flag on the poll row. Plain lookups skip
  flagged rows; lookups with `paranoid: false` include them.
- `Poll.postId` is a NOT NULL foreign key to `Post`
  (backend/src/models/poll.ts:27-30, backend/src/db.ts:46-51) with no
  `onDelete` action, so the database keeps every poll row, soft-deleted or
  not, on an existing post. `Tables.Consistent` carries that constraint.
- The choice table is a set, because the (userId, pollId, optionIndex)
  index is unique. `Api.Store.InsertChoice` requires the row to be new, and
  the vote handler is proved never to break that.

Behaviour that is modelled as the code has it:

- Vote submission does not check a poll's `maxChosenOptionsCount`.
- Votes are accepted on unpublished posts.
- The DELETE handler looks up the post's polls without `paranoid: false`,
  so it does not remove the post's soft-deleted polls. If any exist, as
  after every update that removed polls, the foreign key refuses
  `post.destroy` (backend/src/api.ts:274). The transaction then rolls back
  and the handler answers 500. `Api.Store.Delete` returns `UnknownError`
  with the store unchanged in that case.
- A `range` call with a step but no end keeps the defaults (0, 0, 1).
- The final conditional of the plural rule has a dead `2` branch.

## Model

| member | source | states |
|---|---|---|
| PostModel.VerifyPost | backend/src/api.ts:19-48 | accepts exactly when the title is non-empty, there is at least one poll, and every poll has a non-empty name, a non-empty option list and 1 <= maxChosenOptionsCount <= number of options |
| PostModel.EmptyLabelsPass | backend/src/api.ts:34-42 | the option labels themselves are not checked: a poll whose only label is empty is accepted |
| PostModel.ReadAccess | backend/src/api.ts:61-69 | a missing post is NotFound whoever asks; an unpublished post is Forbidden unless the requester is signed in as its author; otherwise the post is returned |
| PostModel.UnpublishedReadOnlyByAuthor | backend/src/api.ts:66-69 | only the author reads an unpublished post, and an anonymous requester never does |
| PostModel.FindPolls | backend/src/api.ts:194-196 | `Poll.findAll({ where: { postId } })` with or without `paranoid: false`, in ascending key order; never more ids than keys below the bound (exactness in `FindPollsExact`) |
| PostModel.FindPollsExact | backend/src/api.ts:194-196 | the poll lookup returns exactly the post's polls below the id bound (soft-deleted ones only with `paranoid: false`), each once, in ascending id (creation) order |
| PostModel.FindLiveIsFiltered | backend/src/api.ts:76 | the plain lookup is the `paranoid: false` lookup with the soft-deleted rows dropped, order kept |
| PostModel.LiveLookupIsPrefix | backend/src/api.ts:202-227 | when exactly the first n rows of the full lookup are live, the plain lookup is the full lookup's first n rows |
| PostModel.AcceptedChoices | backend/src/api.ts:423-438 | a row for the user is inserted exactly for each submitted pair whose poll is a live poll of the post and whose index is inside the poll's options, once however often the pair repeats |
| PostModel.ReplaceChoicesExact | backend/src/api.ts:413-438 | after a submission the user's rows on the post's live polls are exactly the accepted pairs; every other row (other users, other posts) is as before |
| PostModel.ReplaceChoicesIdempotent | backend/src/api.ts:413-438 | submitting the same list twice leaves the same table as submitting it once |
| PostModel.MaxChosenNotEnforced | backend/src/api.ts:427-429 | a poll allowing one choice keeps both options of a submission selecting two |
| Aggregation.Tally | backend/src/api.ts:95-106 | the tally has one slot per option, slot k counts the rows choosing option k, and the voter count is the number of distinct users among the rows |
| Aggregation.VotersAtMostRows | backend/src/api.ts:101-106 | the distinct-voter count never exceeds the number of rows |
| Aggregation.TallySumsToRows | backend/src/api.ts:97-104 | when every row's index is in range, the tally sums (`findSum`) to the number of rows |
| Aggregation.TallyExample | backend/src/api.ts:95-106 | rows (u1, 0), (u1, 1), (u2, 0) on three options give the tally [2, 1, 0] and two voters |
| Aggregation.CountOptionOfSet | backend/src/api.ts:92-104 | counting over any repetition-free listing of a poll's rows gives the number of rows in the table choosing that option |
| Api.Store.AllPolls | backend/src/api.ts:194-196 | exactly the post's polls, soft-deleted included: every listed id is a stored poll of the post and every stored poll of the post is listed, in ascending id order |
| Api.Store.LivePolls | backend/src/api.ts:76 | exactly the post's live polls: every listed id is a live poll of the post and every live poll of the post is listed, in ascending id order |
| Api.Store.ChoicesOf | backend/src/api.ts:92 | lists each row of the poll exactly once, and nothing else |
| Api.Store.Read | backend/src/api.ts:53-125 | NotFound for a missing post, then the access rule, then UnknownError for a missing author; otherwise the post's fields, its author, and one view per live poll in order, each with a tally of the table's rows per option and its distinct-voter count |
| Api.Store.Create | backend/src/api.ts:131-168 | 401 without a session, UnknownError for a rejected payload; otherwise one new unpublished post owned by the requester under the next id, its polls appended under fresh ids with the submitted fields, its lookup exactly those ids, the post counter advanced by one, nothing else changed, store invariant kept |
| Tables.AddPolls | backend/src/api.ts:150-158 | poll k is created under key next + k with the submitted fields, nothing stored changes, and the post's lookup gains the new keys at its end |
| Tables.CreationKeepsConsistency | backend/src/api.ts:145-158 | a new post under the next post id with freshly appended polls keeps the store invariant |
| Api.Store.Update | backend/src/api.ts:169-237 | 401, UnknownError for a rejected payload, then NotFound before Forbidden, each with the store unchanged; otherwise the post is renamed and its polls are reconciled as `Reconciled` describes, store invariant kept |
| Tables.Reconcile | backend/src/api.ts:194-227 | with m stored slots (soft-deleted included) and n submitted polls: slot i < n takes poll i, is live and loses its choices; polls m..n-1 are created; slots i >= n are soft-deleted and lose their choices; other posts' polls are untouched; afterwards the post's live polls are exactly its first n slots |
| Tables.RewriteSlots | backend/src/api.ts:210-217 | every stored slot loses its choices; slot k takes the k-th submitted poll, restored, or past the submitted polls is soft-deleted; no other poll changes |
| Tables.ShrinkReconciles | backend/src/api.ts:224-227 | with no more submitted polls than slots, the pass over the slots alone reconciles the post |
| Tables.GrowReconciles | backend/src/api.ts:218-222 | with more submitted polls than slots, the pass followed by the creation of the rest reconciles the post |
| Tables.GrowKeys | backend/src/api.ts:218-222 | the created polls' keys are exactly the new tail of the post's lookup, and no other post's poll changes |
| Tables.GrowSlots | backend/src/api.ts:218-222 | the created polls fill the lookup positions past the stored slots, and the live lookup is the whole new lookup |
| Tables.RewriteKeepsLookup | backend/src/api.ts:210-217 | rewriting a post's slots leaves its `paranoid: false` lookup unchanged |
| Tables.ReconcileKeepsConsistency | backend/src/api.ts:194-227 | reconciling an existing post keeps the store invariant: no choice on a soft-deleted poll, every poll, soft-deleted or not, on an existing post |
| Tables.PurgeEach | backend/src/api.ts:269-272 | deleting the choices of each listed poll in turn leaves exactly the rows on unlisted polls |
| Tables.RemovePolls | backend/src/api.ts:268-272 | the listed polls and their choices are gone; every other poll is stored as before |
| Api.Store.Delete | backend/src/api.ts:238-284 | 401, then NotFound before Forbidden, each with the store unchanged; then for the author: Ok exactly when no soft-deleted poll references the post, else UnknownError with the store unchanged (the foreign key's refusal); on Ok the post, all its polls and their choices are gone, its lookup is empty, everything else is kept, store invariant kept |
| Tables.RemovalKeepsConsistency | backend/src/api.ts:268-274 | removing a post that has no soft-deleted polls, with its live polls and their choices, keeps the store invariant |
| PostModel.LookupsDifferIffSoftDeleted | backend/src/api.ts:268-274 | with every key below the bound, the plain and the `paranoid: false` lookups of a post differ exactly when a soft-deleted poll of the post exists, both directions |
| Api.Store.SetPublishingState | backend/src/api.ts:286-332 | 401, then NotFound before Forbidden, each with the store unchanged; otherwise only the post's published flag changes |
| Api.Store.PurgeUserChoices | backend/src/api.ts:413-421 | removes exactly the requester's rows on the post's live polls |
| Api.Store.InsertAccepted | backend/src/api.ts:406-438 | the per-poll sets of indices filter the pairs so that exactly the accepted rows are added and no insert meets an existing row |
| Api.Store.InsertChoice | backend/src/api.ts:431-435 | a new row is added to the table; the unique index demands it be new |
| Api.Store.SubmitChoices | backend/src/api.ts:384-448 | 401, then NotFound with the store unchanged; otherwise the choice table becomes `ReplaceChoices` of the old one (the requester's rows on the live polls replaced by the accepted pairs), nothing else changes, store invariant kept |
| Utils.RangeBounds | frontend/src/utils.ts:10-24 | one argument is the end, two are start and end, three add a step; a step without an end leaves (0, 0, 1) |
| Utils.Range | frontend/src/utils.ts:10-38 | the generator yields exactly `Stepping` of the bounds its arguments select |
| Utils.RangeUpTo | frontend/src/utils.ts:15-16 | `range(n)` yields 0, 1, ..., n - 1, and nothing when n <= 0 |
| Utils.StepsUpward | frontend/src/utils.ts:29-32 | a positive step yields values from start rising by the step, all in [start, end), none exactly when start >= end, stopping only once the next would reach end |
| Utils.StepsDownward | frontend/src/utils.ts:33-36 | a negative step yields values from start falling by the step, all in (end, start], none exactly when start <= end |
| Utils.StepsMonotone | frontend/src/utils.ts:29-36 | the values are strictly increasing for a positive step and strictly decreasing for a negative one |
| Utils.ZeroStepYieldsBounds | frontend/src/utils.ts:26-28 | a zero step yields exactly start and then end |
| Utils.FindSum | frontend/src/utils.ts:84-86 | the fold of + from 0; a list with no negative element has no negative sum |
| Utils.FindSumSnoc | frontend/src/utils.ts:84-86 | the sum of no numbers is 0, and one more element adds itself to the sum |
| Utils.FindSumAppend | frontend/src/utils.ts:84-86 | the sum of a concatenation is the sum of the parts |
| Utils.FindSumIncrement | frontend/src/utils.ts:84-86 | incrementing one element increments the sum |
| Utils.ErrorTitleKey | frontend/src/utils.ts:41-54 | exactly the codes other than the four specific ones get the unknown-error title |
| Utils.ErrorDescriptionKey | frontend/src/utils.ts:56-69 | exactly the codes other than the four specific ones get the unknown-error description |
| Utils.TitleKeysDistinct | frontend/src/utils.ts:41-54 | the four specific codes get four different title keys |
| Utils.DescriptionKeyMatchesTitleKey | frontend/src/utils.ts:41-69 | for every code the description key is the title key with "_title" replaced by "_description" |
| I18n.RuPluralForm | frontend/src/i18n.ts:43-62 | the form index is in 0..3, in 0..2 with fewer than four forms, and 0 for a count of zero |
| I18n.RuPluralFormByCategory | frontend/src/i18n.ts:43-62 | the rule equals classifying the count (zero, one, few, many under its own teen test) and picking that category's form |
| I18n.ZeroSelectsFirstForm | frontend/src/i18n.ts:44-46 | a count of zero selects form 0 whatever the number of forms |
| I18n.ThreeForms | frontend/src/i18n.ts:51-53 | with fewer than four forms a non-zero count selects 1 exactly for non-teen counts ending in 1, and 2 otherwise |
| I18n.FourForms | frontend/src/i18n.ts:54-61 | with four or more forms: 1 exactly for non-teen counts ending in 1, 2 exactly for non-teen counts ending in 2..4, 3 exactly for the rest |
| I18n.TeensSelectLastForm | frontend/src/i18n.ts:48-61 | every count in 11..19 selects form 3 under four or more forms |
| I18n.HundredsAreNotTeens | frontend/src/i18n.ts:48 | only 11..19 are teens: 111 selects 1 and 112 selects 2, while 11 and 12 select 3 |
| I18n.FinalConditionalReturnsThree | frontend/src/i18n.ts:61 | whenever the last conditional is reached it returns 3; its `2` branch is dead |

## Left out

- HTTP routing, status codes, JSON bodies and `typeof` checks are not modelled. Handlers take typed arguments and return an `ErrorKind`.
- The query-string parsing of ids is not modelled: a missing id or `parseInt` giving NaN yields a 400 or 404 before any read, except in the publishing switch. There a non-numeric `id` reaches `Post.findOne` as NaN without a check (backend/src/api.ts:311) and ends on the 500 path. Ids are typed integers here.
- `JSON.parse` of `is_published` is not modelled; the flag is a typed boolean.
- The session is an optional requester id (`Option<int>`). Sign-in, the VK OAuth flow and session storage (backend/src/auth.ts, frontend/src/auth.ts) are not part of this model.
- Timestamps (`creationDate`, `editingDate`, `registrationDate`) are left out; they are wall-clock I/O. The same goes for user fields a read does not return.
- Database failures and the 500 path are not modelled: writes never fail here. The one exception is the foreign key's refusal in `Api.Store.Delete`. A transaction is "apply all or leave the store unchanged".
- Api.Store.Create and Api.Store.Update promise success for every payload `verifyPost` accepts. The schema stores the title, poll names and option labels as `STRING(32)` and `style` as a 32-bit `INTEGER` (backend/src/models/post.ts:27-30, backend/src/models/poll.ts:31-42), so the database refuses longer strings and larger numbers and the handler answers 500. Column widths are not modelled.
- The poll lookups (`Poll.findAll` in backend/src/api.ts:76, 194-196, 268 and 405) pass no `order` option, so the row order is the database's choice. The model fixes it to ascending ids, which is creation order. The position-by-position pairing of the PUT handler (`Tables.Reconciled`) holds for the code only when the database returns rows in that order.
- Concurrency is not modelled:
  - the `Promise.all` fan-outs are sequential loops;
  - the un-awaited choice deletions of the PUT handler are taken as complete within the request.
- Aggregation.Tally: a row whose option index is outside the poll's options touches no tally slot. The code would write NaN or grow the array. The store invariant (`Tables.Fits`) rules such rows out.
- Other handlers are not modelled:
  - `GET /api/post_options_choices` (a projection of the requester's rows);
  - `GET /api/my_posts/` (a projection of the requester's posts).
- Frontend glue is not modelled: `randomRange` (floating point and `Math.random`), `selectElementsContent` (DOM), and the i18n loader, date formats and `createI18n` wiring.
- `Post.hasMany(Poll)` (backend/src/db.ts:44) names no foreign key and no handler uses it. It is not modelled.
- The `ErrorTypes` enum lives in a package that is not part of this model. It is taken to have the four members the helpers name plus `UNKNOWN_ERROR`, which the backend returns (backend/src/api.ts).
- JavaScript numbers are modelled as unbounded integers. `range`, `findSum` and the plural rule do not model floating-point steps or overflow.
- I18n.RuPluralForm: defined only for counts >= 0. JavaScript `%` on a negative count differs from Dafny's.
- The reconciliation, creation and delete writes are proved as steps from one table value to the next (`Tables`). The store methods then assign the resulting tables to their fields. Aliasing of row objects is not modelled.
