# Blog post store: the two Redux reducers, in Dafny

This project models the state logic of a small Redux blog client. There are two reducers.

- **The async slice** (`src/pages/blog/blog.slice.ts`, module `BlogSlice`). It holds:
  - the list of posts;
  - the post being edited (`editingPost`);
  - a request tracker (`loading` and `currentRequestId`).

  The four thunks `getPostList`, `addPost`, `updatePost` and `deletePost` make HTTP calls. The reducer only sees their lifecycle actions, modelled as the `Event` datatype:
  - `Pending(rid)`
  - `Fulfilled(rid, outcome)`, where `outcome` carries one thunk's payload
  - `Rejected(rid)`
  - `StartEditing(id)`
  - `CancelEditing`
  - `Unrelated`

  A dispatched action goes through `Step`, which has two parts:
  - `Collection`, the `reducers`/`addCase` part, touches only the list and the selection;
  - `Track`, the `/pending`, `/rejected` and `/fulfilled` matchers, touches only the tracker.

  `Step` runs them in Redux Toolkit's order: the case reducer first, then the matcher. `Run` folds `Step` over a sequence of actions.
- **The synchronous reducer** (`src/pages/blog/blog.reducer.ts`, module `BlogReducer`). It handles:
  - `addPost`;
  - `deletePost`;
  - `startEditingPost` and `cancelEditingPost`;
  - `finishEditingPost`;
  - a `cancel` matcher that only logs.

The array operations both reducers use live in module `PostList`:
- `findIndex` (`FindIndex`, `IndexOfId`);
- `find(...) || null` (`FindById`);
- the `find`/`some` scan that overwrites the first match (`ReplaceFirst`);
- `splice(i, 1)` (`Splice`, `RemoveFirst`).

Their contracts use one notion of "first match", the predicate `IsFirstMatch`. A post is `Post(id, fields)`. The fields are a type parameter `F`, because the post type's shape is not part of this model.

Immer's draft mutation becomes pure functions that return new values. `null`/`undefined` becomes `Option.None`. Matching action types by string suffix or substring becomes the tagged `Event`/`Action` datatypes.

Where the code and the intended design disagree, the model follows the code:
- **The tracker.** `rejected` clears `loading` but leaves `currentRequestId` set (blog.slice.ts:99-102). `fulfilled` clears both (blog.slice.ts:103-107). So "`currentRequestId` is set exactly when `loading` is true" does not hold. `RejectedKeepsRequestId` exhibits this. The property that does hold is one direction only: loading implies a named request (`RunKeepsTrackerConsistent`).
- **The selection.** Neither `deletePost.fulfilled` nor `getPostList.fulfilled` clears `editingPost`. So the selection may point at a post the list no longer holds. `DeleteLeavesSelectionDangling` exhibits this.
- **Unique ids.** Nothing in the code keeps ids unique. `getPostList.fulfilled` installs whatever list arrives, and `addPost.fulfilled` appends a post even when its id is already listed. `DuplicateIdsAccepted` exhibits both. Uniqueness is proved only as something the update, delete and fresh-id add paths preserve.
- **The synchronous `deletePost`.** It is modelled as written (see Findings).

## Model

| member | source | states |
|---|---|---|
| PostList.FindIndex | src/pages/blog/blog.slice.ts:92 | the result is -1 exactly when no post satisfies the predicate; otherwise it is the index of a post that satisfies it, and no earlier post does |
| PostList.IndexOfId | src/pages/blog/blog.slice.ts:92 | -1 exactly when no post has the id; otherwise the index of the first post with that id |
| PostList.FindById | src/pages/blog/blog.slice.ts:69 | None exactly when no post has the id; otherwise the first post with that id |
| PostList.ReplaceFirst | src/pages/blog/blog.slice.ts:82-88 | the length is kept; with no match the list is unchanged; otherwise only the first post with the payload's id is overwritten by the payload |
| PostList.Splice | src/pages/blog/blog.slice.ts:94 | one element fewer; the posts before index i stay in place and the later ones shift down by one; the multiset loses exactly the removed post |
| PostList.RemoveFirst | src/pages/blog/blog.slice.ts:92-95 | with no post having the id the list is unchanged; otherwise the first match is removed, the prefix before it and the suffix after it are kept in order, and the length drops by one |
| PostList.AppendFreshKeepsIdsUnique | src/pages/blog/blog.slice.ts:79-80 | appending a post whose id is not yet present keeps the ids unique |
| PostList.ReplaceFirstKeepsIdsUnique | src/pages/blog/blog.slice.ts:81-89 | replacing the first match by a post with the same id keeps the ids unique |
| PostList.RemoveFirstKeepsIdsUnique | src/pages/blog/blog.slice.ts:90-95 | removing the first match keeps the ids unique |
| BlogSlice.Initial | src/pages/blog/blog.slice.ts:18-23 | the store starts with no posts, nothing selected, not loading, no request id, and no request owning the tracker |
| BlogSlice.CancelEditingPost | src/pages/blog/blog.slice.ts:72-74 | the selection becomes None; the list and the tracker are untouched |
| BlogSlice.OnPostListLoaded | src/pages/blog/blog.slice.ts:77-78 | the list becomes exactly the payload; the selection and the tracker are untouched |
| BlogSlice.StartEditingPost | src/pages/blog/blog.slice.ts:67-71 | the selection is None exactly when no post has the id, and otherwise it is the first post with the id; the list and the tracker are untouched |
| BlogSlice.OnPostAdded | src/pages/blog/blog.slice.ts:79-80 | the length grows by one, the old list is a prefix and the payload is last; the selection and tracker are untouched |
| BlogSlice.OnPostUpdated | src/pages/blog/blog.slice.ts:81-89 | the length is kept; with no match the list is unchanged; otherwise the first match becomes the payload and every other index is unchanged; the selection is None in both cases |
| BlogSlice.OnPostDeleted | src/pages/blog/blog.slice.ts:90-95 | with no match the list is unchanged; otherwise the length drops by one and the posts before and after the first match are kept in order; the selection is not cleared |
| BlogSlice.Collection | src/pages/blog/blog.slice.ts:66-95 | the case reducers never touch `loading` or `currentRequestId`, and pending, rejected and unrelated actions leave the state unchanged |
| BlogSlice.Track | src/pages/blog/blog.slice.ts:96-107 | the matchers never touch the list or the selection; pending always takes the tracker; a settle changes nothing unless the tracker is loading with that request id; a settle that does act clears `loading`; fulfilled also clears the id, and rejected never changes it |
| BlogSlice.Step | src/pages/blog/blog.slice.ts:63-110 | a dispatched action's effect splits cleanly: the list and selection are what the case reducer makes of them, and the tracker is what the matcher makes of the state before the action |
| BlogSlice.Run | src/pages/blog/blog.slice.ts:63-110 | dispatching a sequence of actions with no pending, fulfilled or rejected action among them leaves `loading` and `currentRequestId` unchanged |
| BlogSlice.RunWithoutCaseActionsKeepsList | src/pages/blog/blog.slice.ts:63-110 | dispatching a sequence of only pending, rejected and unrelated actions leaves the list and the selection unchanged |
| BlogSlice.RunLast | src/pages/blog/blog.slice.ts:63-110 | a run of actions equals the run of all but the last action followed by one dispatch of the last |
| BlogSliceProperties.ListLoadedReplacesList | src/pages/blog/blog.slice.ts:77-78 | after `getPostList.fulfilled` the list is exactly the payload in order, and the selection is kept |
| BlogSliceProperties.AddedAppendsAtEnd | src/pages/blog/blog.slice.ts:79-80 | after `addPost.fulfilled` the list is the old list followed by the payload, and the selection is kept |
| BlogSliceProperties.UpdatedReplacesFirstMatch | src/pages/blog/blog.slice.ts:81-89 | after `updatePost.fulfilled`, for every list, the selection is None, the length is kept, a missing id leaves the list unchanged, and a present id puts the payload in the list; unique ids stay unique |
| BlogSliceProperties.DeletedRemovesFirstMatch | src/pages/blog/blog.slice.ts:90-95 | after `deletePost.fulfilled`, for every list, the selection is kept, a missing id is a no-op, and a present id shortens the list by one; when ids were unique they stay unique and no post with that id remains |
| BlogSliceProperties.DuplicateIdsAccepted | src/pages/blog/blog.slice.ts:77-80 | adding a post whose id is already listed, or loading a list with a repeated id, yields a list whose ids are not unique |
| BlogSliceProperties.EditingTouchesOnlySelection | src/pages/blog/blog.slice.ts:67-74 | selecting changes only the selection: it becomes None exactly when no post has the id, and otherwise a listed post with that id; cancelling sets it to None and changes nothing else |
| BlogSliceProperties.StartThenCancelSelectsNothing | src/pages/blog/blog.slice.ts:67-74 | selecting and then cancelling leaves nothing selected |
| BlogSliceProperties.UnrelatedIsIdentity | src/pages/blog/blog.slice.ts:63-110 | an action the slice does not handle leaves the state unchanged |
| BlogSliceProperties.PendingTakesOwnership | src/pages/blog/blog.slice.ts:96-98 | after any pending action the tracker is loading with that request id, whatever the prior state, and the list and selection are unchanged |
| BlogSliceProperties.CompletionIsGuarded | src/pages/blog/blog.slice.ts:99-107 | a settle changes the tracker only if it is loading with that id; fulfilled then clears both fields, and rejected clears `loading` but keeps the id |
| BlogSliceProperties.StaleCompletionIgnored | src/pages/blog/blog.slice.ts:96-107 | pending(a), pending(b), then a settle of a leaves the tracker loading with b |
| BlogSliceProperties.RepeatedCompletionIsTrackerNoOp | src/pages/blog/blog.slice.ts:99-107 | once a request has settled, a second settle of the same id leaves the tracker unchanged |
| BlogSliceProperties.StaleRunIgnored | src/pages/blog/blog.slice.ts:96-107 | any sequence of actions with no pending action and no settle of the owner's id (other settles in any order, editing and unrelated actions) leaves the owner of the tracker in charge |
| BlogSliceProperties.StepKeepsTrackerConsistent | src/pages/blog/blog.slice.ts:96-107 | every action keeps "loading implies a request id is set" |
| BlogSliceProperties.RunKeepsTrackerConsistent | src/pages/blog/blog.slice.ts:96-107 | every sequence of actions keeps "loading implies a request id is set" |
| BlogSliceProperties.RejectedKeepsRequestId | src/pages/blog/blog.slice.ts:99-102 | after pending(r1) and rejected(r1) the tracker is idle but still names r1, and a stray fulfilled(r1) leaves it that way |
| BlogSliceProperties.PendingThenFulfilledSettles | src/pages/blog/blog.slice.ts:103-107 | pending(r) then fulfilled(r) leaves the tracker idle with no request id |
| BlogSliceProperties.AddRunAppends | src/pages/blog/blog.slice.ts:79-80 | a run of `addPost.fulfilled` actions appends their posts in order, one per action, and keeps the selection |
| BlogSliceProperties.AddRunKeepsIdsUnique | src/pages/blog/blog.slice.ts:79-80 | from a list with unique ids, a run of `addPost.fulfilled` actions whose posts have distinct ids not already listed keeps the ids unique |
| BlogSliceProperties.LoadTwoPostsScenario | src/pages/blog/blog.slice.ts:77-78 | loading posts 1 and 2 into the empty store yields exactly [1, 2] |
| BlogSliceProperties.DeleteFirstOfTwoScenario | src/pages/blog/blog.slice.ts:90-95 | deleting "1" from [1, 2] leaves [2] |
| BlogSliceProperties.DeleteLeavesSelectionDangling | src/pages/blog/blog.slice.ts:90-95 | selecting post 1 and then deleting it leaves post 1 selected while the list holds no post with id 1 |
| BlogReducer.Initial | src/pages/blog/blog.reducer.ts:10-13 | the store starts with the seed list and nothing selected |
| BlogReducer.Reduce | src/pages/blog/blog.reducer.ts:21-55 | the list actions (add, delete, finish editing) never change the selection; start and cancel editing never change the list; cancel clears the selection; any other action changes nothing |
| BlogReducer.AddPostCase | src/pages/blog/blog.reducer.ts:23-27 | the length grows by one, the old list is a prefix and the payload is last; the selection is kept |
| BlogReducer.DeletePostAsWritten | src/pages/blog/blog.reducer.ts:28-34 | an empty list is unchanged; a non-empty list loses its first post whatever the payload; the selection is kept |
| BlogReducer.DeletePostIntended | src/pages/blog/blog.reducer.ts:28-34 | with no post having the payload's id nothing changes; otherwise exactly the first such post is removed, and the rest stay in order |
| BlogReducer.StartEditingCase | src/pages/blog/blog.reducer.ts:35-38 | the selection is None exactly when no post has the id, and otherwise it is the first post with the id; the list is unchanged |
| BlogReducer.FinishEditingCase | src/pages/blog/blog.reducer.ts:42-51 | the length is kept; with no match the list is unchanged; otherwise only the first match becomes the payload; the selection is kept |
| BlogReducer.CancelClearsOnlySelection | src/pages/blog/blog.reducer.ts:39-41 | `cancelEditingPost` sets the selection to None and keeps the list |
| BlogReducer.EditingKeepsList | src/pages/blog/blog.reducer.ts:35-41 | selecting never changes the list, and selecting then cancelling changes only the selection, to None |
| BlogReducer.FinishKeepsSelection | src/pages/blog/blog.reducer.ts:42-51 | finishing an edit leaves the selection as it was, whatever it is |
| BlogReducer.DeleteIgnoresPayload | src/pages/blog/blog.reducer.ts:30 | on [a, b] with payload b the written delete leaves [b], while the intended delete leaves [a] |
| BlogReducer.DeleteRemovesHeadAnyPayload | src/pages/blog/blog.reducer.ts:28-34 | on a non-empty list every payload gives the same result, the list without its first post |
| ReducersCompared.FinishEditingMatchesUpdateFulfilled | src/pages/blog/blog.reducer.ts:42-51 | `finishEditingPost` and the slice's `updatePost.fulfilled` produce the same list; only the slice clears the selection |
| ReducersCompared.SliceDeleteIsIntendedDelete | src/pages/blog/blog.slice.ts:90-95 | the slice's `deletePost.fulfilled` removes what the corrected synchronous delete removes |

## Left out

- The `createAsyncThunk` bodies (blog.slice.ts:25-61). They are HTTP calls through `utils/http`, which is not part of this model. Their results enter only as `Fulfilled` / `Rejected` events. In particular:
  - the 422 classification in `updatePost` (blog.slice.ts:48-53) ends in a rejected action either way, so it is a `Rejected(rid)` event here;
  - the value the delete call returns is ignored by the reducer, so `PostDeleted` carries only `meta.arg`.
- Abort-signal cancellation. It is asynchronous and cooperative, and no reducer logic is attached to it.
- Request-id generation inside Redux Toolkit. Ids are opaque strings.
- Which thunk a pending or rejected action belongs to. The matchers ignore it, so `Pending` and `Rejected` carry only the request id.
- Immer's draft mechanics. Also `current(state)` and `console.log` in the `cancel` matcher (blog.reducer.ts:52-54): the logging is output only, so the matcher is the identity. `Reduce` has no separate case for it.
- The seed list `initalPostList` (`constants/blog`) and the post field shape (`types/blog.type`). Neither is part of this model: the seed is a parameter of `BlogReducer.Initial`, and the fields are the type parameter `F`.
- The action-type strings themselves (`endsWith('/pending')`, `includes('cancel')`). They are replaced by tagged datatypes. So an unrelated action whose type happens to end in `/pending` is not modelled separately.

## Findings

| source | as written | input that shows it | evidently intended | confidence | as-written member | corrected member |
|---|---|---|---|---|---|---|
| src/pages/blog/blog.reducer.ts:30 | the `findIndex` callback compares `post.id === post.id`, which always holds, so `deletePost` removes the first post whatever the payload | posts [a (id "1"), b (id "2")], `deletePost(b)`: the result is [b] | remove the first post whose id equals the payload's id, as the slice's `deletePost.fulfilled` does | high (not executed) | BlogReducer.DeletePostAsWritten | BlogReducer.DeletePostIntended |

`BlogReducer.DeleteIgnoresPayload` exhibits the input above. The payload of this action is typed as a whole post (blog.reducer.ts:16), and `postId` (blog.reducer.ts:29) holds that post, not its id. So the comparison "against the payload" is taken to mean against the payload's `id`. `BlogReducer.Reduce` keeps the code as written. The corrected behaviour is `PostList.RemoveFirst`, which the slice's delete also uses, and `ReducersCompared.SliceDeleteIsIntendedDelete` connects the two.
