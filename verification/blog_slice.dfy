/**
  The async blog slice (`blogSlice` in src/pages/blog/blog.slice.ts).

  Its state holds the post list, the post being edited, and a request tracker
  (`loading`, `currentRequestId`). The tracker follows the one request that
  started last. The four thunks (`getPostList`, `addPost`, `updatePost`,
  `deletePost`) perform HTTP calls outside this model. What reaches the
  reducer is their lifecycle actions, and those appear here as `Event`s.

  In Redux Toolkit a `X/fulfilled` action first runs its `addCase` reducer
  (`Collection`) and then the `/fulfilled` matcher (`Track`). `Step` applies
  the two in that order.
*/
module BlogSlice {
  import opened Optional
  import opened PostList

  datatype State<F> = State(
    postList: seq<Post<F>>,
    editingPost: Option<Post<F>>,
    loading: bool,
    currentRequestId: Option<string>)

  /** `initialState`: no posts, nothing selected, no request tracked. */
  function Initial<F>(): (r: State<F>)
    ensures |r.postList| == 0 && r.editingPost == None
    ensures !r.loading && r.currentRequestId == None
    ensures forall rid :: !Owns(r, rid)
  {
    State([], None, false, None)
  }

  /** The payload a thunk's `fulfilled` action carries, one alternative per thunk. */
  datatype Outcome<F> =
    | PostListLoaded(posts: seq<Post<F>>)   // getPostList: the server's list
    | PostAdded(post: Post<F>)              // addPost: the created post
    | PostUpdated(post: Post<F>)            // updatePost: the stored post
    | PostDeleted(postId: string)           // deletePost: `meta.arg`, the id asked for

  /**
    The actions the slice reacts to. The `/pending`, `/rejected` and
    `/fulfilled` suffix matches become the tags below, and `requestId`
    stands for `action.meta.requestId`. `Unrelated` is any other action.
  */
  datatype Event<F> =
    | Pending(requestId: string)
    | Fulfilled(requestId: string, outcome: Outcome<F>)
    | Rejected(requestId: string)
    | StartEditing(postId: string)
    | CancelEditing
    | Unrelated

  /** The lifecycle actions that settle a request. */
  predicate IsCompletion<F>(e: Event<F>) {
    e.Fulfilled? || e.Rejected?
  }

  /** The tracker owns request `rid`: it is loading, and `rid` is the last request started. */
  predicate Owns<F>(s: State<F>, rid: string) {
    s.loading && s.currentRequestId == Some(rid)
  }

  // ---------------------------------------------------------------------------
  // Case reducers: the list and the editing selection
  // ---------------------------------------------------------------------------

  /** `startEditingPost`: select the first post with the id, or nothing when there is none. */
  function StartEditingPost<F>(s: State<F>, postId: string): (r: State<F>)
    ensures r.postList == s.postList && r.loading == s.loading && r.currentRequestId == s.currentRequestId
    ensures r.editingPost.None? <==> !HasId(s.postList, postId)
    ensures forall i :: IsFirstMatch(s.postList, postId, i) ==> r.editingPost == Some(s.postList[i])
  {
    s.(editingPost := FindById(s.postList, postId))
  }

  /** `cancelEditingPost`: clear the selection. */
  function CancelEditingPost<F>(s: State<F>): (r: State<F>)
    ensures r.editingPost == None
    ensures r.postList == s.postList && r.loading == s.loading && r.currentRequestId == s.currentRequestId
  {
    s.(editingPost := None)
  }

  /** `getPostList.fulfilled`: replace the list wholesale. The selection is kept. */
  function OnPostListLoaded<F>(s: State<F>, posts: seq<Post<F>>): (r: State<F>)
    ensures r.postList == posts
    ensures r.editingPost == s.editingPost && r.loading == s.loading && r.currentRequestId == s.currentRequestId
  {
    s.(postList := posts)
  }

  /** `addPost.fulfilled`: push the created post at the end. */
  function OnPostAdded<F>(s: State<F>, post: Post<F>): (r: State<F>)
    ensures |r.postList| == |s.postList| + 1
    ensures r.postList[..|s.postList|] == s.postList && r.postList[|s.postList|] == post
    ensures r.editingPost == s.editingPost && r.loading == s.loading && r.currentRequestId == s.currentRequestId
  {
    s.(postList := s.postList + [post])
  }

  /**
    `updatePost.fulfilled`: overwrite the first post with the payload's id.
    The selection is cleared whether or not a post matched.
  */
  function OnPostUpdated<F>(s: State<F>, post: Post<F>): (r: State<F>)
    ensures |r.postList| == |s.postList|
    ensures !HasId(s.postList, post.id) ==> r.postList == s.postList
    ensures forall i :: IsFirstMatch(s.postList, post.id, i) ==>
      r.postList[i] == post &&
      forall j :: 0 <= j < |s.postList| && j != i ==> r.postList[j] == s.postList[j]
    ensures r.editingPost == None
    ensures r.loading == s.loading && r.currentRequestId == s.currentRequestId
  {
    s.(postList := ReplaceFirst(s.postList, post), editingPost := None)
  }

  /**
    `deletePost.fulfilled`: remove the first post whose id is `meta.arg`.
    The selection is left alone, even if it was the deleted post.
  */
  function OnPostDeleted<F>(s: State<F>, postId: string): (r: State<F>)
    ensures !HasId(s.postList, postId) ==> r.postList == s.postList
    ensures HasId(s.postList, postId) ==> |r.postList| == |s.postList| - 1
    ensures forall i :: IsFirstMatch(s.postList, postId, i) ==>
      r.postList[..i] == s.postList[..i] && r.postList[i..] == s.postList[i + 1..]
    ensures r.editingPost == s.editingPost
    ensures r.loading == s.loading && r.currentRequestId == s.currentRequestId
  {
    s.(postList := RemoveFirst(s.postList, postId))
  }

  /** The `reducers` and `addCase` part of the slice. The tracker fields are never touched here. */
  function Collection<F>(s: State<F>, e: Event<F>): (r: State<F>)
    ensures r.loading == s.loading && r.currentRequestId == s.currentRequestId
    ensures !e.Fulfilled? && !e.StartEditing? && !e.CancelEditing? ==> r == s
  {
    match e
    case Fulfilled(_, PostListLoaded(posts)) => OnPostListLoaded(s, posts)
    case Fulfilled(_, PostAdded(post)) => OnPostAdded(s, post)
    case Fulfilled(_, PostUpdated(post)) => OnPostUpdated(s, post)
    case Fulfilled(_, PostDeleted(postId)) => OnPostDeleted(s, postId)
    case StartEditing(postId) => StartEditingPost(s, postId)
    case CancelEditing => CancelEditingPost(s)
    case _ => s
  }

  // ---------------------------------------------------------------------------
  // Matchers: the request tracker
  // ---------------------------------------------------------------------------

  /**
    The `/pending`, `/rejected` and `/fulfilled` matchers. A pending action
    takes the tracker unconditionally. A settling action acts only if the
    tracker owns its request id. `fulfilled` then clears both fields, while
    `rejected` clears `loading` only and leaves `currentRequestId` set.
  */
  function Track<F>(s: State<F>, e: Event<F>): (r: State<F>)
    ensures r.postList == s.postList && r.editingPost == s.editingPost
    ensures e.Pending? ==> Owns(r, e.requestId)
    ensures IsCompletion(e) && !Owns(s, e.requestId) ==> r == s
    ensures IsCompletion(e) && Owns(s, e.requestId) ==> !r.loading
    ensures e.Fulfilled? && Owns(s, e.requestId) ==> r.currentRequestId == None
    ensures e.Rejected? ==> r.currentRequestId == s.currentRequestId
    ensures !e.Pending? && !IsCompletion(e) ==> r == s
  {
    match e
    case Pending(rid) =>
      s.(loading := true, currentRequestId := Some(rid))
    case Rejected(rid) =>
      if s.loading && s.currentRequestId == Some(rid) then s.(loading := false) else s
    case Fulfilled(rid, _) =>
      if s.loading && s.currentRequestId == Some(rid) then s.(loading := false, currentRequestId := None) else s
    case _ => s
  }

  /**
    One dispatched action: the case reducer first, then the matching
    lifecycle matcher. The two parts are independent. The list and the
    selection come out as the case reducer leaves them, and the tracker
    comes out as the matcher would leave it on the state before the action.
  */
  function Step<F>(s: State<F>, e: Event<F>): (r: State<F>)
    ensures r.postList == Collection(s, e).postList && r.editingPost == Collection(s, e).editingPost
    ensures r.loading == Track(s, e).loading && r.currentRequestId == Track(s, e).currentRequestId
  {
    Track(Collection(s, e), e)
  }

  /** No action in `es` starts or settles a request. */
  predicate NoLifecycle<F>(es: seq<Event<F>>) {
    forall k :: 0 <= k < |es| ==> !es[k].Pending? && !IsCompletion(es[k])
  }

  /** No action in `es` is one the case reducers handle. */
  predicate NoCaseAction<F>(es: seq<Event<F>>) {
    forall k :: 0 <= k < |es| ==> es[k].Pending? || es[k].Rejected? || es[k].Unrelated?
  }

  /**
    Dispatch a sequence of actions in order, as the store does. Runs without
    lifecycle actions leave the tracker alone.
  */
  function Run<F>(s: State<F>, es: seq<Event<F>>): (r: State<F>)
    ensures NoLifecycle(es) ==> r.loading == s.loading && r.currentRequestId == s.currentRequestId
    decreases |es|
  {
    if |es| == 0 then s
    else
      assert NoLifecycle(es) ==> NoLifecycle(es[1..]) by {
        assert forall k :: 0 <= k < |es| - 1 ==> es[1..][k] == es[k + 1];
      }
      Run(Step(s, es[0]), es[1..])
  }

  /** Runs made only of lifecycle and unrelated actions leave the list and the selection alone. */
  lemma {:induction false} RunWithoutCaseActionsKeepsList<F>(s: State<F>, es: seq<Event<F>>)
    requires NoCaseAction(es)
    ensures Run(s, es).postList == s.postList && Run(s, es).editingPost == s.editingPost
    decreases |es|
  {
    if |es| > 0 {
      assert NoCaseAction(es[1..]) by {
        assert forall k :: 0 <= k < |es| - 1 ==> es[1..][k] == es[k + 1];
      }
      RunWithoutCaseActionsKeepsList(Step(s, es[0]), es[1..]);
    }
  }

  /** Read from the other end, a run is the run of all but the last action followed by one `Step`. */
  lemma {:induction false} RunLast<F>(s: State<F>, es: seq<Event<F>>)
    requires |es| > 0
    ensures Run(s, es) == Step(Run(s, es[..|es| - 1]), es[|es| - 1])
    decreases |es|
  {
    if |es| == 1 {
      assert es[..0] == [];
      assert es[1..] == [];
    } else {
      RunLast(Step(s, es[0]), es[1..]);
      assert es[..|es| - 1][1..] == es[1..][..|es| - 2];
      assert es[..|es| - 1][0] == es[0];
      assert es[1..][|es| - 2] == es[|es| - 1];
    }
  }
}
