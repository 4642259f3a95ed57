/**
  The synchronous blog reducer (`blogReducer` in src/pages/blog/blog.reducer.ts).

  This reducer has no request tracker. Every action is handled at once.
  `deletePost` is modelled as written: its `findIndex` callback compares
  `post.id` with itself, so it always matches the first post, whatever the
  payload. `DeletePostIntended` is the evidently intended behaviour, and
  `DeleteIgnoresPayload` exhibits where the two differ.
*/
module BlogReducer {
  import opened Optional
  import opened PostList

  datatype State<F> = State(postList: seq<Post<F>>, editingPost: Option<Post<F>>)

  /** `initalState`: the seed list `initalPostList` is not part of this model and is a parameter. */
  function Initial<F>(seed: seq<Post<F>>): (r: State<F>)
    ensures r.postList == seed && r.editingPost == None
  {
    State(seed, None)
  }

  /**
    The actions `blogReducer` is built from. `Other` is any other action. The
    `cancel` matcher only logs, so which action types it matches makes no
    difference to the state.
  */
  datatype Action<F> =
    | AddPost(post: Post<F>)
    | DeletePost(payload: Post<F>)
    | StartEditingPost(postId: string)
    | CancelEditingPost
    | FinishEditingPost(post: Post<F>)
    | Other

  /** `addPost`: push the payload at the end. */
  function AddPostCase<F>(s: State<F>, post: Post<F>): (r: State<F>)
    ensures |r.postList| == |s.postList| + 1
    ensures r.postList[..|s.postList|] == s.postList && r.postList[|s.postList|] == post
    ensures r.editingPost == s.editingPost
  {
    s.(postList := s.postList + [post])
  }

  /** The callback `(post) => post.id === post.id`, which ignores the id asked for. */
  function SelfMatch<F>(post: Post<F>): bool {
    post.id == post.id
  }

  /**
    `deletePost` as written: `findIndex` with `SelfMatch`, then `splice` when
    the index is not -1. A non-empty list loses its head whatever the payload,
    and an empty list is unchanged.
  */
  function DeletePostAsWritten<F>(s: State<F>, payload: Post<F>): (r: State<F>)
    ensures |s.postList| == 0 ==> r == s
    ensures |s.postList| > 0 ==> r.postList == s.postList[1..]
    ensures r.editingPost == s.editingPost
  {
    var foundPostIndex := FindIndex(s.postList, SelfMatch);
    if foundPostIndex != -1 then s.(postList := Splice(s.postList, foundPostIndex)) else s
  }

  /**
    `deletePost` as evidently intended: remove the first post whose id is the
    payload's id. With no such post, nothing happens.
  */
  function DeletePostIntended<F>(s: State<F>, payload: Post<F>): (r: State<F>)
    ensures !HasId(s.postList, payload.id) ==> r == s
    ensures HasId(s.postList, payload.id) ==> |r.postList| == |s.postList| - 1
    ensures forall i :: IsFirstMatch(s.postList, payload.id, i) ==>
      r.postList[..i] == s.postList[..i] && r.postList[i..] == s.postList[i + 1..]
    ensures r.editingPost == s.editingPost
  {
    s.(postList := RemoveFirst(s.postList, payload.id))
  }

  /** `startEditingPost`: select the first post with the id, or nothing. */
  function StartEditingCase<F>(s: State<F>, postId: string): (r: State<F>)
    ensures r.postList == s.postList
    ensures r.editingPost.None? <==> !HasId(s.postList, postId)
    ensures forall i :: IsFirstMatch(s.postList, postId, i) ==> r.editingPost == Some(s.postList[i])
  {
    s.(editingPost := FindById(s.postList, postId))
  }

  /**
    `finishEditingPost`: the `some` scan overwrites the first post with the
    payload's id. The selection is left as it was.
  */
  function FinishEditingCase<F>(s: State<F>, post: Post<F>): (r: State<F>)
    ensures |r.postList| == |s.postList|
    ensures !HasId(s.postList, post.id) ==> r.postList == s.postList
    ensures forall i :: IsFirstMatch(s.postList, post.id, i) ==>
      r.postList[i] == post &&
      forall j :: 0 <= j < |s.postList| && j != i ==> r.postList[j] == s.postList[j]
    ensures r.editingPost == s.editingPost
  {
    s.(postList := ReplaceFirst(s.postList, post))
  }

  /**
    `blogReducer`: dispatch on the action. `cancelEditingPost` clears the
    selection. The list actions never touch the selection, the selection
    actions never touch the list, and any other action changes nothing.
  */
  function Reduce<F>(s: State<F>, a: Action<F>): (r: State<F>)
    ensures a.AddPost? || a.DeletePost? || a.FinishEditingPost? ==> r.editingPost == s.editingPost
    ensures a.StartEditingPost? || a.CancelEditingPost? ==> r.postList == s.postList
    ensures a.CancelEditingPost? ==> r.editingPost == None
    ensures a.Other? ==> r == s
  {
    match a
    case AddPost(post) => AddPostCase(s, post)
    case DeletePost(payload) => DeletePostAsWritten(s, payload)
    case StartEditingPost(postId) => StartEditingCase(s, postId)
    case CancelEditingPost => s.(editingPost := None)
    case FinishEditingPost(post) => FinishEditingCase(s, post)
    case Other => s
  }

  /** `cancelEditingPost` clears the selection, and the `cancel` matcher's logging leaves the rest alone. */
  lemma CancelClearsOnlySelection<F>(s: State<F>)
    ensures Reduce(s, CancelEditingPost).editingPost == None
    ensures Reduce(s, CancelEditingPost).postList == s.postList
    ensures Reduce(s, Other) == s
  {
  }

  /** Selecting and cancelling never change the list. */
  lemma EditingKeepsList<F>(s: State<F>, postId: string)
    ensures Reduce(s, StartEditingPost(postId)).postList == s.postList
    ensures Reduce(Reduce(s, StartEditingPost(postId)), CancelEditingPost) == s.(editingPost := None)
  {
  }

  /** Finishing an edit keeps the selection, unlike the slice's `updatePost.fulfilled`. */
  lemma FinishKeepsSelection<F>(s: State<F>, post: Post<F>)
    ensures Reduce(s, FinishEditingPost(post)).editingPost == s.editingPost
  {
  }

  /**
    The written `deletePost` ignores its payload. Given the posts [a, b] and
    the payload b, it removes a and keeps b, while the intended version
    removes b and keeps a.
  */
  lemma DeleteIgnoresPayload()
    ensures var a := Post("1", "A"); var b := Post("2", "B");
      var s := Initial([a, b]);
      Reduce(s, DeletePost(b)).postList == [b] &&
      DeletePostIntended(s, b).postList == [a]
  {
  }

  /** On any non-empty list, the written `deletePost` removes the head whichever payload it is given. */
  lemma DeleteRemovesHeadAnyPayload<F>(s: State<F>, p: Post<F>, q: Post<F>)
    requires |s.postList| > 0
    ensures Reduce(s, DeletePost(p)) == Reduce(s, DeletePost(q))
    ensures Reduce(s, DeletePost(p)).postList == s.postList[1..]
  {
  }
}
