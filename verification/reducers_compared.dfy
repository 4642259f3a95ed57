/**
  The two reducers side by side. Started from the same list and selection,
  the synchronous `finishEditingPost` and the slice's `updatePost.fulfilled`
  produce the same list. They differ only in the selection: the slice clears
  it and the synchronous reducer keeps it.
*/
module ReducersCompared {
  import opened Optional
  import opened PostList
  import Slice = BlogSlice
  import Sync = BlogReducer

  /** Same list from both; only the slice clears the selection. */
  lemma FinishEditingMatchesUpdateFulfilled<F>(s: Slice.State<F>, rid: string, post: Post<F>)
    ensures var a := Slice.Step(s, Slice.Fulfilled(rid, Slice.PostUpdated(post)));
      var b := Sync.Reduce(Sync.State(s.postList, s.editingPost), Sync.FinishEditingPost(post));
      a.postList == b.postList && a.editingPost == None && b.editingPost == s.editingPost
  {
  }

  /** On the same list, the slice's `deletePost.fulfilled` and the corrected synchronous delete agree. */
  lemma SliceDeleteIsIntendedDelete<F>(s: Slice.State<F>, rid: string, post: Post<F>)
    ensures Slice.Step(s, Slice.Fulfilled(rid, Slice.PostDeleted(post.id))).postList ==
      Sync.DeletePostIntended(Sync.State(s.postList, s.editingPost), post).postList
  {
    var e := Slice.Fulfilled(rid, Slice.PostDeleted(post.id));
    assert Slice.Collection(s, e) == Slice.OnPostDeleted(s, post.id);
    assert Slice.Step(s, e).postList == RemoveFirst(s.postList, post.id);
  }
}
