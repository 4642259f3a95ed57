/**
  Properties of the async blog slice. These are stated over `Step`, the
  reducer a dispatched action actually goes through, and over `Run`, a
  sequence of dispatches.
*/
module BlogSliceProperties {
  import opened Optional
  import opened PostList
  import opened BlogSlice

  // ---------------------------------------------------------------------------
  // The post list and the editing selection
  // ---------------------------------------------------------------------------

  /** `getPostList.fulfilled` installs exactly the payload, in order, and keeps the selection. */
  lemma ListLoadedReplacesList<F>(s: State<F>, rid: string, posts: seq<Post<F>>)
    ensures Step(s, Fulfilled(rid, PostListLoaded(posts))).postList == posts
    ensures Step(s, Fulfilled(rid, PostListLoaded(posts))).editingPost == s.editingPost
  {
  }

  /** `addPost.fulfilled` appends: the old list is a prefix and the payload is last. */
  lemma AddedAppendsAtEnd<F>(s: State<F>, rid: string, post: Post<F>)
    ensures Step(s, Fulfilled(rid, PostAdded(post))).postList == s.postList + [post]
    ensures Step(s, Fulfilled(rid, PostAdded(post))).editingPost == s.editingPost
  {
  }

  /**
    `updatePost.fulfilled` rewrites only the first post with the payload's id,
    or nothing if no post has it. The selection is cleared in both cases.
    Unique ids stay unique.
  */
  lemma UpdatedReplacesFirstMatch<F>(s: State<F>, rid: string, post: Post<F>)
    ensures var r := Step(s, Fulfilled(rid, PostUpdated(post)));
      r.editingPost == None && |r.postList| == |s.postList| &&
      (!HasId(s.postList, post.id) ==> r.postList == s.postList) &&
      (HasId(s.postList, post.id) ==> post in r.postList)
    ensures IdsUnique(s.postList) ==> IdsUnique(Step(s, Fulfilled(rid, PostUpdated(post))).postList)
  {
    if IdsUnique(s.postList) {
      ReplaceFirstKeepsIdsUnique(s.postList, post);
    }
    if HasId(s.postList, post.id) {
      var i := IndexOfId(s.postList, post.id);
      assert IsFirstMatch(s.postList, post.id, i);
      assert Step(s, Fulfilled(rid, PostUpdated(post))).postList[i] == post;
    }
  }

  /**
    `deletePost.fulfilled` removes exactly the first post with the id, keeping
    the others in order. The selection is never cleared. When ids are unique
    they stay unique, and no post with the deleted id remains.
  */
  lemma DeletedRemovesFirstMatch<F>(s: State<F>, rid: string, postId: string)
    ensures var r := Step(s, Fulfilled(rid, PostDeleted(postId)));
      r.editingPost == s.editingPost &&
      (!HasId(s.postList, postId) ==> r.postList == s.postList) &&
      (HasId(s.postList, postId) ==> |r.postList| == |s.postList| - 1)
    ensures var r := Step(s, Fulfilled(rid, PostDeleted(postId)));
      IdsUnique(s.postList) ==> IdsUnique(r.postList) && !HasId(r.postList, postId)
  {
    var r := Step(s, Fulfilled(rid, PostDeleted(postId)));
    if IdsUnique(s.postList) {
      RemoveFirstKeepsIdsUnique(s.postList, postId);
      if HasId(s.postList, postId) {
        var i := IndexOfId(s.postList, postId);
        assert IsFirstMatch(s.postList, postId, i);
        assert r.postList[..i] == s.postList[..i] && r.postList[i..] == s.postList[i + 1..];
        forall k | 0 <= k < |r.postList| ensures r.postList[k].id != postId {
          if k < i {
            assert r.postList[k] == r.postList[..i][k];
          } else {
            assert r.postList[k] == r.postList[i..][k - i] == s.postList[k + 1];
          }
        }
      }
    }
  }

  /**
    Nothing keeps ids unique. `addPost.fulfilled` appends a post whose id is
    already listed, and `getPostList.fulfilled` installs a list with repeated ids.
  */
  lemma DuplicateIdsAccepted()
    ensures var p := Post("1", "A"); var q := Post("1", "B");
      !IdsUnique(Step(Initial<string>().(postList := [p]), Fulfilled("r", PostAdded(q))).postList) &&
      !IdsUnique(Step(Initial<string>(), Fulfilled("r", PostListLoaded([p, q]))).postList)
  {
    var p := Post("1", "A");
    var q := Post("1", "B");
    assert Step(Initial<string>().(postList := [p]), Fulfilled("r", PostAdded(q))).postList == [p, q];
    assert [p, q][0].id == [p, q][1].id;
  }

  /**
    Selecting and cancelling change only the selection. Selecting finds the
    first post with the id, or nothing.
  */
  lemma EditingTouchesOnlySelection<F>(s: State<F>, postId: string)
    ensures var r := Step(s, StartEditing(postId));
      r.postList == s.postList && r.loading == s.loading && r.currentRequestId == s.currentRequestId &&
      (r.editingPost.None? <==> !HasId(s.postList, postId)) &&
      (r.editingPost.Some? ==> r.editingPost.value.id == postId && r.editingPost.value in s.postList)
    ensures Step(s, CancelEditing) == s.(editingPost := None)
  {
    var r := Step(s, StartEditing(postId));
    if HasId(s.postList, postId) {
      var i := IndexOfId(s.postList, postId);
      assert IsFirstMatch(s.postList, postId, i);
    }
  }

  /** Cancelling right after selecting leaves nothing selected. */
  lemma StartThenCancelSelectsNothing<F>(s: State<F>, postId: string)
    ensures Step(Step(s, StartEditing(postId)), CancelEditing).editingPost == None
  {
  }

  /** An action the slice does not handle leaves the state as it was. */
  lemma UnrelatedIsIdentity<F>(s: State<F>)
    ensures Step(s, Unrelated) == s
  {
  }

  // ---------------------------------------------------------------------------
  // The request tracker
  // ---------------------------------------------------------------------------

  /** A pending action always takes the tracker and never touches the list or the selection. */
  lemma PendingTakesOwnership<F>(s: State<F>, rid: string)
    ensures Owns(Step(s, Pending(rid)), rid)
    ensures Step(s, Pending(rid)).postList == s.postList
    ensures Step(s, Pending(rid)).editingPost == s.editingPost
  {
  }

  /**
    A settling action with id `rid` changes the tracker only if the tracker
    owns `rid`. `fulfilled` then clears both fields. `rejected` clears
    `loading` but keeps `currentRequestId == rid`.
  */
  lemma CompletionIsGuarded<F>(s: State<F>, e: Event<F>)
    requires IsCompletion(e)
    ensures var r := Step(s, e);
      (r.loading, r.currentRequestId) != (s.loading, s.currentRequestId) ==> Owns(s, e.requestId)
    ensures Owns(s, e.requestId) && e.Fulfilled? ==>
      !Step(s, e).loading && Step(s, e).currentRequestId == None
    ensures Owns(s, e.requestId) && e.Rejected? ==>
      !Step(s, e).loading && Step(s, e).currentRequestId == Some(e.requestId)
  {
  }

  /** Last start wins: pending(a), pending(b), then a settle of `a` leaves `b` in charge. */
  lemma StaleCompletionIgnored<F>(s: State<F>, a: string, b: string, e: Event<F>)
    requires a != b && IsCompletion(e) && e.requestId == a
    ensures Owns(Step(Step(Step(s, Pending(a)), Pending(b)), e), b)
  {
  }

  /** Once `rid` has settled, a repeated settle of `rid` leaves the tracker alone, since `loading` is false. */
  lemma RepeatedCompletionIsTrackerNoOp<F>(s: State<F>, e1: Event<F>, e2: Event<F>)
    requires IsCompletion(e1) && IsCompletion(e2) && e1.requestId == e2.requestId
    requires Owns(s, e1.requestId)
    ensures var t := Step(s, e1); var u := Step(t, e2);
      !t.loading && u.loading == t.loading && u.currentRequestId == t.currentRequestId
  {
  }

  /** `e` neither starts a request nor settles `rid`. */
  predicate SparesOwner<F>(e: Event<F>, rid: string) {
    !e.Pending? && !(IsCompletion(e) && e.requestId == rid)
  }

  /**
    Last start wins over any run: as long as no request starts and `rid`
    does not settle, settles of other requests (in any order), editing
    actions and unrelated actions leave `rid` owning the tracker.
  */
  lemma {:induction false} StaleRunIgnored<F>(s: State<F>, rid: string, es: seq<Event<F>>)
    requires Owns(s, rid)
    requires forall k :: 0 <= k < |es| ==> SparesOwner(es[k], rid)
    ensures Owns(Run(s, es), rid)
    decreases |es|
  {
    if |es| > 0 {
      assert SparesOwner(es[0], rid);
      assert forall k :: 0 <= k < |es| - 1 ==> SparesOwner(es[1..][k], rid) by {
        forall k | 0 <= k < |es| - 1 ensures SparesOwner(es[1..][k], rid) {
          assert es[1..][k] == es[k + 1];
        }
      }
      StaleRunIgnored(Step(s, es[0]), rid, es[1..]);
    }
  }

  /** What does hold of the tracker: whenever it is loading, it names a request. */
  predicate TrackerConsistent<F>(s: State<F>) {
    s.loading ==> s.currentRequestId.Some?
  }

  /** Every dispatch keeps the tracker consistent. */
  lemma StepKeepsTrackerConsistent<F>(s: State<F>, e: Event<F>)
    requires TrackerConsistent(s)
    ensures TrackerConsistent(Step(s, e))
  {
  }

  /** Every run of dispatches from the initial state keeps the tracker consistent. */
  lemma {:induction false} RunKeepsTrackerConsistent<F>(s: State<F>, es: seq<Event<F>>)
    requires TrackerConsistent(s)
    ensures TrackerConsistent(Run(s, es))
    decreases |es|
  {
    if |es| > 0 {
      StepKeepsTrackerConsistent(s, es[0]);
      RunKeepsTrackerConsistent(Step(s, es[0]), es[1..]);
    }
  }

  /**
    The converse fails. After pending(r) and rejected(r) the tracker is idle
    but still names `r`. A stray later settle of `r` then has no tracker effect.
  */
  lemma RejectedKeepsRequestId<F>()
    ensures var t := Run(Initial<F>(), [Pending("r1"), Rejected("r1")]);
      !t.loading && t.currentRequestId == Some("r1")
    ensures var t := Run(Initial<F>(), [Pending("r1"), Rejected("r1"), Fulfilled("r1", PostListLoaded([]))]);
      !t.loading && t.currentRequestId == Some("r1")
  {
  }

  /** Pending then fulfilled of the same request leaves the tracker idle with no request. */
  lemma PendingThenFulfilledSettles<F>(s: State<F>, rid: string, o: Outcome<F>)
    ensures var t := Step(Step(s, Pending(rid)), Fulfilled(rid, o));
      !t.loading && t.currentRequestId == None
  {
  }

  // ---------------------------------------------------------------------------
  // Runs of `addPost` completions
  // ---------------------------------------------------------------------------

  /** Every action in `es` is an `addPost.fulfilled`. */
  predicate AllAdds<F>(es: seq<Event<F>>) {
    forall k :: 0 <= k < |es| ==> es[k].Fulfilled? && es[k].outcome.PostAdded?
  }

  /** The server handed out fresh ids: the added posts' ids are distinct and none is already listed. */
  predicate FreshAdds<F>(ps: seq<Post<F>>, es: seq<Event<F>>) {
    AllAdds(es) && IdsUnique(AddedPosts(es)) &&
    forall k :: 0 <= k < |es| ==> !HasId(ps, es[k].outcome.post.id)
  }

  /** The posts a run of `addPost.fulfilled` actions carries, in order. */
  function AddedPosts<F>(es: seq<Event<F>>): seq<Post<F>>
    requires AllAdds(es)
  {
    if |es| == 0 then [] else [es[0].outcome.post] + AddedPosts(es[1..])
  }

  /** The k-th added post is the payload of the k-th action. */
  lemma {:induction false} AddedPostsAt<F>(es: seq<Event<F>>)
    requires AllAdds(es)
    ensures |AddedPosts(es)| == |es|
    ensures forall k :: 0 <= k < |es| ==> AddedPosts(es)[k] == es[k].outcome.post
    decreases |es|
  {
    if |es| > 0 {
      assert AllAdds(es[1..]) by {
        forall k | 0 <= k < |es| - 1 ensures es[1..][k].Fulfilled? && es[1..][k].outcome.PostAdded? {
          assert es[1..][k] == es[k + 1];
        }
      }
      AddedPostsAt(es[1..]);
      forall k | 1 <= k < |es| ensures AddedPosts(es)[k] == es[k].outcome.post {
        assert es[1..][k - 1] == es[k];
      }
    }
  }

  /**
    A run of `addPost.fulfilled` actions appends their posts in order, one per
    action, and keeps the selection.
  */
  lemma {:induction false} AddRunAppends<F>(s: State<F>, es: seq<Event<F>>)
    requires AllAdds(es)
    ensures Run(s, es).postList == s.postList + AddedPosts(es)
    ensures |Run(s, es).postList| == |s.postList| + |es|
    ensures Run(s, es).editingPost == s.editingPost
    decreases |es|
  {
    if |es| == 0 {
      assert s.postList + [] == s.postList;
    } else {
      var p := es[0].outcome.post;
      var rest := es[1..];
      assert AllAdds(rest) by {
        forall k | 0 <= k < |rest| ensures rest[k].Fulfilled? && rest[k].outcome.PostAdded? {
          assert rest[k] == es[k + 1];
        }
      }
      var t := Step(s, es[0]);
      assert t.postList == s.postList + [p] && t.editingPost == s.editingPost by {
        assert Collection(s, es[0]) == OnPostAdded(s, p);
      }
      assert Run(s, es) == Run(t, rest);
      AddRunAppends(t, rest);
      assert AddedPosts(es) == [p] + AddedPosts(rest);
      assert (s.postList + [p]) + AddedPosts(rest) == s.postList + ([p] + AddedPosts(rest));
    }
  }

  /** When the server hands out fresh ids, a run of `addPost.fulfilled` actions keeps the ids unique. */
  lemma {:induction false} AddRunKeepsIdsUnique<F>(s: State<F>, es: seq<Event<F>>)
    requires IdsUnique(s.postList) && FreshAdds(s.postList, es)
    ensures IdsUnique(Run(s, es).postList)
    decreases |es|
  {
    if |es| > 0 {
      var t := Step(s, es[0]);
      assert t.postList == s.postList + [es[0].outcome.post];
      FreshAddsStep(s.postList, es);
      AddRunKeepsIdsUnique(t, es[1..]);
    }
  }

  /** Appending the first fresh post keeps the rest of the run fresh with respect to the longer list. */
  lemma FreshAddsStep<F>(ps: seq<Post<F>>, es: seq<Event<F>>)
    requires |es| > 0 && IdsUnique(ps) && FreshAdds(ps, es)
    ensures IdsUnique(ps + [es[0].outcome.post])
    ensures FreshAdds(ps + [es[0].outcome.post], es[1..])
  {
    var p := es[0].outcome.post;
    var added := AddedPosts(es);
    AddedPostsAt(es);
    AppendFreshKeepsIdsUnique(ps, p);
    assert AllAdds(es[1..]) by {
      forall k | 0 <= k < |es| - 1 ensures es[1..][k].Fulfilled? && es[1..][k].outcome.PostAdded? {
        assert es[1..][k] == es[k + 1];
      }
    }
    var rest := AddedPosts(es[1..]);
    AddedPostsAt(es[1..]);
    forall a, b | 0 <= a < b < |rest| ensures rest[a].id != rest[b].id {
      assert rest[a] == es[a + 1].outcome.post == added[a + 1];
      assert rest[b] == es[b + 1].outcome.post == added[b + 1];
    }
    forall k | 0 <= k < |es| - 1 ensures !HasId(ps + [p], es[1..][k].outcome.post.id) {
      var id := es[1..][k].outcome.post.id;
      assert es[1..][k] == es[k + 1];
      assert !HasId(ps, id);
      assert added[0] == p && added[k + 1].id == id;
    }
  }

  // ---------------------------------------------------------------------------
  // Concrete scenarios
  // ---------------------------------------------------------------------------

  /** Loading two posts into an empty store yields exactly those two, in that order. */
  lemma LoadTwoPostsScenario()
    ensures var p1 := Post("1", "A"); var p2 := Post("2", "B");
      Step(Initial<string>(), Fulfilled("r", PostListLoaded([p1, p2]))).postList == [p1, p2]
  {
  }

  /** Deleting "1" from the posts [1, 2] leaves [2]. */
  lemma DeleteFirstOfTwoScenario()
    ensures var p1 := Post("1", "A"); var p2 := Post("2", "B");
      var s := Initial<string>().(postList := [p1, p2]);
      Step(s, Fulfilled("r", PostDeleted("1"))).postList == [p2]
  {
  }

  /**
    No "no dangling selection" invariant holds. Selecting a post and then
    deleting it leaves the selection pointing at a post the list no longer
    holds.
  */
  lemma DeleteLeavesSelectionDangling()
    ensures var p1 := Post("1", "A");
      var t := Run(Initial<string>().(postList := [p1]), [StartEditing("1"), Fulfilled("r", PostDeleted("1"))]);
      t.editingPost == Some(p1) && !HasId(t.postList, "1")
  {
  }
}
