/**
  The ordered list of posts and the array operations both blog reducers perform
  on it: `findIndex`, `find(...) || null`, "replace the first match in place"
  (written with `find`/`some` callbacks in the source) and `splice(i, 1)`.

  Every operation is a pure function returning a new sequence, where the source
  mutates an Immer draft.
*/
module PostList {
  import opened Optional

  /** One blog post: its server-assigned id and the remaining fields, kept abstract. */
  datatype Post<F> = Post(id: string, fields: F)

  /** Some post in `ps` carries this id. */
  predicate HasId<F>(ps: seq<Post<F>>, id: string) {
    exists j :: 0 <= j < |ps| && ps[j].id == id
  }

  /** `i` is the index of the FIRST post in `ps` whose id is `id`. */
  predicate IsFirstMatch<F>(ps: seq<Post<F>>, id: string, i: int) {
    0 <= i < |ps| && ps[i].id == id && forall j :: 0 <= j < i ==> ps[j].id != id
  }

  /** No two posts in `ps` share an id. */
  predicate IdsUnique<F>(ps: seq<Post<F>>) {
    forall i, j :: 0 <= i < j < |ps| ==> ps[i].id != ps[j].id
  }

  /** `Array.prototype.findIndex`: the index of the first post satisfying `pred`, or -1. */
  function FindIndex<F>(ps: seq<Post<F>>, pred: Post<F> -> bool): (r: int)
    ensures -1 <= r < |ps|
    ensures r == -1 <==> forall j :: 0 <= j < |ps| ==> !pred(ps[j])
    ensures r != -1 ==> pred(ps[r]) && forall j :: 0 <= j < r ==> !pred(ps[j])
  {
    if |ps| == 0 then -1
    else if pred(ps[0]) then 0
    else
      var k := FindIndex(ps[1..], pred);
      if k == -1 then -1 else k + 1
  }

  /** `findIndex((post) => post.id === id)`: the first index holding `id`, or -1 when there is none. */
  function IndexOfId<F>(ps: seq<Post<F>>, id: string): (r: int)
    ensures r == -1 <==> !HasId(ps, id)
    ensures r != -1 ==> IsFirstMatch(ps, id, r)
  {
    FindIndex(ps, (p: Post<F>) => p.id == id)
  }

  /** `find((post) => post.id === id) || null`: the first post with this id, or None. */
  function FindById<F>(ps: seq<Post<F>>, id: string): (r: Option<Post<F>>)
    ensures r.None? <==> !HasId(ps, id)
    ensures forall i :: IsFirstMatch(ps, id, i) ==> r == Some(ps[i])
  {
    if |ps| == 0 then None
    else if ps[0].id == id then Some(ps[0])
    else FindById(ps[1..], id)
  }

  /**
    The scan that stops at the first post whose id equals `p.id` and overwrites
    that slot with `p`. With no match the list is returned as it was.
  */
  function ReplaceFirst<F>(ps: seq<Post<F>>, p: Post<F>): (r: seq<Post<F>>)
    ensures |r| == |ps|
    ensures !HasId(ps, p.id) ==> r == ps
    ensures forall i :: IsFirstMatch(ps, p.id, i) ==> r == ps[i := p]
  {
    if |ps| == 0 then ps
    else if ps[0].id == p.id then [p] + ps[1..]
    else
      FirstMatchInTail(ps, p.id);
      [ps[0]] + ReplaceFirst(ps[1..], p)
  }

  /** When the head does not match, the first match of the list is one past the first match of its tail. */
  lemma FirstMatchInTail<F>(ps: seq<Post<F>>, id: string)
    requires |ps| > 0 && ps[0].id != id
    ensures forall i :: IsFirstMatch(ps, id, i) ==> i > 0 && IsFirstMatch(ps[1..], id, i - 1)
  {
  }

  /** `splice(i, 1)`: drop the post at index `i`, keeping the order of the others. */
  function Splice<F>(ps: seq<Post<F>>, i: int): (r: seq<Post<F>>)
    requires 0 <= i < |ps|
    ensures |r| == |ps| - 1
    ensures forall j :: 0 <= j < i ==> r[j] == ps[j]
    ensures forall j :: i <= j < |r| ==> r[j] == ps[j + 1]
    ensures multiset(r) + multiset{ps[i]} == multiset(ps)
  {
    assert ps == ps[..i] + [ps[i]] + ps[i + 1..];
    ps[..i] + ps[i + 1..]
  }

  /**
    `findIndex` on the id, then `splice` when found: removes exactly the first
    post carrying `id`; with no such post the list is unchanged.
  */
  function RemoveFirst<F>(ps: seq<Post<F>>, id: string): (r: seq<Post<F>>)
    ensures !HasId(ps, id) ==> r == ps
    ensures HasId(ps, id) ==> |r| == |ps| - 1
    ensures forall i :: IsFirstMatch(ps, id, i) ==>
      r[..i] == ps[..i] && r[i..] == ps[i + 1..] && multiset(r) + multiset{ps[i]} == multiset(ps)
  {
    var i := IndexOfId(ps, id);
    if i != -1 then Splice(ps, i) else ps
  }

  /** Appending a post whose id is new keeps the ids unique. */
  lemma AppendFreshKeepsIdsUnique<F>(ps: seq<Post<F>>, p: Post<F>)
    requires IdsUnique(ps) && !HasId(ps, p.id)
    ensures IdsUnique(ps + [p])
  {
  }

  /** Replacing a post by one with the same id keeps the ids unique. */
  lemma ReplaceFirstKeepsIdsUnique<F>(ps: seq<Post<F>>, p: Post<F>)
    requires IdsUnique(ps)
    ensures IdsUnique(ReplaceFirst(ps, p))
  {
    var r := ReplaceFirst(ps, p);
    if HasId(ps, p.id) {
      var i := IndexOfId(ps, p.id);
      forall a, b | 0 <= a < b < |r| ensures r[a].id != r[b].id {
        assert r[a].id == ps[a].id && r[b].id == ps[b].id;
      }
    }
  }

  /** Removing a post keeps the ids unique. */
  lemma RemoveFirstKeepsIdsUnique<F>(ps: seq<Post<F>>, id: string)
    requires IdsUnique(ps)
    ensures IdsUnique(RemoveFirst(ps, id))
  {
  }
}
