/** A task's comments as the panel keeps them, and the three ways a successful
    request rewrites that list: append the created record, replace the
    records of an edited id, filter out the records of a deleted id. The
    client never checks that ids are unique; the lemmas say what holds when
    the server keeps them so. */
module Comments {
  import opened Text

  type CommentId = int

  /** A comment record as the server returns it. */
  datatype Comment = Comment(id: CommentId, body: string, author: Option<string>, createdAt: string)

  /** Some entry of `cs` carries `id`. */
  predicate HasId(cs: seq<Comment>, id: CommentId) {
    exists i :: 0 <= i < |cs| && cs[i].id == id
  }

  /** No two entries of `cs` carry the same id. */
  predicate UniqueIds(cs: seq<Comment>) {
    forall i, j :: 0 <= i < j < |cs| ==> cs[i].id != cs[j].id
  }

  /** The number of entries of `cs` that carry `id`. */
  function CountId(cs: seq<Comment>, id: CommentId): (n: nat)
    ensures n <= |cs|
    ensures n == 0 <==> !HasId(cs, id)
  {
    if cs == [] then 0
    else (if cs[0].id == id then 1 else 0) + CountId(cs[1..], id)
  }

  /** `a` is `b` with some entries dropped and the rest kept in order. */
  ghost predicate IsSubsequence(a: seq<Comment>, b: seq<Comment>) {
    if b == [] then a == []
    else (a != [] && a[0] == b[0] && IsSubsequence(a[1..], b[1..])) || IsSubsequence(a, b[1..])
  }

  /** The list after a successful create: the returned record at the end. */
  function Append(cs: seq<Comment>, created: Comment): (r: seq<Comment>)
    ensures |r| == |cs| + 1
    ensures r[..|cs|] == cs && r[|cs|] == created
  {
    cs + [created]
  }

  /** The list after a successful edit of `id`: every entry with that id
      becomes the returned record, every other entry stays where it was. */
  function ReplaceById(cs: seq<Comment>, id: CommentId, updated: Comment): (r: seq<Comment>)
    ensures |r| == |cs|
    ensures forall i :: 0 <= i < |cs| && cs[i].id == id ==> r[i] == updated
    ensures forall i :: 0 <= i < |cs| && cs[i].id != id ==> r[i] == cs[i]
  {
    if cs == [] then []
    else [if cs[0].id == id then updated else cs[0]] + ReplaceById(cs[1..], id, updated)
  }

  /** The list after a successful delete of `id`: no entry with that id is
      left, the others are all kept, in their original order. */
  function RemoveById(cs: seq<Comment>, id: CommentId): (r: seq<Comment>)
    ensures forall i :: 0 <= i < |r| ==> r[i].id != id
    ensures forall c :: c in cs && c.id != id ==> c in r
    ensures forall c :: c in r ==> c in cs
    ensures IsSubsequence(r, cs)
    ensures |r| == |cs| - CountId(cs, id)
  {
    if cs == [] then []
    else if cs[0].id == id then RemoveById(cs[1..], id)
    else [cs[0]] + RemoveById(cs[1..], id)
  }

  /** With unique ids, an id that is present occurs exactly once. */
  lemma {:induction false} CountIdUnique(cs: seq<Comment>, id: CommentId)
    requires UniqueIds(cs)
    ensures CountId(cs, id) <= 1
    ensures HasId(cs, id) ==> CountId(cs, id) == 1
  {
    if cs != [] {
      assert UniqueIds(cs[1..]) by {
        forall i, j | 0 <= i < j < |cs[1..]| ensures cs[1..][i].id != cs[1..][j].id {
          assert cs[1..][i] == cs[i + 1] && cs[1..][j] == cs[j + 1];
        }
      }
      CountIdUnique(cs[1..], id);
    }
  }

  /** Deleting an id that is present from a list with unique ids shrinks it
      by exactly one. */
  lemma RemoveByIdShrinksByOne(cs: seq<Comment>, id: CommentId)
    requires UniqueIds(cs) && HasId(cs, id)
    ensures |RemoveById(cs, id)| == |cs| - 1
  {
    CountIdUnique(cs, id);
  }

  /** Deleting or editing an id that is absent leaves the list as it was. */
  lemma {:induction false} AbsentIdUntouched(cs: seq<Comment>, id: CommentId, updated: Comment)
    requires !HasId(cs, id)
    ensures RemoveById(cs, id) == cs
    ensures ReplaceById(cs, id, updated) == cs
  {
    if cs != [] {
      var tail := cs[1..];
      assert cs[0].id != id;
      forall k | 0 <= k < |tail| ensures tail[k].id != id {
        assert tail[k] == cs[k + 1];
      }
      AbsentIdUntouched(tail, id, updated);
      assert cs == [cs[0]] + tail;
      assert RemoveById(cs, id) == [cs[0]] + RemoveById(tail, id);
      assert ReplaceById(cs, id, updated) == [cs[0]] + ReplaceById(tail, id, updated);
    }
  }

  /** Deleting keeps ids unique. */
  lemma {:induction false} RemoveByIdKeepsUnique(cs: seq<Comment>, id: CommentId)
    requires UniqueIds(cs)
    ensures UniqueIds(RemoveById(cs, id))
  {
    if cs != [] {
      var tail := cs[1..];
      assert UniqueIds(tail) by {
        forall i, j | 0 <= i < j < |tail| ensures tail[i].id != tail[j].id {
          assert tail[i] == cs[i + 1] && tail[j] == cs[j + 1];
        }
      }
      RemoveByIdKeepsUnique(tail, id);
      if cs[0].id != id {
        var rest := RemoveById(tail, id);
        assert forall c :: c in tail ==> c.id != cs[0].id;
        assert forall k :: 0 <= k < |rest| ==> rest[k].id != cs[0].id;
        assert RemoveById(cs, id) == [cs[0]] + rest;
      }
    }
  }

  /** An edit whose returned record keeps the edited id keeps ids unique. */
  lemma ReplaceByIdKeepsUnique(cs: seq<Comment>, id: CommentId, updated: Comment)
    requires UniqueIds(cs) && updated.id == id
    ensures UniqueIds(ReplaceById(cs, id, updated))
  {
    var r := ReplaceById(cs, id, updated);
    assert forall i :: 0 <= i < |cs| ==> r[i].id == cs[i].id;
  }

  /** A create keeps ids unique exactly when the returned id is new. */
  lemma AppendKeepsUnique(cs: seq<Comment>, created: Comment)
    requires UniqueIds(cs)
    ensures UniqueIds(Append(cs, created)) <==> !HasId(cs, created.id)
  {
    var r := Append(cs, created);
    if HasId(cs, created.id) {
      var k :| 0 <= k < |cs| && cs[k].id == created.id;
      assert r[k].id == r[|cs|].id;
    }
  }

  /** The edit form is rendered under every entry whose id is the marker. */
  predicate ShowsEditForm(editingId: Option<CommentId>, c: Comment) {
    editingId == Some(c.id)
  }

  /** With unique ids at most one entry shows its edit form. */
  lemma AtMostOneEditForm(cs: seq<Comment>, editingId: Option<CommentId>, i: nat, j: nat)
    requires UniqueIds(cs)
    requires i < |cs| && j < |cs|
    requires ShowsEditForm(editingId, cs[i]) && ShowsEditForm(editingId, cs[j])
    ensures i == j
  {
  }

  /** The name shown for a comment: its author, or "Anonymous" when the
      author is null or empty. */
  function DisplayAuthor(c: Comment): (name: string)
    ensures name != []
    ensures c.author.Some? && c.author.value != [] ==> name == c.author.value
    ensures !(c.author.Some? && c.author.value != []) ==> name == "Anonymous"
  {
    if c.author.Some? && c.author.value != [] then c.author.value else "Anonymous"
  }
}
