/** The stored entities of the question board and the two table operations
    the request handlers rely on: primary-key lookup (what `get_object_or_404`
    and `answer_set.get(pk=...)` do) and key assignment when a form saves a
    new row. A table is a sequence of rows whose primary keys are distinct. */
module Entities {

  datatype Option<+T> = None | Some(value: T)

  /** Primary key of the user model. */
  type UserId = nat

  datatype Question = Question(text: string, pubDate: int)
  datatype Answer = Answer(text: string, votes: nat, question: nat)
  datatype Comment = Comment(text: string, answer: nat)

  /** One stored row: its primary key, its owning user (the `user` foreign
      key every entity carries) and the remaining columns. */
  datatype Row<T> = Row(id: nat, owner: UserId, fields: T)

  /** No two rows of a table share a primary key. */
  predicate Keyed<T>(t: seq<Row<T>>) {
    forall i, j :: 0 <= i < j < |t| ==> t[i].id != t[j].id
  }

  predicate HasId<T>(t: seq<Row<T>>, id: int) {
    exists i :: 0 <= i < |t| && t[i].id == id
  }

  /** Position of the row whose primary key is `id`, or None when no row has it. */
  function Find<T>(t: seq<Row<T>>, id: int): (r: Option<nat>)
    ensures r.Some? ==> r.value < |t| && t[r.value].id == id
    ensures r.None? <==> !HasId(t, id)
  {
    if |t| == 0 then None
    else if t[|t| - 1].id == id then Some(|t| - 1)
    else Find(t[..|t| - 1], id)
  }

  /** In a keyed table the lookup lands on the one row carrying the key. */
  lemma FindUnique<T>(t: seq<Row<T>>, i: nat, id: int)
    requires Keyed(t) && i < |t| && t[i].id == id
    ensures Find(t, id) == Some(i)
  {
  }

  /** The key the store gives a newly saved row: larger than every key in use. */
  function NextId<T>(t: seq<Row<T>>): (r: nat)
    ensures r >= 1
    ensures forall i :: 0 <= i < |t| ==> t[i].id < r
  {
    if |t| == 0 then 1
    else
      var m := NextId(t[..|t| - 1]);
      if t[|t| - 1].id < m then m else t[|t| - 1].id + 1
  }

  /** Saving a new row under `NextId` keeps the keys distinct and makes the
      row reachable by its key. */
  lemma {:induction false} InsertKeyed<T>(t: seq<Row<T>>, row: Row<T>)
    requires Keyed(t)
    ensures Keyed(t + [row.(id := NextId(t))])
    ensures Find(t + [row.(id := NextId(t))], NextId(t)) == Some(|t|)
  {
    var t' := t + [row.(id := NextId(t))];
    forall i, j | 0 <= i < j < |t'| ensures t'[i].id != t'[j].id {
      if j == |t| {
        assert t'[i] == t[i];
      } else {
        assert t'[i] == t[i] && t'[j] == t[j];
      }
    }
    FindUnique(t', |t|, NextId(t));
  }
}
