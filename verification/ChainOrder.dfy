/** Editing the order of a model chain. */
module ChainOrder {
  import opened Sequences
  import opened Text

  datatype Action = Remove | Shift(delta: int) | Primary | Append

  /** `ids.index(id)`. */
  function IndexOf(ids: seq<int>, id: int): (i: nat)
    requires id in ids
    ensures i < |ids| && ids[i] == id && id !in ids[..i]
  {
    if ids[0] == id then 0
    else
      assert ids == [ids[0]] + ids[1..];
      var i := IndexOf(ids[1..], id);
      assert ids[..i + 1] == [ids[0]] + ids[1..][..i];
      i + 1
  }

  function Without(ids: seq<int>, id: int): seq<int> {
    if ids == [] then [] else (if ids[0] == id then [] else [ids[0]]) + Without(ids[1..], id)
  }

  function Popped(ids: seq<int>, i: nat): seq<int>
    requires i < |ids|
  {
    ids[..i] + ids[i + 1..]
  }

  function Inserted(ids: seq<int>, i: nat, id: int): seq<int>
    requires i <= |ids|
  {
    ids[..i] + [id] + ids[i..]
  }

  function Clamped(x: int, n: nat): (t: nat)
    requires n > 0
    ensures t < n
  {
    if x < 0 then 0 else if x > n - 1 then n - 1 else x
  }

  /** `chain_order`. */
  method Reorder(ids: seq<int>, action: Action, id: int) returns (ordered: Result<seq<int>>)
    ensures ordered == Reordered(ids, action, id)
  {
    if (action.Remove? || action.Shift?) && id !in ids {
      return Err;
    }
    var list := ids;
    match action {
      case Remove =>
        list := Popped(list, IndexOf(list, id));
      case Shift(delta) =>
        var index := IndexOf(list, id);
        var target := Clamped(index + delta, |list|);
        list := Popped(list, index);
        list := Inserted(list, target, id);
      case Primary =>
        list := [id] + Without(list, id);
      case Append =>
        if id !in list {
          list := list + [id];
        }
    }
    return Ok(list);
  }

  function Reordered(ids: seq<int>, action: Action, id: int): Result<seq<int>> {
    match action
    case Remove => if id in ids then Ok(Popped(ids, IndexOf(ids, id))) else Err
    case Shift(delta) =>
      if id !in ids then Err
      else
        var i := IndexOf(ids, id);
        Ok(Inserted(Popped(ids, i), Clamped(i + delta, |ids|), id))
    case Primary => Ok([id] + Without(ids, id))
    case Append => Ok(if id in ids then ids else ids + [id])
  }

  lemma {:induction false} WithoutSum(a: seq<int>, b: seq<int>, id: int)
    ensures Without(a + b, id) == Without(a, id) + Without(b, id)
  {
    if a == [] {
      assert a + b == b;
    } else {
      WithoutSum(a[1..], b, id);
      assert (a + b)[1..] == a[1..] + b && (a + b)[0] == a[0];
      Assoc(if a[0] == id then [] else [a[0]], Without(a[1..], id), Without(b, id));
    }
  }

  lemma {:induction false} WithoutExactly(ids: seq<int>, id: int, x: int)
    ensures x in Without(ids, id) <==> x in ids && x != id
    ensures id !in ids ==> Without(ids, id) == ids
    ensures Distinct(ids) ==> Distinct(Without(ids, id))
  {
    if ids != [] {
      WithoutExactly(ids[1..], id, x);
      WithoutExactly(ids[1..], id, ids[0]);
      assert ids == [ids[0]] + ids[1..];
      if Distinct(ids) {
        assert Distinct(ids[1..]);
        assert ids[0] !in ids[1..];
      }
    }
  }

  lemma WithoutAround(a: seq<int>, id: int, b: seq<int>)
    requires id !in a && id !in b
    ensures Without(a + [id] + b, id) == a + b
  {
    Assoc(a, [id], b);
    WithoutSum(a, [id] + b, id);
    WithoutHead(id, b);
    WithoutExactly(a, id, id);
    WithoutExactly(b, id, id);
  }

  lemma WithoutHead(id: int, b: seq<int>)
    ensures Without([id] + b, id) == Without(b, id)
  {
    assert ([id] + b)[1..] == b;
  }

  lemma PoppedIsWithout(ids: seq<int>, id: int)
    requires id in ids && Distinct(ids)
    ensures Popped(ids, IndexOf(ids, id)) == Without(ids, id)
  {
    var i := IndexOf(ids, id);
    assert ids == ids[..i] + [id] + ids[i + 1..];
    WithoutAround(ids[..i], id, ids[i + 1..]);
  }

  lemma InsertedIs(rest: seq<int>, t: nat, id: int)
    requires t <= |rest| && id !in rest && Distinct(rest)
    ensures var r := Inserted(rest, t, id);
            && Distinct(r) && |r| == |rest| + 1 && id in r && IndexOf(r, id) == t
            && Without(r, id) == rest && Popped(r, t) == rest
  {
    var r := Inserted(rest, t, id);
    assert r[t] == id;
    assert forall k | 0 <= k < |r| :: r[k] == if k < t then rest[k] else if k == t then id else rest[k - 1];
    var i := IndexOf(r, id);
    assert i == t;
    PoppedIsWithout(r, id);
  }

  lemma ShiftMoves(ids: seq<int>, id: int, delta: int)
    requires Distinct(ids) && id in ids
    ensures var target := Clamped(IndexOf(ids, id) + delta, |ids|);
            var r := Reordered(ids, Shift(delta), id).value;
            && |Without(ids, id)| == |ids| - 1
            && r == Inserted(Without(ids, id), target, id)
            && Distinct(r) && |r| == |ids| && id in r && IndexOf(r, id) == target
            && Without(r, id) == Without(ids, id)
  {
    PoppedIsWithout(ids, id);
    WithoutExactly(ids, id, id);
    InsertedIs(Without(ids, id), Clamped(IndexOf(ids, id) + delta, |ids|), id);
  }

  /** What every action promises: no repeats, the named model where the action puts it, and all the other
      models in the order they had. */
  predicate Keeps(ids: seq<int>, action: Action, id: int, r: seq<int>) {
    && Distinct(r)
    && (id in r <==> !action.Remove?)
    && (action.Primary? ==> r[0] == id)
    && (action.Append? ==> ids <= r)
    && (action.Shift? ==> |r| == |ids| > 0 && r[Clamped(IndexIn(ids, id) + action.delta, |ids|)] == id)
    && Without(r, id) == Without(ids, id)
  }

  function IndexIn(ids: seq<int>, id: int): int {
    if id in ids then IndexOf(ids, id) else -1
  }

  /** A chain without repeats keeps that way, and each action adds or takes away the one model it names. */
  lemma ReorderingKeepsTheRest(ids: seq<int>, action: Action, id: int)
    requires Distinct(ids) && Reordered(ids, action, id).Ok?
    ensures Keeps(ids, action, id, Reordered(ids, action, id).value)
  {
    match action {
      case Remove =>
        RemoveMoves(ids, id);
      case Shift(delta) =>
        ShiftKeeps(ids, id, delta);
      case Primary =>
        PrimaryMoves(ids, id);
      case Append =>
        AppendKeeps(ids, id);
    }
  }

  lemma ShiftKeeps(ids: seq<int>, id: int, delta: int)
    requires Distinct(ids) && id in ids
    ensures Keeps(ids, Shift(delta), id, Reordered(ids, Shift(delta), id).value)
  {
    ShiftMoves(ids, id, delta);
  }

  lemma AppendKeeps(ids: seq<int>, id: int)
    requires Distinct(ids)
    ensures Keeps(ids, Append, id, Reordered(ids, Append, id).value)
  {
    if id !in ids {
      AppendMoves(ids, id);
    }
  }

  lemma RemoveMoves(ids: seq<int>, id: int)
    requires Distinct(ids) && id in ids
    ensures var r := Popped(ids, IndexOf(ids, id));
            Distinct(r) && id !in r && Without(r, id) == Without(ids, id)
  {
    PoppedIsWithout(ids, id);
    WithoutExactly(ids, id, id);
    WithoutExactly(Without(ids, id), id, id);
  }

  lemma PrimaryMoves(ids: seq<int>, id: int)
    requires Distinct(ids)
    ensures var r := [id] + Without(ids, id);
            Distinct(r) && Without(r, id) == Without(ids, id)
  {
    WithoutExactly(ids, id, id);
    InsertedIs(Without(ids, id), 0, id);
    assert [id] + Without(ids, id) == Inserted(Without(ids, id), 0, id);
  }

  lemma AppendMoves(ids: seq<int>, id: int)
    requires Distinct(ids) && id !in ids
    ensures var r := ids + [id];
            && Distinct(r) && Without(r, id) == Without(ids, id) == ids && IndexOf(r, id) == |ids|
            && Popped(r, |ids|) == ids
  {
    InsertedLast(ids, id);
    InsertedIs(ids, |ids|, id);
    WithoutExactly(ids, id, id);
  }

  lemma InsertedLast(ids: seq<int>, id: int)
    ensures Inserted(ids, |ids|, id) == ids + [id]
  {}

  /** A shift that the ends do not cut short is undone by the opposite shift. */
  lemma ShiftIsUndone(ids: seq<int>, id: int, delta: int)
    requires Distinct(ids) && id in ids && 0 <= IndexOf(ids, id) + delta < |ids|
    ensures Reordered(Reordered(ids, Shift(delta), id).value, Shift(-delta), id) == Ok(ids)
  {
    ShiftMoves(ids, id, delta);
    ShiftedBack(ids, Reordered(ids, Shift(delta), id).value, id, delta);
  }

  lemma ShiftedBack(ids: seq<int>, r: seq<int>, id: int, delta: int)
    requires Distinct(ids) && id in ids && Distinct(r) && id in r && |r| == |ids|
    requires IndexOf(r, id) == IndexOf(ids, id) + delta && Without(r, id) == Without(ids, id)
    ensures Reordered(r, Shift(-delta), id) == Ok(ids)
  {
    PoppedIsWithout(ids, id);
    PoppedIsWithout(r, id);
    PutBack(ids, IndexOf(ids, id));
  }

  lemma PutBack(ids: seq<int>, i: nat)
    requires i < |ids|
    ensures Inserted(Popped(ids, i), i, ids[i]) == ids
  {}

  /** An appended model is taken away again by its removal. */
  lemma AppendIsUndone(ids: seq<int>, id: int)
    requires Distinct(ids) && id !in ids
    ensures Reordered(Reordered(ids, Append, id).value, Remove, id) == Ok(ids)
  {
    AppendMoves(ids, id);
  }
}
