/** Lists flattened into one vector: where each starts, and all values in a row. */
module ListsOfLists {
  import opened Values

  /** Starts are in order and inside the values. */
  predicate Sorted(starts: seq<nat>, total: nat) {
    && (forall i, j | 0 <= i <= j < |starts| :: starts[i] <= starts[j])
    && (forall i | 0 <= i < |starts| :: starts[i] <= total)
  }

  /** A list ends where the next one starts, and the last one where the values end. */
  function EndOf(starts: seq<nat>, total: nat, i: nat): (e: nat)
    requires Sorted(starts, total) && i < |starts|
    ensures starts[i] <= e <= total
  {
    if i + 1 < |starts| then starts[i + 1] else total
  }

  function ListAt<T>(starts: seq<nat>, values: seq<T>, i: nat): seq<T>
    requires Sorted(starts, |values|) && i < |starts|
  {
    values[starts[i]..EndOf(starts, |values|, i)]
  }

  /** What the flattened storage stands for. */
  function Lists<T>(starts: seq<nat>, values: seq<T>): (r: seq<seq<T>>)
    requires Sorted(starts, |values|)
    ensures |r| == |starts|
    ensures forall i | 0 <= i < |r| :: r[i] == ListAt(starts, values, i)
  {
    seq(|starts|, i requires 0 <= i < |starts| => ListAt(starts, values, i))
  }

  /** Closing a list behind the old values adds it and moves none of the others. */
  lemma ListAdded<T>(starts: seq<nat>, before: seq<T>, list: seq<T>)
    requires Sorted(starts, |before|)
    ensures Sorted(starts + [|before|], |before + list|)
    ensures Lists(starts + [|before|], before + list) == Lists(starts, before) + [list]
  {
    var starts', values := starts + [|before|], before + list;
    forall i | 0 <= i < |starts'| ensures ListAt(starts', values, i) == (Lists(starts, before) + [list])[i] {
      if i < |starts| {
        assert starts'[i] == starts[i] && EndOf(starts', |values|, i) == EndOf(starts, |before|, i);
        assert values[starts[i]..EndOf(starts, |before|, i)] == before[starts[i]..EndOf(starts, |before|, i)];
      } else {
        assert values[|before|..] == list;
      }
    }
  }

  /** Taking the last list off gives back what was there before it was pushed. */
  lemma ListRemoved<T>(starts: seq<nat>, values: seq<T>)
    requires Sorted(starts, |values|) && |starts| > 0
    ensures var n := |starts| - 1;
            && Sorted(starts[..n], starts[n])
            && Lists(starts[..n], values[..starts[n]]) == Lists(starts, values)[..n]
            && values[starts[n]..] == Lists(starts, values)[n]
  {
    var n := |starts| - 1;
    var starts', values' := starts[..n], values[..starts[n]];
    forall i | 0 <= i < n ensures ListAt(starts', values', i) == ListAt(starts, values, i) {
      assert EndOf(starts', |values'|, i) == EndOf(starts, |values|, i);
    }
  }

  class ListOfLists<T> {
    var starts: seq<nat>
    var values: seq<T>

    ghost predicate Valid()
      reads this
    {
      Sorted(starts, |values|) && |values| <= U32_MAX
    }

    ghost function Contents(): seq<seq<T>>
      reads this
      requires Valid()
    {
      Lists(starts, values)
    }

    constructor ()
      ensures Valid() && Contents() == []
    {
      starts := [];
      values := [];
    }

    /** What a pusher sees: the storage before it, and the elements pushed so far. */
    ghost predicate Pushing(before: seq<T>, list: seq<T>)
      reads this
    {
      values == before + list && Sorted(starts, |before|) && |before| <= U32_MAX
    }

    method Push(x: T, ghost before: seq<T>, ghost list: seq<T>)
      requires Pushing(before, list)
      modifies this`values
      ensures Pushing(before, list + [x])
    {
      values := values + [x];
      assert before + list + [x] == before + (list + [x]);
    }

    /** Ends `push_with`: records the list, and panics when the storage is over its limit. */
    method Finish(start: nat, ghost before: seq<T>, ghost list: seq<T>) returns (idx: Option<nat>)
      requires Pushing(before, list) && start == |before|
      modifies this`starts
      ensures idx.Some? <==> |before| + |list| <= U32_MAX
      ensures idx.Some? ==> idx.value == old(|starts|) && Valid()
                            && Contents() == Lists(old(starts), before) + [list]
    {
      ListAdded(starts, before, list);
      starts := starts + [start];
      idx := if |values| <= U32_MAX then Some(|starts| - 1) else None;
    }

    method PushSlice(list: seq<T>) returns (idx: Option<nat>)
      requires Valid()
      modifies this
      ensures idx.Some? <==> old(|values|) + |list| <= U32_MAX
      ensures idx.Some? ==> Valid() && idx.value == |old(Contents())| && Contents() == old(Contents()) + [list]
    {
      var start := |values|;
      ghost var before := values;
      assert before + [] == before;
      for i := 0 to |list|
        invariant Pushing(before, list[..i]) && starts == old(starts)
      {
        assert list[..i + 1] == list[..i] + [list[i]];
        Push(list[i], before, list[..i]);
      }
      assert list[..|list|] == list;
      idx := Finish(start, before, list);
    }

    method Get(i: nat) returns (list: Option<seq<T>>)
      requires Valid()
      ensures list == if i < |Contents()| then Some(Contents()[i]) else None
    {
      if i >= |starts| { return None; }
      var end := if i + 1 < |starts| then starts[i + 1] else |values|;
      list := Some(values[starts[i]..end]);
    }

    method Pop() returns (list: Option<seq<T>>)
      requires Valid()
      modifies this
      ensures Valid()
      ensures old(Contents()) == [] ==> list.None? && Contents() == []
      ensures old(Contents()) != [] ==>
                list == Some(old(Contents())[|old(Contents())| - 1]) && Contents() == old(Contents())[..|old(Contents())| - 1]
    {
      if |starts| == 0 { return None; }
      ListRemoved(starts, values);
      var start := starts[|starts| - 1];
      list := Some(values[start..]);
      starts, values := starts[..|starts| - 1], values[..start];
    }

    method Clear()
      modifies this
      ensures Valid() && Contents() == []
    {
      starts, values := [], [];
    }
  }
}
