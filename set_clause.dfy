/** The meaning of the `UPDATE ... SET col = $n, ...` statements the PATCH
    handlers assemble from an `updates` list and a `values` list. */
module SetClause {
  import opened Api

  /** One `column = $placeholder` item of a SET list. */
  datatype Assignment<C> = Assignment(column: C, placeholder: nat)

  /** The placeholders are `$1, $2, ...` in list order. */
  ghost predicate Numbered<C>(updates: seq<Assignment<C>>) {
    forall j :: 0 <= j < |updates| ==> updates[j].placeholder == j + 1
  }

  /** The value the statement binds to `column` (the first assignment to
      it), or None when the SET list leaves the column alone. */
  function Assigned<C(==), V>(updates: seq<Assignment<C>>, values: seq<V>, column: C): (r: Option<V>)
    ensures r.None? <==> forall j :: 0 <= j < |updates| && updates[j].column == column ==>
                          !(1 <= updates[j].placeholder <= |values|)
  {
    if updates == [] then None
    else if updates[0].column == column && 1 <= updates[0].placeholder <= |values| then
      Some(values[updates[0].placeholder - 1])
    else Assigned(updates[1..], values, column)
  }

  /** Extending a numbered SET list by one more column: the new item takes
      the next placeholder, earlier columns keep their values, and the new
      column is bound to the pushed value. */
  lemma {:induction false} AssignedPush<C, V>(updates: seq<Assignment<C>>, values: seq<V>, column: C, v: V, other: C)
    requires Numbered(updates) && |values| == |updates|
    requires forall j :: 0 <= j < |updates| ==> updates[j].column != column
    ensures Numbered(updates + [Assignment(column, |updates| + 1)])
    ensures Assigned(updates + [Assignment(column, |updates| + 1)], values + [v], column) == Some(v)
    ensures other != column ==>
      Assigned(updates + [Assignment(column, |updates| + 1)], values + [v], other) == Assigned(updates, values, other)
  {
    AssignedShift(updates, values, [Assignment(column, |updates| + 1)], [v], 0, column);
    if other != column {
      AssignedShift(updates, values, [Assignment(column, |updates| + 1)], [v], 0, other);
    }
  }

  /** `Assigned` over a suffix of a numbered list whose values were
      extended: the prefix's bindings are unaffected. */
  lemma {:induction false} AssignedShift<C, V>(updates: seq<Assignment<C>>, values: seq<V>, extra: seq<Assignment<C>>, more: seq<V>, from: nat, c: C)
    requires Numbered(updates) && |values| == |updates|
    requires |extra| == 1 && |more| == 1 && extra[0].placeholder == |updates| + 1
    requires from <= |updates|
    ensures Assigned((updates + extra)[from..], values + more, c)
      == (match Assigned(updates[from..], values, c)
          case Some(x) => Some(x)
          case None => if extra[0].column == c then Some(more[0]) else None)
    decreases |updates| - from
  {
    var w := values + more;
    if from == |updates| {
      assert (updates + extra)[from..] == extra;
      assert updates[from..] == [];
      assert extra[1..] == [];
    } else {
      assert (updates + extra)[from..][0] == updates[from];
      assert (updates + extra)[from..][1..] == (updates + extra)[from + 1..];
      assert updates[from..][1..] == updates[from + 1..];
      assert w[updates[from].placeholder - 1] == values[updates[from].placeholder - 1];
      AssignedShift(updates, values, extra, more, from + 1, c);
    }
  }

  /** One `updates.push(...); values.push(...); idx++` step: the column
      takes the next placeholder and is bound to `v`; every other column
      keeps its binding. */
  method Push<C(==), V>(updates: seq<Assignment<C>>, values: seq<V>, idx: nat, column: C, v: V)
    returns (updates': seq<Assignment<C>>, values': seq<V>, idx': nat)
    requires Numbered(updates) && |values| == |updates| && idx == |updates| + 1
    requires Assigned(updates, values, column).None?
    ensures Numbered(updates') && |values'| == |updates'| == |updates| + 1 && idx' == |updates'| + 1
    ensures Assigned(updates', values', column) == Some(v)
    ensures forall c :: c != column ==> Assigned(updates', values', c) == Assigned(updates, values, c)
  {
    forall j | 0 <= j < |updates| ensures updates[j].column != column {
      assert 1 <= updates[j].placeholder <= |values|;
    }
    AssignedPush(updates, values, column, v, column);
    forall c | c != column
      ensures Assigned(updates + [Assignment(column, idx)], values + [v], c) == Assigned(updates, values, c)
    {
      AssignedPush(updates, values, column, v, c);
    }
    updates', values', idx' := updates + [Assignment(column, idx)], values + [v], idx + 1;
  }
}
