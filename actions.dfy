/** Shared building blocks of both engines: optional values, error outcomes,
    and the Action hook whose only observable behaviour is the description
    string it returns when run. */
module Actions {

  datatype Option<+T> = None | Some(value: T)

  datatype Result<+T, +E> = Ok(value: T) | Err(error: E)

  /** A zero-argument hook. Every hook the machines declare returns a constant
      description, so an action is identified with that string. */
  datatype Action = Action(description: string)

  /** Running an action yields its description. */
  function Invoke(a: Action): string
  {
    a.description
  }

  /** The results of running `actions` in declaration order, each result
      marked with `prefix`: one string per action, the i-th belonging to the
      i-th action. */
  function Described(prefix: string, actions: seq<Action>): (r: seq<string>)
    ensures |r| == |actions|
    ensures forall i :: 0 <= i < |actions| ==> r[i] == prefix + Invoke(actions[i])
  {
    if actions == [] then []
    else [prefix + Invoke(actions[0])] + Described(prefix, actions[1..])
  }

  /** Running two action lists one after the other describes like running
      their concatenation. */
  lemma {:induction false} DescribedAppend(prefix: string, xs: seq<Action>, ys: seq<Action>)
    ensures Described(prefix, xs + ys) == Described(prefix, xs) + Described(prefix, ys)
  {
    var l, r := Described(prefix, xs + ys), Described(prefix, xs) + Described(prefix, ys);
    assert |l| == |r|;
    forall i | 0 <= i < |l| ensures l[i] == r[i] {
      if i < |xs| {
        assert (xs + ys)[i] == xs[i];
      } else {
        assert (xs + ys)[i] == ys[i - |xs|];
      }
    }
  }

  /** A single action is described by one prefixed string. */
  lemma DescribedSingle(prefix: string, a: Action)
    ensures Described(prefix, [a]) == [prefix + Invoke(a)]
  {
    assert [a][1..] == [];
  }
}
