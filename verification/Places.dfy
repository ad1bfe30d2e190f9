/** Places in an operation tree: which input to take at each operator on the way down. */
module Places {
  import opened Algebra

  function Children(op: Op): seq<Op> {
    match op
    case Join(inputs) => inputs
    case Union(inputs) => inputs
    case Other(_, inputs) => inputs
    case LeftJoin(l, r, _) => [l, r]
    case Filter(input, _) => [input]
    case Extend(input, _, _) => [input]
    case Project(input, _) => [input]
    case _ => []
  }

  function WithChild(op: Op, i: nat, child: Op): Op
    requires i < |Children(op)|
  {
    match op
    case Join(inputs) => Join(inputs[i := child])
    case Union(inputs) => Union(inputs[i := child])
    case Other(kind, inputs) => Other(kind, inputs[i := child])
    case LeftJoin(l, r, cond) => if i == 0 then LeftJoin(child, r, cond) else LeftJoin(l, child, cond)
    case Filter(_, e) => Filter(child, e)
    case Extend(_, v, e) => Extend(child, v, e)
    case Project(_, keep) => Project(child, keep)
    case _ => op
  }

  lemma ChildSmaller(op: Op, i: nat)
    requires i < |Children(op)|
    ensures Children(op)[i] < op
  {
  }

  function At(op: Op, place: seq<nat>): Op
    decreases |place|
  {
    if place == [] || place[0] >= |Children(op)| then op else At(Children(op)[place[0]], place[1..])
  }

  function Put(op: Op, place: seq<nat>, sub: Op): Op
    decreases |place|
  {
    if place == [] then sub
    else if place[0] >= |Children(op)| then op
    else WithChild(op, place[0], Put(Children(op)[place[0]], place[1..], sub))
  }
}
