/** Boolean operators over three truth values, errors included (section 17.2 of SPARQL 1.1 Query Language). */
module Logic {
  datatype Tri = True | False | Error

  /** `&&`: the left operand is tried first; whatever throws inside the `try` has the right operand evaluated
      (again), and only a right operand that is false hides the error. */
  function LogicalAnd(left: Tri, right: Tri): Tri {
    if left.False? then False
    else if left.True? && !right.Error? then right
    else if right.False? then False
    else Error
  }

  function LogicalOr(left: Tri, right: Tri): Tri {
    if left.True? then True
    else if left.False? && !right.Error? then right
    else if right.True? then True
    else Error
  }

  /** `X <= Y`: less-than first, its error kept aside while equality is tried. */
  function LessThanOrEqual(less: Tri, equal: Tri): Tri {
    if less.True? then True
    else if equal.True? then True
    else if equal.Error? then Error
    else if less.Error? then Error
    else False
  }

  /** `IN`: the outcomes of the equality tests against the remaining list, with the earlier misses and errors
      collected in `results` (true marks an error). */
  function InRecursive(tests: seq<Tri>, results: seq<bool>): Tri {
    if |tests| == 0 then
      if forall k :: 0 <= k < |results| ==> !results[k] then False else Error
    else match tests[0]
      case True => True
      case False => InRecursive(tests[1..], results + [false])
      case Error => InRecursive(tests[1..], results + [true])
  }

  function In(left: Tri, tests: seq<Tri>): Tri {
    if left.Error? then Error else InRecursive(tests, [])
  }

  /** The truth order in which AND is the minimum and OR the maximum. */
  function Rank(t: Tri): int {
    match t case False => 0 case Error => 1 case True => 2
  }

  /** The tables of section 17.2, with error between false and true. */
  lemma TruthTables(l: Tri, r: Tri)
    ensures Rank(LogicalAnd(l, r)) == if Rank(l) <= Rank(r) then Rank(l) else Rank(r)
    ensures Rank(LogicalOr(l, r)) == if Rank(l) <= Rank(r) then Rank(r) else Rank(l)
    ensures LessThanOrEqual(l, r) == LogicalOr(l, r)
  {
  }

  /** `e IN (e1, .., en)` stands for `e = e1 || .. || e = en` (section 17.4.1.9). */
  function OrAll(tests: seq<Tri>): Tri {
    if |tests| == 0 then False else LogicalOr(tests[0], OrAll(tests[1..]))
  }

  lemma {:induction false} InIsDisjunction(tests: seq<Tri>, results: seq<bool>)
    ensures InRecursive(tests, results) == LogicalOr(if true in results then Error else False, OrAll(tests))
  {
    if |tests| == 0 {
      if true in results { var k :| 0 <= k < |results| && results[k]; }
    } else {
      assert (results + [false])[|results|] == false && (results + [true])[|results|];
      InIsDisjunction(tests[1..], results + [false]);
      InIsDisjunction(tests[1..], results + [true]);
    }
  }

  lemma InMeansOr(left: Tri, tests: seq<Tri>)
    ensures !left.Error? ==> In(left, tests) == OrAll(tests)
    ensures left.Error? ==> In(left, tests) == Error
    ensures In(left, tests).True? <==> !left.Error? && True in tests
    ensures In(left, tests).False? <==> !left.Error? && forall t :: t in tests ==> t.False?
  {
    InIsDisjunction(tests, []);
    OrAllIs(tests);
  }

  lemma {:induction false} OrAllIs(tests: seq<Tri>)
    ensures OrAll(tests).True? <==> True in tests
    ensures OrAll(tests).False? <==> forall t :: t in tests ==> t.False?
  {
    if |tests| > 0 {
      OrAllIs(tests[1..]);
      assert forall t :: t in tests <==> t == tests[0] || t in tests[1..];
    }
  }
}
