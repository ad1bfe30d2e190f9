/** Filtering the groups of a join one by one: exactly when this is filtering the join. */
module JoinGroups {
  import opened Terms
  import opened Bags
  import opened Joins

  /** What is known of a group: the variables that all its solutions bind, and those that any of them may bind. */
  datatype Shape = Shape(must: set<string>, may: set<string>)

  ghost predicate Shaped(bags: seq<Bag>, shapes: seq<Shape>) {
    && |bags| == |shapes|
    && forall i :: 0 <= i < |bags| ==> Binds(bags[i], shapes[i].must) && Within(bags[i], shapes[i].may)
  }

  ghost function SelectEach(bags: seq<Bag>, p: Mapping -> bool): seq<Bag> {
    seq(|bags|, i requires 0 <= i < |bags| => Select(bags[i], p))
  }

  /** Whatever a group may leave open of the filter's variables is out of scope in `rest` and in all other groups. */
  predicate Closed(vars: set<string>, rest: set<string>, shapes: seq<Shape>) {
    forall i :: 0 <= i < |shapes| ==>
      && vars * rest <= shapes[i].must
      && forall j :: 0 <= j < |shapes| && j != i ==> vars * shapes[j].may <= shapes[i].must
  }

  /** One filter over the join of `x` and the groups is the same filter on each of the groups. */
  ghost predicate FiltersEach(p: Mapping -> bool, x: Bag, bags: seq<Bag>) {
    Select(JoinBag(x, JoinAll(bags)), p) == JoinBag(x, JoinAll(SelectEach(bags, p)))
  }

  // ----- closed groups can be filtered one by one -----

  function MayOf(shapes: seq<Shape>): set<string> {
    if shapes == [] then {} else shapes[0].may + MayOf(shapes[1..])
  }

  lemma {:induction false} MayOfWithin(vars: set<string>, shapes: seq<Shape>, must: set<string>)
    requires forall j :: 0 <= j < |shapes| ==> vars * shapes[j].may <= must
    ensures vars * MayOf(shapes) <= must
  {
    if shapes != [] {
      MayOfWithin(vars, shapes[1..], must);
      assert vars * shapes[0].may <= must;
    }
  }

  lemma {:induction false} JoinWithin(bags: seq<Bag>, shapes: seq<Shape>)
    requires Shaped(bags, shapes)
    ensures Within(JoinAll(bags), MayOf(shapes))
  {
    if bags == [] {
      AllNone();
    } else {
      assert Shaped(bags[1..], shapes[1..]);
      JoinWithin(bags[1..], shapes[1..]);
      AllCons(bags[0], bags[1..]);
      assert bags == [bags[0]] + bags[1..];
      JoinTyped(bags[0], {}, shapes[0].may, JoinAll(bags[1..]), {}, MayOf(shapes[1..]));
    }
  }

  lemma SelectEachShaped(bags: seq<Bag>, shapes: seq<Shape>, p: Mapping -> bool)
    requires Shaped(bags, shapes)
    ensures Shaped(SelectEach(bags, p), shapes)
  {
    forall i | 0 <= i < |bags| ensures Select(bags[i], p) <= bags[i] { SelectSub(bags[i], p); }
  }

  lemma SelectEachCons(bags: seq<Bag>, p: Mapping -> bool)
    requires bags != []
    ensures JoinAll(bags) == JoinBag(bags[0], JoinAll(bags[1..]))
    ensures JoinAll(SelectEach(bags, p)) == JoinBag(Select(bags[0], p), JoinAll(SelectEach(bags[1..], p)))
  {
    assert bags == [bags[0]] + bags[1..];
    assert SelectEach(bags, p) == [Select(bags[0], p)] + SelectEach(bags[1..], p);
    AllCons(bags[0], bags[1..]);
    AllCons(Select(bags[0], p), SelectEach(bags[1..], p));
  }

  lemma TailClosed(vars: set<string>, rest: set<string>, shapes: seq<Shape>)
    requires Closed(vars, rest, shapes) && shapes != []
    ensures Closed(vars, rest + shapes[0].may, shapes[1..])
    ensures vars * (rest + MayOf(shapes[1..])) <= shapes[0].must
  {
    forall i | 0 <= i < |shapes| - 1
      ensures vars * (rest + shapes[0].may) <= shapes[1..][i].must
      ensures vars * shapes[1..][i].may <= shapes[0].must
    {
      assert vars * shapes[0].may <= shapes[i + 1].must;
    }
    MayOfWithin(vars, shapes[1..], shapes[0].must);
  }

  /** The heart of the join case. */
  lemma {:induction false} ClosedFilters(
    vars: set<string>, rest: set<string>, shapes: seq<Shape>, p: Mapping -> bool, x: Bag, bags: seq<Bag>)
    requires ReadsOnly(p, vars) && Within(x, rest) && Shaped(bags, shapes) && shapes != []
    requires Closed(vars, rest, shapes)
    ensures FiltersEach(p, x, bags)
    decreases |shapes|
  {
    var g, tail, must := bags[0], bags[1..], shapes[0].must;
    var t, t' := JoinAll(tail), JoinAll(SelectEach(tail, p));
    TailClosed(vars, rest, shapes);
    SelectEachCons(bags, p);
    assert Shaped(tail, shapes[1..]);
    if tail == [] {
      assert SelectEach(tail, p) == [];
      AllNone();
      JoinUnit(g);
      JoinUnit(Select(g, p));
      JoinComm(x, g);
      JoinComm(x, Select(g, p));
      SelectJoin(g, x, p, vars, must, rest);
    } else {
      var may := rest + MayOf(shapes[1..]);
      JoinTyped(x, {}, rest, g, {}, shapes[0].may);
      ClosedFilters(vars, rest + shapes[0].may, shapes[1..], p, JoinBag(x, g), tail);
      SelectEachShaped(tail, shapes[1..], p);
      JoinWithin(SelectEach(tail, p), shapes[1..]);
      JoinTyped(x, {}, rest, t', {}, MayOf(shapes[1..]));
      OneByOne(g, x, t, t', p, vars, must, may);
    }
  }

  lemma OneByOne(g: Bag, x: Bag, t: Bag, t': Bag, p: Mapping -> bool, vars: set<string>, must: set<string>,
      may: set<string>)
    requires ReadsOnly(p, vars) && Binds(g, must) && Within(JoinBag(x, t'), may) && vars * may <= must
    requires Select(JoinBag(JoinBag(x, g), t), p) == JoinBag(JoinBag(x, g), t')
    ensures Select(JoinBag(x, JoinBag(g, t)), p) == JoinBag(x, JoinBag(Select(g, p), t'))
  {
    var whole := JoinBag(x, JoinBag(g, t));
    JoinRotate(x, g, t);
    JoinRotate(x, g, t');
    assert Select(whole, p) == JoinBag(g, JoinBag(x, t'));
    SelectJoin(g, JoinBag(x, t'), p, vars, must, may);
    SelectTwice(whole, p, p, p);
    JoinRotate(x, Select(g, p), t');
  }

  // ----- and only those can -----

  const A := Iri("urn:a")

  /** Every variable bound, to the same term. */
  function Row(vars: set<string>): Mapping { map x | x in vars :: A }

  lemma RowsJoin(v: set<string>, w: set<string>)
    ensures JoinBag(multiset{Row(v)}, multiset{Row(w)}) == multiset{Row(v + w)}
  {
    var r, m, n := Row(v + w), multiset{Row(v)}, multiset{Row(w)};
    assert Row(v) + Row(w) == r;
    OneJoin(Row(v), Row(w));
  }

  /** One row for each group: it binds what it must, and `v` if the group is the `j`-th. */
  function Bindings(shapes: seq<Shape>, j: int, v: string): seq<set<string>> {
    seq(|shapes|, i requires 0 <= i < |shapes| => if i == j then shapes[i].must + {v} else shapes[i].must)
  }

  ghost function RowBags(sets: seq<set<string>>): seq<Bag> {
    seq(|sets|, i requires 0 <= i < |sets| => multiset{Row(sets[i])})
  }

  function UnionSets(sets: seq<set<string>>): set<string> {
    if sets == [] then {} else sets[0] + UnionSets(sets[1..])
  }

  lemma {:induction false} RowBagsJoin(sets: seq<set<string>>)
    ensures JoinAll(RowBags(sets)) == multiset{Row(UnionSets(sets))}
  {
    if sets == [] {
      AllNone();
      assert RowBags(sets) == [] && Row({}) == map[];
    } else {
      RowBagsJoin(sets[1..]);
      assert RowBags(sets) == [multiset{Row(sets[0])}] + RowBags(sets[1..]);
      AllCons(multiset{Row(sets[0])}, RowBags(sets[1..]));
      RowsJoin(sets[0], UnionSets(sets[1..]));
    }
  }

  lemma {:induction false} UnionHas(sets: seq<set<string>>, j: int)
    requires 0 <= j < |sets|
    ensures sets[j] <= UnionSets(sets)
  {
    if j > 0 { UnionHas(sets[1..], j - 1); }
  }

  /** A join with an empty operand is empty. */
  lemma {:induction false} EmptyOperand(bags: seq<Bag>, i: int)
    requires 0 <= i < |bags| && bags[i] == multiset{}
    ensures JoinAll(bags) == multiset{}
  {
    assert bags == [bags[0]] + bags[1..];
    AllCons(bags[0], bags[1..]);
    if i == 0 {
      JoinZero(JoinAll(bags[1..]));
    } else {
      EmptyOperand(bags[1..], i - 1);
      JoinZero(bags[0]);
    }
  }

  ghost function HasVar(v: string): Mapping -> bool { m => v in m }

  /** The operand that can bind `v`: the `j`-th group, or the rest. */
  function RestVars(shapes: seq<Shape>, j: int, v: string): set<string> {
    if 0 <= j < |shapes| then {} else {v}
  }

  lemma RowsKept(shapes: seq<Shape>, v: string, j: int)
    ensures (var x, bags := multiset{Row(RestVars(shapes, j, v))}, RowBags(Bindings(shapes, j, v));
             Select(JoinBag(x, JoinAll(bags)), HasVar(v)) != multiset{})
  {
    var sets, first := Bindings(shapes, j, v), RestVars(shapes, j, v);
    RowBagsJoin(sets);
    RowsJoin(first, UnionSets(sets));
    if 0 <= j < |shapes| { UnionHas(sets, j); }
    SelectIn(multiset{Row(first + UnionSets(sets))}, HasVar(v), Row(first + UnionSets(sets)));
  }

  lemma RowsLost(x: Bag, sets: seq<set<string>>, v: string, i: int)
    requires 0 <= i < |sets| && v !in sets[i]
    ensures JoinBag(x, JoinAll(SelectEach(RowBags(sets), HasVar(v)))) == multiset{}
  {
    BindOne(Row(sets[i]), Keep(HasVar(v)));
    assert SelectEach(RowBags(sets), HasVar(v))[i] == multiset{};
    EmptyOperand(SelectEach(RowBags(sets), HasVar(v)), i);
    JoinZero(x);
  }

  /** If group `i` may leave `v` open although `rest` or group `j` can bind it, the filter that asks for `v` to be
      bound loses the only solution. */
  lemma OpenGroupLoses(shapes: seq<Shape>, v: string, i: int, j: int)
    requires 0 <= i < |shapes| && i != j && v !in shapes[i].must
    ensures !FiltersEach(HasVar(v), multiset{Row(RestVars(shapes, j, v))}, RowBags(Bindings(shapes, j, v)))
  {
    RowsKept(shapes, v, j);
    RowsLost(multiset{Row(RestVars(shapes, j, v))}, Bindings(shapes, j, v), v, i);
  }

  /** Whatever the data of these shapes and the filter on these variables, the groups can be filtered one by one. */
  ghost predicate AlwaysFiltersEach(vars: set<string>, rest: set<string>, shapes: seq<Shape>) {
    forall p, x, bags :: ReadsOnly(p, vars) && Within(x, rest) && Shaped(bags, shapes) ==> FiltersEach(p, x, bags)
  }

  lemma RowShaped(shapes: seq<Shape>, j: int, v: string)
    requires forall i :: 0 <= i < |shapes| ==> shapes[i].must <= shapes[i].may
    requires 0 <= j < |shapes| ==> v in shapes[j].may
    ensures Shaped(RowBags(Bindings(shapes, j, v)), shapes)
  {
    forall i | 0 <= i < |shapes|
      ensures Binds(RowBags(Bindings(shapes, j, v))[i], shapes[i].must)
      ensures Within(RowBags(Bindings(shapes, j, v))[i], shapes[i].may)
    {
      assert shapes[i].must <= Bindings(shapes, j, v)[i] <= shapes[i].may;
    }
  }

  lemma OpenNotAlways(vars: set<string>, rest: set<string>, shapes: seq<Shape>, i: int, j: int, v: string)
    requires forall k :: 0 <= k < |shapes| ==> shapes[k].must <= shapes[k].may
    requires 0 <= i < |shapes| && i != j && v in vars && v !in shapes[i].must
    requires if 0 <= j < |shapes| then v in shapes[j].may else v in rest
    ensures !AlwaysFiltersEach(vars, rest, shapes)
  {
    var x, bags := multiset{Row(RestVars(shapes, j, v))}, RowBags(Bindings(shapes, j, v));
    RowShaped(shapes, j, v);
    OpenGroupLoses(shapes, v, i, j);
    assert Within(x, rest) && ReadsOnly(HasVar(v), vars) && !FiltersEach(HasVar(v), x, bags);
  }

  lemma OpenGroup(vars: set<string>, rest: set<string>, shapes: seq<Shape>) returns (i: int, j: int, v: string)
    requires !Closed(vars, rest, shapes)
    ensures 0 <= i < |shapes| && i != j && v in vars && v !in shapes[i].must
    ensures if 0 <= j < |shapes| then v in shapes[j].may else v in rest
  {
    i :| 0 <= i < |shapes| && !(vars * rest <= shapes[i].must
           && forall j :: 0 <= j < |shapes| && j != i ==> vars * shapes[j].may <= shapes[i].must);
    j := -1;
    if vars * rest <= shapes[i].must {
      j :| 0 <= j < |shapes| && j != i && !(vars * shapes[j].may <= shapes[i].must);
      v :| v in vars * shapes[j].may && v !in shapes[i].must;
    } else {
      v :| v in vars * rest && v !in shapes[i].must;
    }
  }

  /** Filtering each of the groups is right for all data of these shapes and all filters on these variables exactly if
      the groups are closed. */
  lemma ClosedExactly(vars: set<string>, rest: set<string>, shapes: seq<Shape>)
    requires shapes != [] && forall i :: 0 <= i < |shapes| ==> shapes[i].must <= shapes[i].may
    ensures AlwaysFiltersEach(vars, rest, shapes) <==> Closed(vars, rest, shapes)
  {
    if Closed(vars, rest, shapes) {
      forall p, x, bags | ReadsOnly(p, vars) && Within(x, rest) && Shaped(bags, shapes)
        ensures FiltersEach(p, x, bags)
      {
        ClosedFilters(vars, rest, shapes, p, x, bags);
      }
    } else {
      var i, j, v := OpenGroup(vars, rest, shapes);
      OpenNotAlways(vars, rest, shapes, i, j, v);
    }
  }
}
