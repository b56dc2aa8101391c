/**
 * 2023 day 8: a network of three-letter nodes, each with a left and a right
 * successor, walked by a cyclic string of L/R instructions. Part 1 counts
 * the steps from AAA to ZZZ; part 2 takes every node ending in A, counts
 * its steps to the first node ending in Z, and combines the counts by lcm.
 */
module Day8 {
  import opened Wrappers
  import opened Lcm

  type Name = s: string | |s| == 3 witness "AAA"

  datatype Directions = Directions(left: Name, right: Name)

  /** The instruction string, the node table, and its keys in insertion order. */
  datatype Network = Network(steps: string, nodes: map<Name, Directions>, order: seq<Name>)

  datatype Failure =
    | NoInput                     // `input[0]` on an empty input
    | MalformedNode(line: nat)    // a node line too short for `slice(12..14)`
    | MissingNode(name: Name)     // `nodes[currentNode]!!`
    | NoInstructions              // `stepsTaken % steps.size` with no instructions
    | InvalidDirection(c: char)   // neither 'L' nor 'R'
    | OutOfFuel                   // the walk has not ended within the step bound

  // ---------------------------------------------------------------------------
  // Parsing

  const SpecLength := 15

  predicate WellFormed(specs: seq<string>) {
    forall i :: 0 <= i < |specs| ==> |specs[i]| >= SpecLength
  }

  /** `slice(0..2)` */
  function NameOf(spec: string): Name
    requires |spec| >= SpecLength
  {
    spec[0..3]
  }

  /** `slice(7..9)` and `slice(12..14)` */
  function DirectionsOf(spec: string): Directions
    requires |spec| >= SpecLength
  {
    Directions(spec[7..10], spec[12..15])
  }

  /** `input.slice(2..<input.size)` */
  function NodeSpecs(input: seq<string>): seq<string> {
    if |input| <= 2 then [] else input[2..]
  }

  /** `buildMap { put(name, directions) }`: a later spec replaces an earlier one. */
  function Table(specs: seq<string>): map<Name, Directions>
    requires WellFormed(specs)
  {
    if |specs| == 0 then map[]
    else
      var last := specs[|specs| - 1];
      Table(specs[..|specs| - 1])[NameOf(last) := DirectionsOf(last)]
  }

  /** The key order of the map: a name is placed when it is first put. */
  function KeyOrder(specs: seq<string>): seq<Name>
    requires WellFormed(specs)
  {
    if |specs| == 0 then []
    else
      var prev := KeyOrder(specs[..|specs| - 1]);
      var name := NameOf(specs[|specs| - 1]);
      if name in prev then prev else prev + [name]
  }

  /** The first node line, from line 2 on, that is too short. */
  function FirstMalformed(input: seq<string>, from: nat): (r: Option<nat>)
    decreases |input| - from
    ensures r.Some? ==> from <= r.value < |input| && |input[r.value]| < SpecLength
    ensures r.Some? ==> forall j :: from <= j < r.value ==> |input[j]| >= SpecLength
    ensures r.None? ==> forall j :: from <= j < |input| ==> |input[j]| >= SpecLength
  {
    if from >= |input| then None
    else if |input[from]| < SpecLength then Some(from)
    else FirstMalformed(input, from + 1)
  }

  lemma {:induction false} FirstMalformedIs(input: seq<string>, from: nat, i: nat)
    requires from <= i < |input| && |input[i]| < SpecLength
    requires forall j :: from <= j < i ==> |input[j]| >= SpecLength
    decreases i - from
    ensures FirstMalformed(input, from) == Some(i)
  {
    if from < i {
      FirstMalformedIs(input, from + 1, i);
    }
  }

  /** The network an input describes, or why reading it fails. */
  function Parse(input: seq<string>): (r: Result<Network, Failure>)
    ensures r == Err(NoInput) <==> |input| == 0
    ensures r.Ok? ==> WellFormed(NodeSpecs(input)) && r.value.steps == input[0]
    ensures r.Err? && r.error.MalformedNode? ==>
      && 2 <= r.error.line < |input| && |input[r.error.line]| < SpecLength
      && forall j :: 2 <= j < r.error.line ==> |input[j]| >= SpecLength
    ensures |input| > 0 ==> (r.Ok? <==> forall j :: 2 <= j < |input| ==> |input[j]| >= SpecLength)
    ensures r.Err? ==> r.error.NoInput? || r.error.MalformedNode?
  {
    if |input| == 0 then Err(NoInput)
    else
      match FirstMalformed(input, 2)
      case Some(i) => Err(MalformedNode(i))
      case None =>
        assert WellFormed(NodeSpecs(input)) by {
          if |input| > 2 {
            assert forall k :: 0 <= k < |input| - 2 ==> NodeSpecs(input)[k] == input[k + 2];
          }
        }
        Ok(Network(input[0], Table(NodeSpecs(input)), KeyOrder(NodeSpecs(input))))
  }

  /** The instruction line and the node lines, read the way `solvePart1` and `solvePart2` do. */
  method ParseNetwork(input: seq<string>) returns (r: Result<Network, Failure>)
    ensures r == Parse(input)
  {
    if |input| == 0 {
      return Err(NoInput);
    }
    var steps := input[0];
    var specs := NodeSpecs(input);
    var nodes: map<Name, Directions> := map[];
    var order: seq<Name> := [];
    var i := 0;
    while i < |specs|
      invariant 0 <= i <= |specs|
      invariant WellFormed(specs[..i])
      invariant nodes == Table(specs[..i]) && order == KeyOrder(specs[..i])
      invariant forall n :: n in order <==> n in nodes
    {
      var spec := specs[i];
      if |spec| < SpecLength {
        assert forall j :: 2 <= j < i + 2 ==> input[j] == specs[..i][j - 2];
        FirstMalformedIs(input, 2, i + 2);
        return Err(MalformedNode(i + 2));
      }
      var name := NameOf(spec);
      if name !in nodes {
        order := order + [name];
      }
      nodes := nodes[name := DirectionsOf(spec)];
      assert specs[..i + 1][..i] == specs[..i];
      i := i + 1;
    }
    assert specs[..i] == specs;
    assert forall j :: 2 <= j < |input| ==> input[j] == specs[j - 2];
    return Ok(Network(steps, nodes, order));
  }

  /** The table holds exactly the names of the node lines. */
  lemma {:induction false} TableKeys(specs: seq<string>)
    requires WellFormed(specs)
    ensures forall n :: n in Table(specs) <==> exists i :: 0 <= i < |specs| && NameOf(specs[i]) == n
    ensures forall n :: n in KeyOrder(specs) <==> n in Table(specs)
  {
    if |specs| > 0 {
      var init := specs[..|specs| - 1];
      TableKeys(init);
      assert forall i :: 0 <= i < |init| ==> init[i] == specs[i];
    }
  }

  /** A name's directions are those of its last node line. */
  lemma {:induction false} TableLastWins(specs: seq<string>, i: nat)
    requires WellFormed(specs) && i < |specs|
    requires forall j :: i < j < |specs| ==> NameOf(specs[j]) != NameOf(specs[i])
    ensures NameOf(specs[i]) in Table(specs) && Table(specs)[NameOf(specs[i])] == DirectionsOf(specs[i])
  {
    var n := |specs| - 1;
    if i < n {
      var init := specs[..n];
      assert forall j :: i < j < |init| ==> init[j] == specs[j];
      TableLastWins(init, i);
    }
  }

  /** Every key appears once in the key order. */
  lemma {:induction false} KeyOrderDistinct(specs: seq<string>)
    requires WellFormed(specs)
    ensures forall p, q :: 0 <= p < q < |KeyOrder(specs)| ==> KeyOrder(specs)[p] != KeyOrder(specs)[q]
  {
    if |specs| > 0 {
      KeyOrderDistinct(specs[..|specs| - 1]);
    }
  }

  // ---------------------------------------------------------------------------
  // Walking

  /** Where a walk ends: at one node (part 1) or at any node with a given last letter (part 2). */
  datatype Goal = Exactly(target: Name) | EndsWith(c: char)

  predicate Reached(g: Goal, node: Name) {
    match g
    case Exactly(target) => node == target
    case EndsWith(c) => node[2] == c
  }

  /** One step from `node` with instruction number `k`, in the order the loop body fails. */
  function StepFrom(net: Network, node: Name, k: nat): (r: Result<Name, Failure>)
    ensures r.Ok? ==> node in net.nodes && |net.steps| > 0
    ensures r.Ok? && net.steps[k % |net.steps|] == 'L' ==> r.value == net.nodes[node].left
    ensures r.Ok? && net.steps[k % |net.steps|] == 'R' ==> r.value == net.nodes[node].right
    ensures r.Err? ==> (r.error == MissingNode(node) <==> node !in net.nodes)
    ensures r.Err? && node in net.nodes ==> (r.error == NoInstructions <==> |net.steps| == 0)
    ensures |net.steps| > 0 && r.Err? && node in net.nodes ==>
      r.error == InvalidDirection(net.steps[k % |net.steps|]) && net.steps[k % |net.steps|] !in "LR"
  {
    if node !in net.nodes then Err(MissingNode(node))
    else if |net.steps| == 0 then Err(NoInstructions)
    else
      var c := net.steps[k % |net.steps|];
      if c == 'L' then Ok(net.nodes[node].left)
      else if c == 'R' then Ok(net.nodes[node].right)
      else Err(InvalidDirection(c))
  }

  lemma {:induction false} MulAtLeast(d: nat, n: nat)
    requires d >= 1
    ensures d * n >= n
  {
    if d > 1 {
      MulAtLeast(d - 1, n);
      assert d * n == (d - 1) * n + n;
    }
  }

  /** The remainder is the one `r < n` with `a == q * n + r`. */
  lemma ModUnique(a: nat, n: nat, q: nat, r: nat)
    requires n > 0 && r < n && a == q * n + r
    ensures a % n == r
  {
    var q', r' := a / n, a % n;
    assert a == q' * n + r';
    if q > q' {
      MulAtLeast(q - q', n);
    } else if q' > q {
      MulAtLeast(q' - q, n);
    }
  }

  /**
   * `stepsTaken % steps.size` runs through the instructions cyclically:
   * step `k + |steps|` reads the same instruction as step `k`.
   */
  lemma InstructionsCycle(net: Network, node: Name, k: nat)
    requires |net.steps| > 0
    ensures StepFrom(net, node, k + |net.steps|) == StepFrom(net, node, k)
  {
    var n := |net.steps|;
    var q, r := k / n, k % n;
    assert k + n == (q + 1) * n + r;
    ModUnique(k + n, n, q + 1, r);
  }

  /** The node reached after `k` steps from `start`, ignoring any goal. */
  function Position(net: Network, start: Name, k: nat): Result<Name, Failure> {
    if k == 0 then Ok(start)
    else
      match Position(net, start, k - 1)
      case Err(e) => Err(e)
      case Ok(node) => StepFrom(net, node, k - 1)
  }

  /** None of the first `n` positions is a failure or the goal. */
  ghost predicate ClearBefore(net: Network, start: Name, goal: Goal, n: nat) {
    forall j :: 0 <= j < n ==> Position(net, start, j).Ok? && !Reached(goal, Position(net, start, j).value)
  }

  /** The walk reaches the goal for the first time after `n` steps. */
  ghost predicate Arrival(net: Network, start: Name, goal: Goal, n: nat) {
    && ClearBefore(net, start, goal, n)
    && Position(net, start, n).Ok? && Reached(goal, Position(net, start, n).value)
  }

  /** The walk fails with `f`, or is still under way after `fuel` steps. */
  ghost predicate WalkFails(net: Network, start: Name, goal: Goal, fuel: nat, f: Failure) {
    if f == OutOfFuel then ClearBefore(net, start, goal, fuel + 1)
    else exists m: nat :: 0 < m <= fuel && ClearBefore(net, start, goal, m) && Position(net, start, m) == Err(f)
  }

  datatype Walked = Arrived(steps: nat) | Stopped(at: nat, failure: Failure) | Exhausted

  /** The `while` loop of both parts, taking at most `fuel` steps. */
  method Walk(net: Network, start: Name, goal: Goal, fuel: nat) returns (w: Walked)
    ensures w.Arrived? ==> w.steps <= fuel && Arrival(net, start, goal, w.steps)
    ensures w.Stopped? ==>
      && w.at < fuel && ClearBefore(net, start, goal, w.at + 1)
      && Position(net, start, w.at + 1) == Err(w.failure) && w.failure != OutOfFuel
    ensures w.Exhausted? ==> ClearBefore(net, start, goal, fuel + 1)
  {
    var current := start;
    var taken := 0;
    while !Reached(goal, current)
      invariant taken <= fuel
      invariant Position(net, start, taken) == Ok(current)
      invariant ClearBefore(net, start, goal, taken)
      decreases fuel - taken
    {
      if taken == fuel {
        return Exhausted;
      }
      if current !in net.nodes {
        return Stopped(taken, MissingNode(current));
      }
      var directions := net.nodes[current];
      if |net.steps| == 0 {
        return Stopped(taken, NoInstructions);
      }
      var c := net.steps[taken % |net.steps|];
      if c == 'L' {
        current := directions.left;
      } else if c == 'R' {
        current := directions.right;
      } else {
        return Stopped(taken, InvalidDirection(c));
      }
      taken := taken + 1;
    }
    return Arrived(taken);
  }

  /** The walk from `start` reaches `goal` at some step. */
  ghost predicate Arrives(net: Network, start: Name, goal: Goal) {
    exists n: nat :: Arrival(net, start, goal, n)
  }

  /** A walk has at most one first arrival. */
  lemma ArrivalUnique(net: Network, start: Name, goal: Goal, n: nat, m: nat)
    requires Arrival(net, start, goal, n) && Arrival(net, start, goal, m)
    ensures n == m
  {
  }

  // ---------------------------------------------------------------------------
  // The two parts

  function Outcome(w: Walked): Result<nat, Failure> {
    match w
    case Arrived(n) => Ok(n)
    case Stopped(_, f) => Err(f)
    case Exhausted => Err(OutOfFuel)
  }

  const Start: Name := "AAA"
  const Finish: Name := "ZZZ"
  const EndsInZ: Goal := EndsWith('Z')

  /** `solvePart1`, with the walk bounded by `fuel` steps. */
  method Part1(input: seq<string>, fuel: nat) returns (r: Result<nat, Failure>)
    ensures Parse(input).Err? ==> r == Err(Parse(input).error)
    ensures Parse(input).Ok? && r.Ok? ==> r.value >= 1 && Arrival(Parse(input).value, Start, Exactly(Finish), r.value)
    ensures Parse(input).Ok? && r.Err? ==> WalkFails(Parse(input).value, Start, Exactly(Finish), fuel, r.error)
  {
    var parsed := ParseNetwork(input);
    if parsed.Err? {
      return Err(parsed.error);
    }
    var w := Walk(parsed.value, Start, Exactly(Finish), fuel);
    r := Outcome(w);
  }

  /** `nodes.keys.filter { it[2] == 'A' }`, in key order. */
  function StartNodes(net: Network): (r: seq<Name>)
    ensures forall x :: x in r <==> x in net.order && x[2] == 'A'
    ensures forall x :: x in r ==> !Reached(EndsInZ, x)
    decreases |net.order|
  {
    if |net.order| == 0 then []
    else
      var rest := StartNodes(Network(net.steps, net.nodes, net.order[1..]));
      if net.order[0][2] == 'A' then [net.order[0]] + rest else rest
  }

  /** On a parsed network the starts are exactly the keys ending in A. */
  lemma StartsAreKeys(input: seq<string>)
    requires Parse(input).Ok?
    ensures forall x :: x in StartNodes(Parse(input).value) <==> x in Parse(input).value.nodes && x[2] == 'A'
  {
    TableKeys(NodeSpecs(input));
  }

  /** The `map` over the starts: each start's steps to the first node ending in Z. */
  method CycleLengths(net: Network, starts: seq<Name>, fuel: nat) returns (r: Result<seq<nat>, Failure>)
    ensures r.Ok? ==> |r.value| == |starts|
    ensures r.Ok? ==> forall i :: 0 <= i < |starts| ==> r.value[i] > 0 || Reached(EndsInZ, starts[i])
    ensures r.Ok? ==> forall i :: 0 <= i < |starts| ==> Arrival(net, starts[i], EndsInZ, r.value[i])
    ensures r.Err? ==>
      exists i :: && 0 <= i < |starts| && WalkFails(net, starts[i], EndsInZ, fuel, r.error)
                  && EveryStartArrives(net, starts[..i])
  {
    var lengths: seq<nat> := [];
    var i := 0;
    while i < |starts|
      invariant 0 <= i <= |starts| && |lengths| == i
      invariant forall j :: 0 <= j < i ==> Arrival(net, starts[j], EndsInZ, lengths[j])
      invariant forall j :: 0 <= j < i ==> lengths[j] > 0 || Reached(EndsInZ, starts[j])
    {
      var w := Walk(net, starts[i], EndsInZ, fuel);
      if !w.Arrived? {
        ArrivalsWitnessed(net, starts[..i], lengths);
        return Err(Outcome(w).error);
      }
      assert w.steps == 0 ==> Position(net, starts[i], 0) == Ok(starts[i]);
      lengths := lengths + [w.steps];
      i := i + 1;
    }
    return Ok(lengths);
  }

  /** Every start reaches a node ending in Z. */
  ghost predicate EveryStartArrives(net: Network, starts: seq<Name>) {
    forall i :: 0 <= i < |starts| ==> Arrives(net, starts[i], EndsInZ)
  }

  /** Arrival steps for each start witness that every start arrives. */
  lemma ArrivalsWitnessed(net: Network, starts: seq<Name>, steps: seq<nat>)
    requires |steps| == |starts|
    requires forall i :: 0 <= i < |starts| ==> Arrival(net, starts[i], EndsInZ, steps[i])
    ensures EveryStartArrives(net, starts)
  {
    forall i | 0 <= i < |starts|
      ensures Arrives(net, starts[i], EndsInZ)
    {
      var n := steps[i];
      assert Arrival(net, starts[i], EndsInZ, n);
    }
  }

  /** `m` is a multiple of every start's first-arrival count. */
  ghost predicate CommonMultiple(net: Network, starts: seq<Name>, m: nat) {
    forall i, n: nat :: 0 <= i < |starts| && Arrival(net, starts[i], EndsInZ, n) ==> Divides(n, m)
  }

  /** `solvePart2`, with every walk bounded by `fuel` steps. */
  method Part2(input: seq<string>, fuel: nat) returns (r: Result<nat, Failure>)
    ensures Parse(input).Err? ==> r == Err(Parse(input).error)
    ensures Parse(input).Ok? && r.Ok? ==>
      var net := Parse(input).value;
      var starts := StartNodes(net);
      && r.value >= 1
      && (|starts| == 0 ==> r.value == 1)
      && EveryStartArrives(net, starts)
      && CommonMultiple(net, starts, r.value)
      && forall m: nat :: CommonMultiple(net, starts, m) ==> Divides(r.value, m)
    ensures Parse(input).Ok? && r.Err? ==>
      var starts := StartNodes(Parse(input).value);
      exists i :: && 0 <= i < |starts|
                  && WalkFails(Parse(input).value, starts[i], EndsInZ, fuel, r.error)
                  && EveryStartArrives(Parse(input).value, starts[..i])
  {
    var parsed := ParseNetwork(input);
    if parsed.Err? {
      return Err(parsed.error);
    }
    var net := parsed.value;
    var starts := StartNodes(net);
    var lengths := CycleLengths(net, starts, fuel);
    if lengths.Err? {
      return Err(lengths.error);
    }
    var cycles := lengths.value;
    assert forall i :: 0 <= i < |cycles| ==> cycles[i] > 0 by {
      forall i | 0 <= i < |cycles| ensures cycles[i] > 0 {
        assert starts[i] in starts;
      }
    }
    var combined := FoldLcm(1, cycles);
    forall i, n: nat | 0 <= i < |starts| && Arrival(net, starts[i], EndsInZ, n)
      ensures Divides(n, combined)
    {
      ArrivalUnique(net, starts[i], EndsInZ, n, cycles[i]);
    }
    forall m: nat | CommonMultiple(net, starts, m)
      ensures Divides(combined, m)
    {
      forall i | 0 <= i < |cycles| ensures Divides(cycles[i], m) {
        assert Arrival(net, starts[i], EndsInZ, cycles[i]);
      }
      MultipleDivides(1, m);
      FoldLcmLeast(1, cycles, m);
    }
    ArrivalsWitnessed(net, starts, cycles);
    return Ok(combined);
  }
}
