/**
 * The puzzle runner: for every selected day, solve part 1 and part 2, then
 * benchmark part 1 and part 2, sending each answer and each benchmark
 * figure to the results log.
 */
module Runner {
  import opened Wrappers
  import opened Selection
  import opened Benchmark

  type Part = p: int | p == 1 || p == 2 witness 1

  /** `day.PuzzleIdentity(part)` */
  datatype Puzzle = Puzzle(day: Day, part: Part)

  /** What calling a part's solver does (the same on every call). */
  datatype Solver =
    | Answers(answer: string)
    | NotImplemented            // NotImplementedError
    | NotReleased(waitMs: int)  // AocDay.DayNotReleasedException
    | Throws                    // any other exception: nothing catches it

  datatype Record =
    | RunResult(result: string, puzzle: Puzzle)
    | BenchmarkResult(averageMicros: nat, sampleCount: nat, puzzle: Puzzle)

  /** A previously verified answer; the recorded result itself may be null. */
  datatype Known = Known(result: Option<string>)

  /** The results log that answers and benchmark figures are sent to. */
  class Results {
    var sent: seq<Record>
    const verified: map<Puzzle, Known>

    constructor (verified: map<Puzzle, Known>)
      ensures sent == [] && this.verified == verified
    {
      sent := [];
      this.verified := verified;
    }

    function FindVerifiedOrNull(p: Puzzle): (r: Option<Known>)
      ensures r.Some? <==> p in verified
      ensures r.Some? ==> r.value == verified[p]
    {
      if p in verified then Some(verified[p]) else None
    }

    method Send(r: Record)
      modifies this
      ensures sent == old(sent) + [r]
    {
      sent := sent + [r];
    }
  }

  // ---------------------------------------------------------------------------
  // Solving once

  /** How a new answer is reported; a conflict shows the expected answer, "???" when it is null. */
  datatype Verdict = Conflicting(expected: string) | Verified | FirstAnswer

  datatype Skip = NotImplementedSkip | NotReleasedSkip(waitMs: int)

  /** What one phase of one part ends with. */
  datatype Outcome =
    | Solved(verdict: Verdict)
    | Benchmarked(averageMicros: nat, samples: nat)
    | Skipped(reason: Skip)
    | Crashed

  /** Comparing a new answer with the known one. */
  function Classify(known: Option<Known>, answer: string): (v: Verdict)
    ensures v.Conflicting? <==> known.Some? && known.value.result != Some(answer)
    ensures v.Verified? <==> known.Some? && known.value.result == Some(answer)
    ensures v.FirstAnswer? <==> known.None?
    ensures v.Conflicting? && known.value.result.Some? ==> v.expected == known.value.result.value
    ensures v.Conflicting? && known.value.result.None? ==> v.expected == "???"
  {
    if known.Some? then
      if known.value.result != Some(answer) then
        Conflicting(match known.value.result case Some(e) => e case None => "???")
      else Verified
    else FirstAnswer
  }

  function SkipOf(s: Solver): Skip
    requires s.NotImplemented? || s.NotReleased?
  {
    if s.NotImplemented? then NotImplementedSkip else NotReleasedSkip(s.waitMs)
  }

  /** What solving once sends: the new answer, whatever the verdict, and nothing when the solver fails. */
  function SolveRecords(p: Puzzle, s: Solver): seq<Record> {
    if s.Answers? then [RunResult(s.answer, p)] else []
  }

  /** `runResults` */
  method RunResults(results: Results, puzzle: Puzzle, solver: Solver) returns (o: Outcome)
    modifies results
    ensures results.sent == old(results.sent) + SolveRecords(puzzle, solver)
    ensures solver.Answers? ==> o == Solved(Classify(results.FindVerifiedOrNull(puzzle), solver.answer))
    ensures (solver.NotImplemented? || solver.NotReleased?) ==> o == Skipped(SkipOf(solver))
    ensures solver.Throws? ==> o == Crashed
  {
    match solver
    case Answers(answer) =>
      var known := results.FindVerifiedOrNull(puzzle);
      var verdict := Classify(known, answer);
      results.Send(RunResult(answer, puzzle));
      return Solved(verdict);
    case NotImplemented =>
      return Skipped(NotImplementedSkip);
    case NotReleased(wait) =>
      return Skipped(NotReleasedSkip(wait));
    case Throws =>
      return Crashed;
  }

  /** Exactly one record, carrying the new answer, for every answer, also a conflicting one. */
  lemma OneRecordPerAnswer(p: Puzzle, s: Solver)
    ensures |SolveRecords(p, s)| == (if s.Answers? then 1 else 0)
    ensures s.Answers? ==> SolveRecords(p, s)[0].result == s.answer
  {
  }

  // ---------------------------------------------------------------------------
  // Benchmarking

  /**
   * How benchmarking ends. With no call at all the empty window is divided
   * by zero, which nothing catches; a failing solver fails on the first call.
   */
  function BenchOutcome(s: Solver, c: Clock): (o: Outcome)
    requires Covers(c)
    ensures o.Benchmarked? ==> s.Answers? && o.samples == CallsMade(c) > 0
    ensures o.Benchmarked? ==> Average(c.callNanos[..CallsMade(c)]) == Some(o.averageMicros)
    ensures CallsMade(c) > 0 ==> (o.Benchmarked? <==> s.Answers?)
    ensures CallsMade(c) > 0 && (s.NotImplemented? || s.NotReleased?) ==> o == Skipped(SkipOf(s))
    ensures o.Crashed? <==> (CallsMade(c) == 0 || s.Throws?)
  {
    var n := CallsMade(c);
    if n == 0 then Crashed
    else
      match s
      case Answers(_) => Benchmarked(Average(c.callNanos[..n]).value, n)
      case NotImplemented => Skipped(NotImplementedSkip)
      case NotReleased(w) => Skipped(NotReleasedSkip(w))
      case Throws => Crashed
  }

  function BenchRecords(p: Puzzle, s: Solver, c: Clock): seq<Record>
    requires Covers(c)
  {
    match BenchOutcome(s, c)
    case Benchmarked(avg, n) => [BenchmarkResult(avg, n, p)]
    case _ => []
  }

  /** `benchmark` */
  method RunBenchmark(results: Results, puzzle: Puzzle, solver: Solver, clock: Clock) returns (o: Outcome)
    requires Covers(clock)
    modifies results
    ensures o == BenchOutcome(solver, clock)
    ensures results.sent == old(results.sent) + BenchRecords(puzzle, solver, clock)
  {
    if !solver.Answers? && KeepSampling(clock.elapsedMs[0], 0) {
      // the loop is entered and the first call fails
      CallsMadeUnique(clock, FirstStop(clock, 1));
      if solver.Throws? {
        return Crashed;
      }
      return Skipped(SkipOf(solver));
    }
    var durations := Sample(clock);
    CallsMadeUnique(clock, |durations|);
    var average := Average(durations);
    if average.None? {
      return Crashed;
    }
    results.Send(BenchmarkResult(average.value, |durations|, puzzle));
    return Benchmarked(average.value, |durations|);
  }

  /**
   * A reported benchmark counts every call and averages the last
   * `BENCHMARK_WINDOW` of them, landing between their smallest and largest value.
   */
  lemma BenchmarkReport(s: Solver, c: Clock, lo: nat, hi: nat)
    requires Covers(c) && BenchOutcome(s, c).Benchmarked?
    requires forall i :: 0 <= i < |Window(c.callNanos[..CallsMade(c)])| ==>
      lo <= Window(c.callNanos[..CallsMade(c)])[i] <= hi
    ensures BenchOutcome(s, c).samples == CallsMade(c)
    ensures lo <= BenchOutcome(s, c).averageMicros <= hi
  {
    AverageBounded(c.callNanos[..CallsMade(c)], lo, hi);
  }

  // ---------------------------------------------------------------------------
  // Running one day

  datatype Phase = Solving | Benchmarking

  /** One call of `func` for one part, with the two flags of the day object as the solver sees them. */
  datatype Invocation = Invocation(phase: Phase, puzzle: Puzzle, benchmarking: bool, partMode: Option<Part>)

  /** A registered day: its identity, its two solvers and the flags `runDay` sets around each call. */
  class AocDayUnit {
    const identity: Day
    const part1: Solver
    const part2: Solver
    var benchmarking: bool
    var partMode: Option<Part>
    /** One entry per call of `func` (`runResults` or `benchmark`) so far, with the flags set at that call. */
    var invocations: seq<Invocation>

    constructor (identity: Day, part1: Solver, part2: Solver)
      ensures this.identity == identity && this.part1 == part1 && this.part2 == part2
      ensures !benchmarking && partMode == None && invocations == []
    {
      this.identity := identity;
      this.part1 := part1;
      this.part2 := part2;
      benchmarking := false;
      partMode := None;
      invocations := [];
    }

    function SolverFor(p: Part): Solver {
      if p == 1 then part1 else part2
    }
  }

  /** `AocDay.get(day)`: the first registered unit with that identity. */
  function Lookup(units: seq<AocDayUnit>, day: Day): (r: Option<AocDayUnit>)
    ensures r.Some? ==> r.value in units && r.value.identity == day
    ensures r.None? <==> forall u :: u in units ==> u.identity != day
  {
    if |units| == 0 then None
    else if units[0].identity == day then Some(units[0])
    else Lookup(units[1..], day)
  }

  /** The unit `runDay` may change. */
  function Found(units: seq<AocDayUnit>, day: Day): set<AocDayUnit> {
    match Lookup(units, day)
    case None => {}
    case Some(u) => {u}
  }

  /** Both parts solved, then both parts benchmarked, each with its flags. */
  function Plan(day: Day): seq<Invocation> {
    [ Invocation(Solving, Puzzle(day, 1), false, Some(1)),
      Invocation(Solving, Puzzle(day, 2), false, Some(2)),
      Invocation(Benchmarking, Puzzle(day, 1), true, Some(1)),
      Invocation(Benchmarking, Puzzle(day, 2), true, Some(2)) ]
  }

  /** A clock for every benchmark, each running into the timeout. */
  ghost predicate Timed(timing: Puzzle -> Clock) {
    forall p: Puzzle :: Covers(timing(p))
  }

  /** Whether step `k` of the plan ends in an exception nothing catches. */
  function StepCrashes(u: AocDayUnit, timing: Puzzle -> Clock, k: nat): bool
    requires k < 4 && Timed(timing)
  {
    var step := Plan(u.identity)[k];
    var solver := u.SolverFor(step.puzzle.part);
    if step.phase == Solving then solver.Throws?
    else BenchOutcome(solver, timing(step.puzzle)).Crashed?
  }

  /** What step `k` of the plan sends to the results log. */
  function StepRecords(u: AocDayUnit, timing: Puzzle -> Clock, k: nat): seq<Record>
    requires k < 4 && Timed(timing)
  {
    var step := Plan(u.identity)[k];
    var solver := u.SolverFor(step.puzzle.part);
    if step.phase == Solving then SolveRecords(step.puzzle, solver)
    else BenchRecords(step.puzzle, solver, timing(step.puzzle))
  }

  /** How many steps of the plan are taken: up to and including the first crash. */
  function StepsRun(u: AocDayUnit, timing: Puzzle -> Clock): (n: nat)
    requires Timed(timing)
    ensures 1 <= n <= 4
  {
    StepsFrom(u, timing, 0)
  }

  /** The steps taken when step `k` is reached: up to the first crash from `k` on. */
  function StepsFrom(u: AocDayUnit, timing: Puzzle -> Clock, k: nat): (n: nat)
    requires k < 4 && Timed(timing)
    decreases 4 - k
    ensures k < n <= 4
  {
    if k == 3 || StepCrashes(u, timing, k) then k + 1 else StepsFrom(u, timing, k + 1)
  }

  /** What the first `n` steps send, in order. */
  function RecordsOf(u: AocDayUnit, timing: Puzzle -> Clock, n: nat): seq<Record>
    requires n <= 4 && Timed(timing)
  {
    if n == 0 then [] else RecordsOf(u, timing, n - 1) + StepRecords(u, timing, n - 1)
  }

  /** Step `k` of the plan, for phase `current` and `part`. */
  function StepIndex(current: Phase, part: Part): (k: nat)
    ensures k < 4
  {
    (if current == Solving then 0 else 2) + part - 1
  }

  /** The run stops right after the first step that crashes and otherwise takes all four. */
  lemma StepsRunStops(u: AocDayUnit, timing: Puzzle -> Clock, k: nat)
    requires Timed(timing) && k < 4
    requires forall j :: 0 <= j < k ==> !StepCrashes(u, timing, j)
    ensures StepCrashes(u, timing, k) ==> StepsRun(u, timing) == k + 1
    ensures k == 3 && !StepCrashes(u, timing, k) ==> StepsRun(u, timing) == 4
  {
    StepsFromStops(u, timing, 0, k);
  }

  lemma {:induction false} StepsFromStops(u: AocDayUnit, timing: Puzzle -> Clock, j: nat, k: nat)
    requires Timed(timing) && j <= k < 4
    requires forall i :: j <= i < k ==> !StepCrashes(u, timing, i)
    decreases k - j
    ensures StepCrashes(u, timing, k) ==> StepsFrom(u, timing, j) == k + 1
    ensures k == 3 ==> StepsFrom(u, timing, j) == 4
  {
    if j < k {
      StepsFromStops(u, timing, j + 1, k);
    }
  }

  /** One part in one phase: set `partMode`, call `func`, clear `partMode` unless the call crashed. */
  method RunPart(u: AocDayUnit, results: Results, current: Phase, part: Part, timing: Puzzle -> Clock)
    returns (crashed: bool)
    requires Timed(timing)
    requires u.benchmarking == current.Benchmarking?
    modifies u, results
    ensures u.invocations == old(u.invocations) + [Plan(u.identity)[StepIndex(current, part)]]
    ensures results.sent == old(results.sent) + StepRecords(u, timing, StepIndex(current, part))
    ensures crashed == StepCrashes(u, timing, StepIndex(current, part))
    ensures u.benchmarking == old(u.benchmarking)
    ensures u.partMode == if crashed then Some(part) else None
  {
    u.partMode := Some(part);
    var puzzle := Puzzle(u.identity, part);
    var solver := u.SolverFor(part);
    u.invocations := u.invocations + [Invocation(current, puzzle, u.benchmarking, u.partMode)];
    var o;
    if current == Solving {
      o := RunResults(results, puzzle, solver);
    } else {
      o := RunBenchmark(results, puzzle, solver, timing(puzzle));
    }
    if o.Crashed? {
      return true;
    }
    u.partMode := None;
    return false;
  }

  /**
   * One phase of `runDay`: part 1 then part 2. `invBase` and `sentBase` are
   * the invocation trace and the log as they were before the day started.
   */
  method RunPhase(u: AocDayUnit, results: Results, current: Phase, timing: Puzzle -> Clock,
                  ghost invBase: seq<Invocation>, ghost sentBase: seq<Record>)
    returns (crashed: bool, ghost n: nat)
    requires Timed(timing)
    requires forall j :: 0 <= j < StepIndex(current, 1) ==> !StepCrashes(u, timing, j)
    requires u.invocations == invBase + Plan(u.identity)[..StepIndex(current, 1)]
    requires results.sent == sentBase + RecordsOf(u, timing, StepIndex(current, 1))
    modifies u, results
    ensures StepIndex(current, 1) < n <= StepIndex(current, 1) + 2
    ensures u.invocations == invBase + Plan(u.identity)[..n]
    ensures results.sent == sentBase + RecordsOf(u, timing, n)
    ensures crashed ==> n == StepsRun(u, timing) && StepCrashes(u, timing, n - 1)
    ensures !crashed ==> n == StepIndex(current, 1) + 2 && forall j :: 0 <= j < n ==> !StepCrashes(u, timing, j)
    ensures u.benchmarking == current.Benchmarking?
    ensures u.partMode == if crashed then Some(Plan(u.identity)[n - 1].puzzle.part) else None
  {
    ghost var plan := Plan(u.identity);
    u.benchmarking := current == Benchmarking;
    var part := 1;
    n := StepIndex(current, 1);
    while part <= 2
      invariant 1 <= part <= 3
      invariant n == StepIndex(current, 1) + part - 1
      invariant u.invocations == invBase + plan[..n]
      invariant results.sent == sentBase + RecordsOf(u, timing, n)
      invariant forall j :: 0 <= j < n ==> !StepCrashes(u, timing, j)
      invariant u.benchmarking == current.Benchmarking?
      invariant part > 1 ==> u.partMode == None
    {
      assert plan[..n + 1] == plan[..n] + [plan[n]];
      var stopped := RunPart(u, results, current, part, timing);
      AppendAssociates(invBase, plan[..n], [plan[n]]);
      AppendAssociates(sentBase, RecordsOf(u, timing, n), StepRecords(u, timing, n));
      StepsRunStops(u, timing, n);
      n := n + 1;
      if stopped {
        return true, n;
      }
      part := part + 1;
    }
    return false, n;
  }

  /** The two phases of `runDay` for a unit that was found. */
  method RunUnit(u: AocDayUnit, results: Results, timing: Puzzle -> Clock) returns (crashed: bool)
    requires Timed(timing)
    modifies u, results
    ensures u.invocations == old(u.invocations) + Plan(u.identity)[..StepsRun(u, timing)]
    ensures results.sent == old(results.sent) + RecordsOf(u, timing, StepsRun(u, timing))
    ensures crashed == StepCrashes(u, timing, StepsRun(u, timing) - 1)
    ensures u.benchmarking == (StepsRun(u, timing) > 2)
    ensures u.partMode == if crashed then Some(Plan(u.identity)[StepsRun(u, timing) - 1].puzzle.part) else None
  {
    ghost var invBase := u.invocations;
    ghost var sentBase := results.sent;
    var phase := 0;
    while phase < 2
      invariant 0 <= phase <= 2
      invariant u.invocations == invBase + Plan(u.identity)[..2 * phase]
      invariant results.sent == sentBase + RecordsOf(u, timing, 2 * phase)
      invariant forall j :: 0 <= j < 2 * phase ==> !StepCrashes(u, timing, j)
      invariant phase > 0 ==> u.benchmarking == (phase == 2) && u.partMode == None
    {
      var current := if phase == 0 then Solving else Benchmarking;
      ghost var n;
      crashed, n := RunPhase(u, results, current, timing, invBase, sentBase);
      if crashed {
        return;
      }
      phase := phase + 1;
    }
    StepsRunStops(u, timing, 3);
    return false;
  }

  /** What running `day` sends; an unregistered day sends nothing. */
  function DayRecords(units: seq<AocDayUnit>, day: Day, timing: Puzzle -> Clock): seq<Record>
    requires Timed(timing)
  {
    match Lookup(units, day)
    case None => []
    case Some(u) => RecordsOf(u, timing, StepsRun(u, timing))
  }

  predicate DayCrashes(units: seq<AocDayUnit>, day: Day, timing: Puzzle -> Clock)
    requires Timed(timing)
  {
    match Lookup(units, day)
    case None => false
    case Some(u) => StepCrashes(u, timing, StepsRun(u, timing) - 1)
  }

  /** The fields of a unit that `runDay` updates. */
  ghost function State(u: AocDayUnit): (bool, Option<Part>, seq<Invocation>)
    reads u
  {
    (u.benchmarking, u.partMode, u.invocations)
  }

  /**
   * The flags and the invocation trace of a unit after `runDay`, given its
   * trace before: the plan up to the first crash, `benchmarking` set by the
   * last phase entered, and `partMode` cleared unless the last call crashed.
   */
  ghost function AfterDay(u: AocDayUnit, before: seq<Invocation>, timing: Puzzle -> Clock): (bool, Option<Part>, seq<Invocation>)
    requires Timed(timing)
  {
    var n := StepsRun(u, timing);
    ( n > 2,
      if StepCrashes(u, timing, n - 1) then Some(Plan(u.identity)[n - 1].puzzle.part) else None,
      before + Plan(u.identity)[..n] )
  }

  /** `u` is as `runDay` leaves it, and `crashed` says whether its last call crashed. */
  ghost predicate UnitAfterDay(u: AocDayUnit, before: seq<Invocation>, timing: Puzzle -> Clock, crashed: bool)
    requires Timed(timing)
    reads u
  {
    && crashed == StepCrashes(u, timing, StepsRun(u, timing) - 1)
    && State(u) == AfterDay(u, before, timing)
  }

  /** `runDay`: nothing happens for a day that is not registered. */
  method RunDay(units: seq<AocDayUnit>, day: Day, results: Results, timing: Puzzle -> Clock)
    returns (crashed: bool)
    requires Timed(timing)
    modifies results, Found(units, day)
    ensures results.sent == old(results.sent) + DayRecords(units, day, timing)
    ensures crashed == DayCrashes(units, day, timing)
    ensures Lookup(units, day).Some? ==>
      UnitAfterDay(Lookup(units, day).value, old(Lookup(units, day).value.invocations), timing, crashed)
  {
    var found := Lookup(units, day);
    if found.None? {
      // "not found"
      return false;
    }
    crashed := RunUnit(found.value, results, timing);
  }

  /** Solving sends only answers and benchmarking only benchmark figures. */
  lemma StepKinds(u: AocDayUnit, timing: Puzzle -> Clock, k: nat)
    requires Timed(timing) && k < 4
    ensures forall r :: r in StepRecords(u, timing, k) ==> (r.BenchmarkResult? <==> k >= 2)
  {
  }

  /** Every answer of a day reaches the log before any of its benchmark figures. */
  lemma {:induction false} AnswersBeforeBenchmarks(u: AocDayUnit, timing: Puzzle -> Clock, n: nat)
    requires Timed(timing) && n <= 4
    ensures forall i, j :: 0 <= i < j < |RecordsOf(u, timing, n)| && RecordsOf(u, timing, n)[i].BenchmarkResult? ==>
      RecordsOf(u, timing, n)[j].BenchmarkResult?
    ensures n <= 2 ==> forall r :: r in RecordsOf(u, timing, n) ==> r.RunResult?
  {
    if n > 0 {
      AnswersBeforeBenchmarks(u, timing, n - 1);
      StepKinds(u, timing, n - 1);
      var prefix := RecordsOf(u, timing, n - 1);
      var step := StepRecords(u, timing, n - 1);
      var all: seq<Record> := RecordsOf(u, timing, n);
      assert all == prefix + step;
      forall r | r in all ensures n <= 2 ==> r.RunResult? {
        assert r in prefix || r in step;
      }
      forall i, j | 0 <= i < j < |all| && all[i].BenchmarkResult?
        ensures all[j].BenchmarkResult?
      {
        assert all[i] in all;
        assert n > 2;
        if j < |prefix| {
          assert all[i] == prefix[i] && all[j] == prefix[j];
        } else {
          assert all[j] in step;
        }
      }
    }
  }

  /**
   * A day whose parts both answer, and whose benchmarks each get to call the
   * solver, sends both answers and then both benchmark figures.
   */
  lemma AnsweringDay(u: AocDayUnit, timing: Puzzle -> Clock)
    requires Timed(timing)
    requires u.part1.Answers? && u.part2.Answers?
    requires CallsMade(timing(Puzzle(u.identity, 1))) > 0 && CallsMade(timing(Puzzle(u.identity, 2))) > 0
    ensures StepsRun(u, timing) == 4
    ensures
      var c1 := timing(Puzzle(u.identity, 1));
      var c2 := timing(Puzzle(u.identity, 2));
      RecordsOf(u, timing, 4) ==
        [ RunResult(u.part1.answer, Puzzle(u.identity, 1)),
          RunResult(u.part2.answer, Puzzle(u.identity, 2)),
          BenchmarkResult(Average(c1.callNanos[..CallsMade(c1)]).value, CallsMade(c1), Puzzle(u.identity, 1)),
          BenchmarkResult(Average(c2.callNanos[..CallsMade(c2)]).value, CallsMade(c2), Puzzle(u.identity, 2)) ]
  {
    var p1, p2 := Puzzle(u.identity, 1), Puzzle(u.identity, 2);
    assert StepRecords(u, timing, 0) == [RunResult(u.part1.answer, p1)];
    assert StepRecords(u, timing, 1) == [RunResult(u.part2.answer, p2)];
    assert StepRecords(u, timing, 2) == BenchRecords(p1, u.part1, timing(p1));
    assert StepRecords(u, timing, 3) == BenchRecords(p2, u.part2, timing(p2));
    assert !StepCrashes(u, timing, 2) && !StepCrashes(u, timing, 3);
    assert RecordsOf(u, timing, 1) == [] + StepRecords(u, timing, 0);
    assert RecordsOf(u, timing, 2) == RecordsOf(u, timing, 1) + StepRecords(u, timing, 1);
    assert RecordsOf(u, timing, 3) == RecordsOf(u, timing, 2) + StepRecords(u, timing, 2);
    assert RecordsOf(u, timing, 4) == RecordsOf(u, timing, 3) + StepRecords(u, timing, 3);
  }

  // ---------------------------------------------------------------------------
  // The main loop

  /** What running the days of `schedule` in order sends. */
  function ScheduleRecords(units: seq<AocDayUnit>, schedule: seq<Day>, timing: Puzzle -> Clock): seq<Record>
    requires Timed(timing)
  {
    if |schedule| == 0 then []
    else ScheduleRecords(units, schedule[..|schedule| - 1], timing) + DayRecords(units, schedule[|schedule| - 1], timing)
  }

  /** No day of `schedule` crashes. */
  predicate NoneCrash(units: seq<AocDayUnit>, schedule: seq<Day>, timing: Puzzle -> Clock)
    requires Timed(timing)
  {
    |schedule| == 0 ||
    (NoneCrash(units, schedule[..|schedule| - 1], timing) && !DayCrashes(units, schedule[|schedule| - 1], timing))
  }

  lemma {:induction false} NoneCrashMeans(units: seq<AocDayUnit>, schedule: seq<Day>, timing: Puzzle -> Clock)
    requires Timed(timing)
    ensures NoneCrash(units, schedule, timing) <==> forall i :: 0 <= i < |schedule| ==> !DayCrashes(units, schedule[i], timing)
  {
    if |schedule| > 0 {
      var prefix := schedule[..|schedule| - 1];
      NoneCrashMeans(units, prefix, timing);
      assert forall i :: 0 <= i < |prefix| ==> prefix[i] == schedule[i];
    }
  }

  lemma AppendAssociates<T>(a: seq<T>, b: seq<T>, c: seq<T>)
    ensures (a + b) + c == a + (b + c)
  {
  }

  /** Running one more day of the schedule adds that day's records and crash. */
  lemma ScheduleStep(units: seq<AocDayUnit>, schedule: seq<Day>, ran: nat, timing: Puzzle -> Clock)
    requires Timed(timing) && ran < |schedule|
    ensures ScheduleRecords(units, schedule[..ran + 1], timing)
      == ScheduleRecords(units, schedule[..ran], timing) + DayRecords(units, schedule[ran], timing)
    ensures NoneCrash(units, schedule[..ran + 1], timing)
      <==> NoneCrash(units, schedule[..ran], timing) && !DayCrashes(units, schedule[ran], timing)
  {
    assert schedule[..ran + 1][..ran] == schedule[..ran];
  }

  /** The units that `runDay` runs for the days of `days`. */
  function Touched(units: seq<AocDayUnit>, days: seq<Day>): (r: set<AocDayUnit>)
    ensures forall u :: u in r ==> u in units
  {
    if |days| == 0 then {} else Touched(units, days[..|days| - 1]) + Found(units, days[|days| - 1])
  }

  /** A unit is touched exactly when it is the registered unit of one of the days. */
  lemma {:induction false} TouchedMeans(units: seq<AocDayUnit>, days: seq<Day>)
    ensures forall u :: u in Touched(units, days) ==> exists i :: 0 <= i < |days| && Lookup(units, days[i]) == Some(u)
    ensures forall i :: 0 <= i < |days| && Lookup(units, days[i]).Some? ==> Lookup(units, days[i]).value in Touched(units, days)
  {
    if |days| > 0 {
      var init := days[..|days| - 1];
      TouchedMeans(units, init);
      forall u | u in Touched(units, days)
        ensures exists i :: 0 <= i < |days| && Lookup(units, days[i]) == Some(u)
      {
        if u in Touched(units, init) {
          var i :| 0 <= i < |init| && Lookup(units, init[i]) == Some(u);
          assert days[i] == init[i];
        } else {
          assert Lookup(units, days[|days| - 1]) == Some(u);
        }
      }
      forall i | 0 <= i < |days| && Lookup(units, days[i]).Some?
        ensures Lookup(units, days[i]).value in Touched(units, days)
      {
        if i < |days| - 1 {
          assert init[i] == days[i];
        }
      }
    }
  }

  /** With distinct days, the next day's unit has not been run yet. */
  lemma TouchedOnce(units: seq<AocDayUnit>, schedule: seq<Day>, ran: nat)
    requires ran < |schedule|
    requires forall i, j :: 0 <= i < j < |schedule| ==> schedule[i] != schedule[j]
    ensures schedule[..ran + 1][..ran] == schedule[..ran]
    ensures Touched(units, schedule[..ran + 1]) == Touched(units, schedule[..ran]) + Found(units, schedule[ran])
    ensures Found(units, schedule[ran]) !! Touched(units, schedule[..ran])
  {
    assert schedule[..ran + 1][..ran] == schedule[..ran];
    TouchedMeans(units, schedule[..ran]);
  }

  /** Of the first `ran` days of `schedule`, only the last crashed, and only if `crashed`. */
  predicate CrashedLast(units: seq<AocDayUnit>, schedule: seq<Day>, ran: nat, crashed: bool, timing: Puzzle -> Clock)
    requires Timed(timing)
  {
    && ran <= |schedule|
    && (crashed ==> 0 < ran && DayCrashes(units, schedule[ran - 1], timing))
    && NoneCrash(units, schedule[..ran - (if crashed then 1 else 0)], timing)
  }

  /** Running one more crash-free-so-far day crashes exactly when that day does. */
  lemma CrashStep(units: seq<AocDayUnit>, schedule: seq<Day>, ran: nat, timing: Puzzle -> Clock)
    requires Timed(timing) && ran < |schedule|
    requires CrashedLast(units, schedule, ran, false, timing)
    ensures CrashedLast(units, schedule, ran + 1, DayCrashes(units, schedule[ran], timing), timing)
  {
    ScheduleStep(units, schedule, ran, timing);
  }

  /** The units run for the first `ran` days are as `runDay` left them; the others are as in `initial`. */
  ghost predicate UnitsAfter(units: seq<AocDayUnit>, schedule: seq<Day>, ran: nat, timing: Puzzle -> Clock,
                             initial: map<AocDayUnit, (bool, Option<Part>, seq<Invocation>)>)
    requires Timed(timing) && ran <= |schedule|
    reads set u | u in units
  {
    && (forall u :: u in units ==> u in initial)
    && (forall u :: u in Touched(units, schedule[..ran]) ==> State(u) == AfterDay(u, initial[u].2, timing))
    && (forall u :: u in units && u !in Touched(units, schedule[..ran]) ==> State(u) == initial[u])
  }

  /**
   * After the first `ran` days of `schedule`: the crash facts, the log holding
   * their records, and the units' state.
   */
  ghost predicate RanDays(units: seq<AocDayUnit>, schedule: seq<Day>, ran: nat, crashed: bool, timing: Puzzle -> Clock,
                          sentBefore: seq<Record>, sent: seq<Record>,
                          initial: map<AocDayUnit, (bool, Option<Part>, seq<Invocation>)>)
    requires Timed(timing)
    reads set u | u in units
  {
    && CrashedLast(units, schedule, ran, crashed, timing)
    && sent == sentBefore + ScheduleRecords(units, schedule[..ran], timing)
    && UnitsAfter(units, schedule, ran, timing, initial)
  }

  /** One iteration of the main loop: `runDay` for the next day of the schedule. */
  method RunNext(units: seq<AocDayUnit>, schedule: seq<Day>, ran: nat, results: Results, timing: Puzzle -> Clock,
                 ghost sentBefore: seq<Record>, ghost initial: map<AocDayUnit, (bool, Option<Part>, seq<Invocation>)>)
    returns (crashed: bool)
    requires Timed(timing) && ran < |schedule|
    requires forall i, j :: 0 <= i < j < |schedule| ==> schedule[i] != schedule[j]
    requires RanDays(units, schedule, ran, false, timing, sentBefore, results.sent, initial)
    modifies results, set u | u in units
    ensures RanDays(units, schedule, ran + 1, crashed, timing, sentBefore, results.sent, initial)
  {
    CrashStep(units, schedule, ran, timing);
    ScheduleStep(units, schedule, ran, timing);
    TouchedOnce(units, schedule, ran);
    ghost var done := Touched(units, schedule[..ran]);
    ghost var found := Found(units, schedule[ran]);
    crashed := RunDay(units, schedule[ran], results, timing);
    AppendAssociates(sentBefore, ScheduleRecords(units, schedule[..ran], timing), DayRecords(units, schedule[ran], timing));
    assert results.sent == sentBefore + ScheduleRecords(units, schedule[..ran + 1], timing);
    forall u | u in units && u !in found ensures State(u) == old(State(u)) { }
    forall u | u in done ensures State(u) == AfterDay(u, initial[u].2, timing) {
      assert u !in found;
    }
    forall u | u in found ensures State(u) == AfterDay(u, initial[u].2, timing) {
      assert u !in done && u == Lookup(units, schedule[ran]).value;
      assert old(u.invocations) == initial[u].2;
    }
    assert UnitsAfter(units, schedule, ran + 1, timing, initial);
  }

  /** `sortedDays.forEach { runDay(it) }`: a crash ends the run. */
  method RunAll(units: seq<AocDayUnit>, schedule: seq<Day>, results: Results, timing: Puzzle -> Clock)
    returns (ran: nat, crashed: bool)
    requires Timed(timing)
    requires forall i, j :: 0 <= i < j < |schedule| ==> schedule[i] != schedule[j]
    modifies results, set u | u in units
    ensures ran <= |schedule|
    ensures !crashed ==> ran == |schedule|
    ensures crashed ==> 0 < ran && DayCrashes(units, schedule[ran - 1], timing)
    ensures NoneCrash(units, schedule[..ran - (if crashed then 1 else 0)], timing)
    ensures results.sent == old(results.sent) + ScheduleRecords(units, schedule[..ran], timing)
    ensures forall u :: u in Touched(units, schedule[..ran]) ==> State(u) == AfterDay(u, old(u.invocations), timing)
    ensures forall u :: u in units && u !in Touched(units, schedule[..ran]) ==> State(u) == old(State(u))
  {
    ghost var initial := map u | u in units :: old(State(u));
    ran := 0;
    crashed := false;
    while ran < |schedule| && !crashed
      invariant RanDays(units, schedule, ran, crashed, timing, old(results.sent), results.sent, initial)
    {
      crashed := RunNext(units, schedule, ran, results, timing, old(results.sent), initial);
      ran := ran + 1;
    }
    if !crashed {
      assert schedule[..ran] == schedule;
    }
  }

  function Identities(units: seq<AocDayUnit>): (ids: seq<Day>)
    ensures |ids| == |units|
    ensures forall i :: 0 <= i < |units| ==> ids[i] == units[i].identity
  {
    if |units| == 0 then [] else [units[0].identity] + Identities(units[1..])
  }

  datatype RunOutcome =
    | Abandoned(reason: Abort)
    | NoDayProvided
    | Ran(schedule: seq<Day>, completed: nat, crashed: bool)

  /** `main`: resolve the arguments, then run the selected days in ascending order. */
  method Run(units: seq<AocDayUnit>, args: seq<string>, results: Results, timing: Puzzle -> Clock)
    returns (out: RunOutcome)
    requires Timed(timing)
    modifies results, set u | u in units
    ensures out == Abandoned(NoYears) <==> |units| == 0
    ensures |units| > 0 ==> (out.Abandoned? <==> exists i :: 0 <= i < |args| && ParseToken(args[i]).None?)
    ensures out.Abandoned? && out.reason.UnknownArgument? ==>
      exists i :: && 0 <= i < |args| && args[i] == out.reason.arg && ParseToken(args[i]).None?
                  && forall j :: 0 <= j < i ==> ParseToken(args[j]).Some?
    ensures out.NoDayProvided? ==>
      && |units| > 0
      && (forall i :: 0 <= i < |args| ==> ParseToken(args[i]).Some?)
      && forall i, d :: 0 <= i < |args| ==> !Selects(Identities(units), args[i], d)
    ensures out.Ran? ==>
      && StrictlySorted(out.schedule) && |out.schedule| > 0
      && forall d :: d in out.schedule <==> exists i :: 0 <= i < |args| && Selects(Identities(units), args[i], d)
    ensures out.Ran? ==>
      && out.completed <= |out.schedule|
      && (!out.crashed ==> out.completed == |out.schedule|)
      && (out.crashed ==> 0 < out.completed && DayCrashes(units, out.schedule[out.completed - 1], timing))
      && results.sent == old(results.sent) + ScheduleRecords(units, out.schedule[..out.completed], timing)
    ensures out.Ran? ==>
      forall u :: u in Touched(units, out.schedule[..out.completed]) ==> State(u) == AfterDay(u, old(u.invocations), timing)
    ensures out.Ran? ==>
      forall u :: u in units && u !in Touched(units, out.schedule[..out.completed]) ==> State(u) == old(State(u))
    ensures !out.Ran? ==> results.sent == old(results.sent)
    ensures !out.Ran? ==> forall u :: u in units ==> State(u) == old(State(u))
  {
    var ids := Identities(units);
    var resolution := ResolveDays(ids, args);
    if resolution.Aborted? {
      return Abandoned(resolution.reason);
    }
    var sorted := SortDays(resolution.days);
    if resolution.days == {} {
      // "no day provided"
      forall i, d | 0 <= i < |args| ensures !Selects(ids, args[i], d) {
        assert d !in resolution.days;
      }
      return NoDayProvided;
    }
    var ran, crashed := RunAll(units, sorted, results, timing);
    return Ran(sorted, ran, crashed);
  }
}
