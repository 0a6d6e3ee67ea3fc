/**
 The production grid barrier: every block adds one to `arrived`; the block whose add brings
 it to the grid size resets the counter and publishes a new `generation`; the others spin on
 `generation`.

 A state holds the two shared 32-bit words, one program counter per block, and three history
 values that no action reads: how often each block has arrived, how many barrier calls each
 block has completed, and how many generations have been published.  `Act` is one atomic
 action of one block; a schedule is any sequence of block numbers.
 */
module GridBarrier {
  import opened Words

  /** Where a block stands in the barrier code. */
  datatype Pc =
    | Outside                       // not inside a barrier call
    | Loaded(target: nat)           // generation read, not yet arrived
    | Spinning(target: nat)         // arrived, not last
    | LastArriver(target: nat)      // arrived last, counter not yet reset
    | CounterReset(target: nat)     // counter reset, generation not yet published

  datatype State = State(
    arrived: nat,
    generation: nat,
    pcs: seq<Pc>,
    arrivals: seq<nat>,
    completed: seq<nat>,
    rounds: nat)

  predicate WellShaped(s: State) {
    && 0 < |s.pcs| < TWO_32
    && |s.arrivals| == |s.pcs|
    && |s.completed| == |s.pcs|
  }

  predicate IsBlock(s: State, b: nat) {
    b < |s.pcs|
  }

  /** Next generation value, as 32-bit unsigned arithmetic computes it. */
  function NextGeneration(g: nat): nat {
    (g + 1) % TWO_32
  }

  /** One atomic action of block `b`.  A spinning block that is not yet released stays put. */
  function Act(s: State, b: nat): State
    requires WellShaped(s) && IsBlock(s, b)
  {
    match s.pcs[b]
    case Outside =>
      s.(pcs := s.pcs[b := Loaded(NextGeneration(s.generation))])
    case Loaded(t) =>
      var now := (s.arrived + 1) % TWO_32;
      s.(arrived := now,
         arrivals := s.arrivals[b := s.arrivals[b] + 1],
         pcs := s.pcs[b := if now == |s.pcs| then LastArriver(t) else Spinning(t)])
    case LastArriver(t) =>
      s.(arrived := 0, pcs := s.pcs[b := CounterReset(t)])
    case CounterReset(t) =>
      s.(generation := t,
         pcs := s.pcs[b := Outside],
         completed := s.completed[b := s.completed[b] + 1],
         rounds := s.rounds + 1)
    case Spinning(t) =>
      if s.generation == t then
        s.(pcs := s.pcs[b := Outside], completed := s.completed[b := s.completed[b] + 1])
      else
        s
  }

  /** The only way for a block to be held up: it spins and the generation is not the one it wants. */
  predicate Blocked(s: State, b: nat)
    requires WellShaped(s) && IsBlock(s, b)
  {
    s.pcs[b].Spinning? && s.generation != s.pcs[b].target
  }

  /** Zero-initialised shared words, `n` blocks in front of their first barrier. */
  function Start(n: nat): State {
    State(0, 0, seq(n, i => Outside), seq(n, i => 0), seq(n, i => 0), 0)
  }

  predicate ScheduleFor(n: nat, schedule: seq<nat>) {
    forall i :: 0 <= i < |schedule| ==> schedule[i] < n
  }

  /** The state reached from `s` when the blocks named by `schedule` act in that order. */
  function Run(s: State, schedule: seq<nat>): (r: State)
    requires WellShaped(s) && ScheduleFor(|s.pcs|, schedule)
    ensures WellShaped(r) && |r.pcs| == |s.pcs|
    decreases schedule
  {
    if schedule == [] then s else Run(Act(s, schedule[0]), schedule[1..])
  }

  // ---------------------------------------------------------------- invariant

  /** Blocks that have arrived in the round now being collected. */
  function Arrived(s: State): set<nat>
    requires WellShaped(s)
  {
    set b: nat | b < |s.pcs| && s.arrivals[b] == s.rounds + 1
  }

  predicate Last(pc: Pc) {
    pc.LastArriver? || pc.CounterReset?
  }

  predicate PcConsistent(s: State, b: nat)
    requires WellShaped(s) && IsBlock(s, b)
  {
    var r := s.rounds;
    match s.pcs[b]
    case Outside => s.arrivals[b] == r && s.completed[b] == r
    case Loaded(t) => s.arrivals[b] == r && s.completed[b] == r && t == (r + 1) % TWO_32
    case LastArriver(t) => s.arrivals[b] == r + 1 && s.completed[b] == r && t == (r + 1) % TWO_32
    case CounterReset(t) => s.arrivals[b] == r + 1 && s.completed[b] == r && t == (r + 1) % TWO_32
    case Spinning(t) =>
      || (s.arrivals[b] == r + 1 && s.completed[b] == r && t == (r + 1) % TWO_32)
      || (s.arrivals[b] == r == s.completed[b] + 1 && t == r % TWO_32)
  }

  ghost predicate Inv(s: State) {
    && WellShaped(s)
    && s.generation == s.rounds % TWO_32
    && (forall b: nat :: b < |s.pcs| ==> PcConsistent(s, b))
    && (forall b: nat :: b < |s.pcs| && Last(s.pcs[b]) ==> |Arrived(s)| == |s.pcs|)
    && (forall b: nat, c: nat :: b < c < |s.pcs| ==> !(Last(s.pcs[b]) && Last(s.pcs[c])))
    && (|Arrived(s)| == |s.pcs| ==> exists b: nat :: b < |s.pcs| && Last(s.pcs[b]))
    && (if exists b: nat :: b < |s.pcs| && s.pcs[b].CounterReset?
        then s.arrived == 0
        else s.arrived == |Arrived(s)|)
  }

  function Blocks(n: nat): (r: set<nat>)
    ensures forall b: nat :: b in r <==> b < n
    ensures |r| == n
  {
    if n == 0 then {} else Blocks(n - 1) + {n - 1}
  }

  lemma SubsetSize(a: set<nat>, b: set<nat>)
    requires a <= b
    ensures |a| <= |b|
    ensures |a| == |b| ==> a == b
  {
    assert b == a + (b - a);
  }

  /** When the counter shows a full house, every block really has arrived. */
  lemma FullHouse(s: State)
    requires WellShaped(s)
    ensures |Arrived(s)| <= |s.pcs|
    ensures |Arrived(s)| == |s.pcs| <==> (forall b: nat :: b < |s.pcs| ==> s.arrivals[b] == s.rounds + 1)
  {
    SubsetSize(Arrived(s), Blocks(|s.pcs|));
    if forall b: nat :: b < |s.pcs| ==> s.arrivals[b] == s.rounds + 1 {
      assert Arrived(s) == Blocks(|s.pcs|);
    }
    if |Arrived(s)| == |s.pcs| {
      forall b: nat | b < |s.pcs| ensures s.arrivals[b] == s.rounds + 1 {
        assert b in Blocks(|s.pcs|);
      }
    }
  }

  lemma StartInv(n: nat)
    requires 0 < n < TWO_32
    ensures Inv(Start(n))
  {
    assert Arrived(Start(n)) == {};
  }

  lemma ArriveKeepsPcs(s: State, b: nat)
    requires WellShaped(s) && IsBlock(s, b) && s.pcs[b].Loaded?
    requires forall c: nat :: c < |s.pcs| ==> PcConsistent(s, c)
    ensures WellShaped(Act(s, b)) && forall c: nat :: c < |s.pcs| ==> PcConsistent(Act(s, b), c)
    ensures b !in Arrived(s) && Arrived(Act(s, b)) == Arrived(s) + {b}
  {
    forall c: nat | c < |s.pcs| ensures PcConsistent(Act(s, b), c) {
      assert PcConsistent(s, c);
    }
    assert PcConsistent(s, b);
  }

  lemma ArriveKeepsInv(s: State, b: nat)
    requires Inv(s) && IsBlock(s, b) && s.pcs[b].Loaded?
    ensures Inv(Act(s, b))
  {
    hide PcConsistent, Arrived;
    var s' := Act(s, b);
    FullHouse(s);
    FullHouse(s');
    ArriveKeepsPcs(s, b);
    NotAllArrived(s, b);
    assert forall c: nat :: c < |s.pcs| ==> !Last(s.pcs[c]);
    assert s.arrived == |Arrived(s)|;
    if |Arrived(s')| == |s'.pcs| {
      assert Last(s'.pcs[b]);
    }
  }

  lemma NotAllArrived(s: State, b: nat)
    requires WellShaped(s) && IsBlock(s, b) && b !in Arrived(s)
    ensures |Arrived(s)| < |s.pcs|
  {
    FullHouse(s);
  }

  lemma ResetKeepsInv(s: State, b: nat)
    requires Inv(s) && IsBlock(s, b) && s.pcs[b].LastArriver?
    ensures Inv(Act(s, b))
  {
    var s' := Act(s, b);
    assert Arrived(s') == Arrived(s);
    forall c: nat | c < |s'.pcs| ensures PcConsistent(s', c) {
      assert PcConsistent(s, c);
    }
    assert s'.pcs[b].CounterReset?;
    assert Last(s.pcs[b]) && Last(s'.pcs[b]);
  }

  lemma PublishKeepsInv(s: State, b: nat)
    requires Inv(s) && IsBlock(s, b) && s.pcs[b].CounterReset?
    ensures Inv(Act(s, b))
  {
    var s' := Act(s, b);
    FullHouse(s);
    assert PcConsistent(s, b) && Last(s.pcs[b]);
    assert s.arrived == 0;
    forall c: nat | c < |s'.pcs| ensures PcConsistent(s', c) && !Last(s'.pcs[c]) {
      assert PcConsistent(s, c);
      assert s.arrivals[c] == s.rounds + 1;
      if c != b {
        assert !Last(s.pcs[c]);
      }
    }
    assert Arrived(s') == {};
  }

  lemma OtherKeepsInv(s: State, b: nat)
    requires Inv(s) && IsBlock(s, b) && (s.pcs[b].Outside? || s.pcs[b].Spinning?)
    ensures Inv(Act(s, b))
  {
    var s' := Act(s, b);
    assert PcConsistent(s, b);
    assert Arrived(s') == Arrived(s);
    forall c: nat | c < |s'.pcs| ensures PcConsistent(s', c) && Last(s'.pcs[c]) == Last(s.pcs[c]) && s'.pcs[c].CounterReset? == s.pcs[c].CounterReset? {
      assert PcConsistent(s, c);
    }
  }

  lemma ActKeepsInv(s: State, b: nat)
    requires Inv(s) && IsBlock(s, b)
    ensures Inv(Act(s, b))
  {
    match s.pcs[b]
    case Loaded(_) => ArriveKeepsInv(s, b);
    case LastArriver(_) => ResetKeepsInv(s, b);
    case CounterReset(_) => PublishKeepsInv(s, b);
    case _ => OtherKeepsInv(s, b);
  }

  lemma {:induction false} RunKeepsInv(s: State, schedule: seq<nat>)
    requires Inv(s) && ScheduleFor(|s.pcs|, schedule)
    ensures Inv(Run(s, schedule))
    decreases schedule
  {
    if schedule != [] {
      ActKeepsInv(s, schedule[0]);
      RunKeepsInv(Act(s, schedule[0]), schedule[1..]);
    }
  }

  // ---------------------------------------------------------------- safety over all runs

  /**
   For any number of blocks, any interleaving and any number of rounds (so also across any
   number of wrap-arounds of `generation`): a block that has left k barrier calls left the
   last of them after every block had arrived k times; completed counts differ by at most
   one; and the counter is exactly the number of blocks that arrived in the current round
   until it is reset, which happens only once all of them have.
   */
  lemma BarrierSafety(n: nat, schedule: seq<nat>, b: nat, c: nat)
    requires 0 < n < TWO_32 && ScheduleFor(n, schedule) && b < n && c < n
    ensures var s := Run(Start(n), schedule);
            && s.completed[b] <= s.arrivals[c]
            && s.completed[b] <= s.completed[c] + 1
            && s.completed[b] <= s.arrivals[b] <= s.completed[b] + 1
            && s.generation == s.rounds % TWO_32
            && (s.arrived == |Arrived(s)| || (s.arrived == 0 && forall d: nat :: d < n ==> s.arrivals[d] == s.rounds + 1))
  {
    var s := Run(Start(n), schedule);
    StartInv(n);
    RunKeepsInv(Start(n), schedule);
    FullHouse(s);
    assert PcConsistent(s, b) && PcConsistent(s, c);
    if Last(s.pcs[b]) || Last(s.pcs[c]) {
      assert forall d: nat :: d < n ==> s.arrivals[d] == s.rounds + 1;
    }
  }

  // ---------------------------------------------------------------- progress

  /** Actions block `b` still owes before it has completed `goal` rounds. */
  function Owed(s: State, b: nat, goal: nat): nat
    requires WellShaped(s) && IsBlock(s, b)
  {
    if s.completed[b] >= goal then 0 else
    var whole := 4 * (goal - s.completed[b]);
    match s.pcs[b]
    case Outside => whole
    case Loaded(_) => whole - 1
    case Spinning(_) => whole - 2
    case LastArriver(_) => whole - 2
    case CounterReset(_) => whole - 3
  }

  function Work(s: State, goal: nat, upto: nat): nat
    requires WellShaped(s) && upto <= |s.pcs|
  {
    if upto == 0 then 0 else Work(s, goal, upto - 1) + Owed(s, upto - 1, goal)
  }

  lemma {:induction false} WorkFallsBy(s: State, s': State, b: nat, goal: nat, upto: nat)
    requires WellShaped(s) && WellShaped(s') && |s.pcs| == |s'.pcs| && IsBlock(s, b) && upto <= |s.pcs|
    requires forall c: nat :: c < |s.pcs| && c != b ==> s'.pcs[c] == s.pcs[c] && s'.completed[c] == s.completed[c]
    ensures Work(s', goal, upto) == Work(s, goal, upto) + if b < upto then Owed(s', b, goal) - Owed(s, b, goal) else 0
  {
    if upto > 0 {
      WorkFallsBy(s, s', b, goal, upto - 1);
    }
  }

  /** Every action that is not a spin lowers the work left, whoever takes it. */
  lemma ActionLowersWork(s: State, b: nat, goal: nat)
    requires Inv(s) && IsBlock(s, b) && !Blocked(s, b) && s.completed[b] < goal
    ensures Work(Act(s, b), goal, |s.pcs|) < Work(s, goal, |s.pcs|)
  {
    WorkFallsBy(s, Act(s, b), b, goal, |s.pcs|);
  }

  /** No deadlock: while some block is short of `goal` rounds, such a block can act. */
  lemma SomeBlockCanAct(s: State, b: nat, goal: nat) returns (c: nat)
    requires Inv(s) && IsBlock(s, b) && s.completed[b] < goal
    ensures IsBlock(s, c) && s.completed[c] < goal && !Blocked(s, c)
  {
    FullHouse(s);
    assert PcConsistent(s, b);
    if !Blocked(s, b) {
      c := b;
    } else if |Arrived(s)| == |s.pcs| {
      c :| c < |s.pcs| && Last(s.pcs[c]);
      assert PcConsistent(s, c);
    } else {
      c :| c < |s.pcs| && s.arrivals[c] != s.rounds + 1;
      assert PcConsistent(s, c);
    }
  }

  /** Each entry of the schedule is a block short of `goal` rounds that does not merely spin. */
  predicate Useful(s: State, goal: nat, schedule: seq<nat>)
    requires WellShaped(s) && ScheduleFor(|s.pcs|, schedule)
    decreases schedule
  {
    schedule == [] ||
    (&& s.completed[schedule[0]] < goal
     && !Blocked(s, schedule[0])
     && Useful(Act(s, schedule[0]), goal, schedule[1..]))
  }

  /** Whatever the scheduler does, only so many useful actions fit before all blocks are through. */
  lemma {:induction false} UsefulSchedulesAreBounded(s: State, goal: nat, schedule: seq<nat>)
    requires Inv(s) && ScheduleFor(|s.pcs|, schedule) && Useful(s, goal, schedule)
    ensures |schedule| + Work(Run(s, schedule), goal, |s.pcs|) <= Work(s, goal, |s.pcs|)
    decreases schedule
  {
    if schedule != [] {
      ActionLowersWork(s, schedule[0], goal);
      ActKeepsInv(s, schedule[0]);
      UsefulSchedulesAreBounded(Act(s, schedule[0]), goal, schedule[1..]);
    }
  }

  /** From every reachable state the blocks can all be brought through any number of rounds. */
  lemma {:induction false} EveryRoundCompletes(s: State, goal: nat) returns (schedule: seq<nat>)
    requires Inv(s)
    ensures ScheduleFor(|s.pcs|, schedule) && Useful(s, goal, schedule)
    ensures |schedule| <= Work(s, goal, |s.pcs|)
    ensures var r := Run(s, schedule);
            Inv(r) && forall b: nat :: b < |s.pcs| ==> r.completed[b] >= goal
    decreases Work(s, goal, |s.pcs|)
  {
    if forall b: nat :: b < |s.pcs| ==> s.completed[b] >= goal {
      schedule := [];
    } else {
      var b: nat :| b < |s.pcs| && s.completed[b] < goal;
      var c := SomeBlockCanAct(s, b, goal);
      ActionLowersWork(s, c, goal);
      ActKeepsInv(s, c);
      var rest := EveryRoundCompletes(Act(s, c), goal);
      schedule := [c] + rest;
      assert schedule[1..] == rest;
    }
  }
}
