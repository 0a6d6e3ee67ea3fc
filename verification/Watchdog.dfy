/**
 The host watchdog: it polls a progress counter per GPU, asks a stalled kernel to exit, and
 aborts the process when that is ignored.  Clocks and the mapped page become observations.
 */
module Watchdog {
  import opened Words
  import opened Options

  datatype Config = Config(noProgress: nat, grace: nat)

  datatype Entry = Entry(lastProgress: nat, lastProgressAt: int, forceExitSentAt: Option<int>, hasStarted: bool)

  /** What one poll sees: time, counter, exit flag, and the counter read again before an abort. */
  datatype Observation = Observation(now: int, counter: nat, exited: bool, counterAgain: nat)

  datatype Action = Nothing | ForceExit | Abort

  function Registered(at: int): Entry {
    Entry(0, at, None, false)
  }

  /** One poll of one entry. */
  function Poll(cfg: Config, e: Entry, o: Observation): (Entry, Action) {
    if o.exited then (e.(lastProgress := o.counter, lastProgressAt := o.now, forceExitSentAt := None), Nothing)
    else if o.counter > e.lastProgress then (Entry(o.counter, o.now, None, true), Nothing)
    else if !e.hasStarted then (e, Nothing)
    else if o.now - e.lastProgressAt < cfg.noProgress then (e, Nothing)
    else if e.forceExitSentAt.None? then (e.(forceExitSentAt := Some(o.now)), ForceExit)
    else if o.now - e.forceExitSentAt.value < cfg.grace then (e, Nothing)
    else if o.counterAgain != o.counter then (e.(lastProgress := o.counterAgain, lastProgressAt := o.now, forceExitSentAt := None), Nothing)
    else (e, Abort)
  }

  /** The entry after a trace of polls. */
  function After(cfg: Config, start: int, trace: seq<Observation>): Entry {
    if trace == [] then Registered(start)
    else Poll(cfg, After(cfg, start, trace[..|trace| - 1]), trace[|trace| - 1]).0
  }

  function ActionAt(cfg: Config, start: int, trace: seq<Observation>, i: nat): Action
    requires i < |trace|
  {
    Poll(cfg, After(cfg, start, trace[..i]), trace[i]).1
  }

  // ---------------------------------------------------------------- what the entry remembers

  /** No exit and no counter above c from poll p on. */
  predicate QuietFrom(trace: seq<Observation>, p: nat, c: nat) {
    forall j :: p <= j < |trace| ==> !trace[j].exited && trace[j].counter <= c
  }

  /** The counter a sign of life at poll p - 1 left behind: what the poll saw, or saw on its second look when it had not risen. */
  function Left(cfg: Config, start: int, trace: seq<Observation>, p: nat): nat
    requires p <= |trace|
  {
    if p == 0 then 0
    else
      var o := trace[p - 1];
      if o.exited || o.counter > After(cfg, start, trace[..p - 1]).lastProgress then o.counter else o.counterAgain
  }

  /** Poll p - 1 was the last sign of life, or nothing was seen since registration when p is 0. */
  ghost predicate LastSign(cfg: Config, e: Entry, start: int, trace: seq<Observation>, p: nat) {
    && p <= |trace|
    && e.lastProgressAt == (if p == 0 then start else trace[p - 1].now)
    && e.lastProgress == Left(cfg, start, trace, p)
    && QuietFrom(trace, p, e.lastProgress)
  }

  /** Force-exit went out at poll s, after a full silence since the last sign of life. */
  ghost predicate SentAt(cfg: Config, e: Entry, start: int, trace: seq<Observation>, p: nat, s: nat) {
    && p <= s < |trace| && e.forceExitSentAt == Some(trace[s].now)
    && trace[s].now - e.lastProgressAt >= cfg.noProgress
    && ActionAt(cfg, start, trace, s) == ForceExit
  }

  /** No poll from p on sent force-exit. */
  predicate NothingSent(cfg: Config, start: int, trace: seq<Observation>, p: nat) {
    forall j: nat :: p <= j < |trace| ==> ActionAt(cfg, start, trace, j) != ForceExit
  }

  /** Force-exit was sent once since the last sign of life, or not at all. */
  ghost predicate Sent(cfg: Config, e: Entry, start: int, trace: seq<Observation>, p: nat) {
    if e.forceExitSentAt.None? then NothingSent(cfg, start, trace, p)
    else exists s: nat :: SentAt(cfg, e, start, trace, p, s) && NothingSent(cfg, start, trace, s + 1)
  }

  ghost predicate Remembers(cfg: Config, e: Entry, start: int, trace: seq<Observation>) {
    && (e.hasStarted ==> exists i :: 0 <= i < |trace| && Started(cfg, start, trace, i))
    && exists p: nat :: LastSign(cfg, e, start, trace, p) && Sent(cfg, e, start, trace, p)
  }

  /** Poll i saw the counter rise. */
  predicate Started(cfg: Config, start: int, trace: seq<Observation>, i: nat)
    requires i < |trace|
  {
    !trace[i].exited && trace[i].counter > After(cfg, start, trace[..i]).lastProgress
  }

  lemma LongerTrace(cfg: Config, start: int, trace: seq<Observation>, o: Observation, i: nat)
    requires i < |trace|
    ensures (trace + [o])[..i] == trace[..i] && (trace + [o])[i] == trace[i]
    ensures ActionAt(cfg, start, trace + [o], i) == ActionAt(cfg, start, trace, i)
    ensures Started(cfg, start, trace + [o], i) == Started(cfg, start, trace, i)
  {
  }

  lemma StepRemembersStart(cfg: Config, start: int, trace: seq<Observation>, o: Observation)
    requires Remembers(cfg, After(cfg, start, trace), start, trace)
    ensures Poll(cfg, After(cfg, start, trace), o).0.hasStarted ==> exists i :: 0 <= i < |trace + [o]| && Started(cfg, start, trace + [o], i)
  {
    hide LastSign, SentAt;
    var e, longer := After(cfg, start, trace), trace + [o];
    if e.hasStarted {
      var i :| 0 <= i < |trace| && Started(cfg, start, trace, i);
      LongerTrace(cfg, start, trace, o, i);
      assert Started(cfg, start, longer, i);
    } else if Poll(cfg, e, o).0.hasStarted {
      assert longer[..|trace|] == trace;
      assert Started(cfg, start, longer, |trace|);
    }
  }

  lemma LeftInLonger(cfg: Config, start: int, trace: seq<Observation>, o: Observation, p: nat)
    requires p <= |trace|
    ensures Left(cfg, start, trace + [o], p) == Left(cfg, start, trace, p)
  {
    if p > 0 {
      assert (trace + [o])[..p - 1] == trace[..p - 1];
    }
  }

  lemma NothingSentAtTheEnd(cfg: Config, e: Entry, start: int, trace: seq<Observation>)
    requires e.forceExitSentAt.None?
    ensures Sent(cfg, e, start, trace, |trace|)
  {
  }

  lemma NothingSentInLonger(cfg: Config, start: int, trace: seq<Observation>, o: Observation, p: nat)
    requires NothingSent(cfg, start, trace, p) && (p <= |trace| ==> ActionAt(cfg, start, trace + [o], |trace|) != ForceExit)
    ensures NothingSent(cfg, start, trace + [o], p)
  {
    hide ActionAt;
    forall j: nat | p <= j < |trace + [o]| ensures ActionAt(cfg, start, trace + [o], j) != ForceExit {
      if j < |trace| {
        LongerTrace(cfg, start, trace, o, j);
      }
    }
  }

  /** A silent poll keeps what was sent, or sends force-exit now. */
  lemma SilenceIsRemembered(cfg: Config, start: int, trace: seq<Observation>, o: Observation, p: nat)
    requires var e := After(cfg, start, trace);
             && LastSign(cfg, e, start, trace, p) && Sent(cfg, e, start, trace, p) && !o.exited && o.counter <= e.lastProgress
             && Poll(cfg, e, o).0.lastProgress == e.lastProgress && Poll(cfg, e, o).0.lastProgressAt == e.lastProgressAt
             && (Poll(cfg, e, o).0.forceExitSentAt == e.forceExitSentAt || Poll(cfg, e, o).1 == ForceExit)
    ensures Sent(cfg, Poll(cfg, After(cfg, start, trace), o).0, start, trace + [o], p)
  {
    hide After, Left, LastSign;
    var e, longer, n := After(cfg, start, trace), trace + [o], |trace|;
    var e' := Poll(cfg, e, o).0;
    LastInRange(cfg, e, start, trace, p);
    assert longer[..n] == trace;
    if Poll(cfg, e, o).1 == ForceExit {
      assert SentAt(cfg, e', start, longer, p, n);
    } else if e.forceExitSentAt.Some? {
      var s: nat :| SentAt(cfg, e, start, trace, p, s) && NothingSent(cfg, start, trace, s + 1);
      LongerTrace(cfg, start, trace, o, s);
      NothingSentInLonger(cfg, start, trace, o, s + 1);
      assert SentAt(cfg, e', start, longer, p, s);
    } else {
      NothingSentInLonger(cfg, start, trace, o, p);
    }
  }

  lemma LastInRange(cfg: Config, e: Entry, start: int, trace: seq<Observation>, p: nat)
    requires LastSign(cfg, e, start, trace, p)
    ensures p <= |trace|
  {
  }

  /** A poll is a sign of life, and then forgets what was sent, or it is silent. */
  lemma SignOrSilence(cfg: Config, start: int, trace: seq<Observation>, o: Observation)
    ensures var e, longer := After(cfg, start, trace), trace + [o];
            var (e', action) := Poll(cfg, e, o);
            || (&& e'.lastProgressAt == e.lastProgressAt && e'.lastProgress == e.lastProgress && !o.exited && o.counter <= e.lastProgress
                && (e'.forceExitSentAt == e.forceExitSentAt || action == ForceExit))
            || (LastSign(cfg, e', start, longer, |trace| + 1) && e'.forceExitSentAt.None?)
  {
    assert (trace + [o])[..|trace|] == trace;
  }

  lemma StepRemembersSigns(cfg: Config, start: int, trace: seq<Observation>, o: Observation)
    requires Remembers(cfg, After(cfg, start, trace), start, trace)
    ensures var e' := Poll(cfg, After(cfg, start, trace), o).0;
            exists p: nat :: LastSign(cfg, e', start, trace + [o], p) && Sent(cfg, e', start, trace + [o], p)
  {
    hide Started, After, Left, Poll, Sent;
    SignOrSilence(cfg, start, trace, o);
    var e, longer, n := After(cfg, start, trace), trace + [o], |trace|;
    var e' := Poll(cfg, e, o).0;
    var p: nat :| LastSign(cfg, e, start, trace, p) && Sent(cfg, e, start, trace, p);
    if LastSign(cfg, e', start, longer, n + 1) && e'.forceExitSentAt.None? {
      assert Sent(cfg, e', start, longer, n + 1) by {
        NothingSentAtTheEnd(cfg, e', start, longer);
      }
    } else {
      LeftInLonger(cfg, start, trace, o, p);
      SilenceIsRemembered(cfg, start, trace, o, p);
      assert LastSign(cfg, e', start, longer, p);
    }
  }

  lemma {:induction false} TraceIsRemembered(cfg: Config, start: int, trace: seq<Observation>)
    ensures Remembers(cfg, After(cfg, start, trace), start, trace)
  {
    if trace == [] {
      assert LastSign(cfg, Registered(start), start, [], 0);
    } else {
      var n := |trace| - 1;
      TraceIsRemembered(cfg, start, trace[..n]);
      StepRemembersStart(cfg, start, trace[..n], trace[n]);
      StepRemembersSigns(cfg, start, trace[..n], trace[n]);
      assert trace[..n] + [trace[n]] == trace;
    }
  }

  // ---------------------------------------------------------------- when a kernel counts as started

  /** The counter of the last poll that saw an exit. */
  function Base(trace: seq<Observation>): nat {
    if trace == [] then 0
    else if trace[|trace| - 1].exited then trace[|trace| - 1].counter
    else Base(trace[..|trace| - 1])
  }

  /** Poll i saw no exit and a counter above the one of the last exit before it. */
  predicate Rises(trace: seq<Observation>, i: nat) {
    i < |trace| && !trace[i].exited && trace[i].counter > Base(trace[..i])
  }

  lemma RisesInLonger(trace: seq<Observation>, o: Observation, i: nat)
    requires i < |trace|
    ensures Rises(trace + [o], i) == Rises(trace, i)
  {
    assert (trace + [o])[..i] == trace[..i];
  }

  /** A kernel that never rose is remembered as it was registered, but for its last exit. */
  lemma {:induction false} StartedIff(cfg: Config, start: int, trace: seq<Observation>)
    ensures var e := After(cfg, start, trace);
            && (e.hasStarted <==> exists i :: Rises(trace, i))
            && (!e.hasStarted ==> e.lastProgress == Base(trace) && e.forceExitSentAt.None?)
  {
    if trace != [] {
      var n := |trace| - 1;
      var front, o := trace[..n], trace[n];
      StartedIff(cfg, start, front);
      assert front + [o] == trace;
      var e := After(cfg, start, front);
      if i :| Rises(front, i) {
        RisesInLonger(front, o, i);
        assert Rises(trace, i);
      } else {
        assert Rises(trace, n) <==> !o.exited && o.counter > Base(front);
        forall i: nat | i < n ensures !Rises(trace, i) {
          RisesInLonger(front, o, i);
        }
      }
    }
  }

  /**
   Over every trace, the kernel counts as started if and only if a poll saw it run: no exit, and a
   counter above the one it last exited with, or above zero when it never did.
   */
  lemma HasStartedIff(cfg: Config, start: int, trace: seq<Observation>)
    ensures After(cfg, start, trace).hasStarted <==> exists i :: Rises(trace, i)
    ensures After(cfg, start, trace).hasStarted <==> exists i :: 0 <= i < |trace| && Started(cfg, start, trace, i)
  {
    StartedIff(cfg, start, trace);
    TraceIsRemembered(cfg, start, trace);
    if i :| 0 <= i < |trace| && Started(cfg, start, trace, i) {
      StartedStays(cfg, start, trace, i);
    }
  }

  lemma {:induction false} StartedStays(cfg: Config, start: int, trace: seq<Observation>, i: nat)
    requires i < |trace| && Started(cfg, start, trace, i)
    ensures After(cfg, start, trace).hasStarted
  {
    var n := |trace| - 1;
    if i < n {
      assert trace[..n][..i] == trace[..i];
      StartedStays(cfg, start, trace[..n], i);
    }
  }

  // ---------------------------------------------------------------- an abort is justified

  /**
   The evidence for an abort at poll o after a trace: the kernel had been seen running; poll s
   had sent force-exit at least a grace period ago; and since poll p, at least noProgress before
   that, no poll has seen an exit or a counter above the one poll p - 1 left behind.
   */
  ghost predicate Evidence(cfg: Config, start: int, trace: seq<Observation>, o: Observation, p: nat, s: nat) {
    && p <= |trace|
    && var c, silentSince := Left(cfg, start, trace, p), if p == 0 then start else trace[p - 1].now;
    && (exists i :: Rises(trace, i))
    && p <= s < |trace| && ActionAt(cfg, start, trace, s) == ForceExit
    && o.now - trace[s].now >= cfg.grace
    && trace[s].now - silentSince >= cfg.noProgress
    && QuietFrom(trace + [o], p, c)
    && o.counterAgain == o.counter
  }

  /** Over every trace of polls, an abort has its evidence. */
  lemma AbortIsJustified(cfg: Config, start: int, trace: seq<Observation>, o: Observation) returns (p: nat, s: nat)
    requires Poll(cfg, After(cfg, start, trace), o).1 == Abort
    ensures Evidence(cfg, start, trace, o, p, s)
  {
    TraceIsRemembered(cfg, start, trace);
    StartedIff(cfg, start, trace);
    var e := After(cfg, start, trace);
    hide After, ActionAt, Started, Rises, Left;
    p :| LastSign(cfg, e, start, trace, p) && Sent(cfg, e, start, trace, p);
    s :| SentAt(cfg, e, start, trace, p, s);
  }

  /**
   Over every trace, force-exit goes out only to a kernel that was seen running and has then shown
   neither an exit nor a larger counter for at least noProgress.
   */
  lemma ForceExitIsJustified(cfg: Config, start: int, trace: seq<Observation>, o: Observation) returns (p: nat)
    requires Poll(cfg, After(cfg, start, trace), o).1 == ForceExit
    ensures p <= |trace| && QuietFrom(trace + [o], p, Left(cfg, start, trace, p))
    ensures o.now - (if p == 0 then start else trace[p - 1].now) >= cfg.noProgress
    ensures exists i :: Rises(trace, i)
  {
    TraceIsRemembered(cfg, start, trace);
    StartedIff(cfg, start, trace);
    var e := After(cfg, start, trace);
    hide After, ActionAt, Started, Rises, Left;
    p :| LastSign(cfg, e, start, trace, p) && Sent(cfg, e, start, trace, p);
  }

  // ---------------------------------------------------------------- what a poll decides

  lemma LastSentIsOne(cfg: Config, start: int, trace: seq<Observation>, s: nat, t: nat)
    requires s < |trace| && ActionAt(cfg, start, trace, s) == ForceExit && NothingSent(cfg, start, trace, s + 1)
    requires t < |trace| && ActionAt(cfg, start, trace, t) == ForceExit && NothingSent(cfg, start, trace, t + 1)
    ensures s == t
  {
  }

  /** Poll o is silent since poll p, and the kernel has been seen running. */
  ghost predicate Silent(cfg: Config, start: int, trace: seq<Observation>, o: Observation, p: nat) {
    && p <= |trace| && (exists i :: Rises(trace, i))
    && !o.exited && o.counter <= Left(cfg, start, trace, p)
    && o.now - (if p == 0 then start else trace[p - 1].now) >= cfg.noProgress
  }

  /**
   Over every trace, with poll p - 1 as the last sign of life: force-exit is sent exactly when the
   silence has lasted noProgress and none was sent since; the process is aborted exactly when one
   was sent since, grace has passed and the second look sees the counter unchanged.
   */
  lemma PollIsDecided(cfg: Config, start: int, trace: seq<Observation>, o: Observation) returns (p: nat)
    ensures LastSign(cfg, After(cfg, start, trace), start, trace, p)
    ensures Poll(cfg, After(cfg, start, trace), o).1 == ForceExit <==>
            Silent(cfg, start, trace, o, p) && NothingSent(cfg, start, trace, p)
    ensures Poll(cfg, After(cfg, start, trace), o).1 == Abort <==>
            && Silent(cfg, start, trace, o, p) && o.counterAgain == o.counter
            && exists s: nat :: p <= s < |trace| && ActionAt(cfg, start, trace, s) == ForceExit && NothingSent(cfg, start, trace, s + 1)
                             && o.now - trace[s].now >= cfg.grace
  {
    TraceIsRemembered(cfg, start, trace);
    StartedIff(cfg, start, trace);
    var e := After(cfg, start, trace);
    hide After, ActionAt, Started, Rises, Left;
    p :| LastSign(cfg, e, start, trace, p) && Sent(cfg, e, start, trace, p);
    if e.forceExitSentAt.Some? {
      var s: nat :| SentAt(cfg, e, start, trace, p, s) && NothingSent(cfg, start, trace, s + 1);
      assert !NothingSent(cfg, start, trace, p);
      forall s': nat | p <= s' < |trace| && ActionAt(cfg, start, trace, s') == ForceExit && NothingSent(cfg, start, trace, s' + 1) ensures s' == s {
        LastSentIsOne(cfg, start, trace, s, s');
      }
    }
  }

  // ---------------------------------------------------------------- a frozen kernel is aborted

  /** Poll i ends in the abort, and no earlier poll does. */
  ghost predicate FirstAbort(cfg: Config, e: Entry, polls: seq<Observation>, i: nat)
    decreases |polls|
  {
    && i < |polls|
    && if i == 0 then Poll(cfg, e, polls[0]).1 == Abort
       else Poll(cfg, e, polls[0]).1 != Abort && FirstAbort(cfg, Poll(cfg, e, polls[0]).0, polls[1..], i - 1)
  }

  /** Polls at most d apart that see neither an exit nor a counter above c, the first at most d after `prev`. */
  predicate Frozen(c: nat, prev: int, polls: seq<Observation>, d: nat) {
    && (polls != [] ==> prev <= polls[0].now <= prev + d)
    && (forall i :: 0 <= i < |polls| - 1 ==> polls[i].now <= polls[i + 1].now <= polls[i].now + d)
    && forall i :: 0 <= i < |polls| ==> !polls[i].exited && polls[i].counter <= c && polls[i].counterAgain == polls[i].counter
  }

  lemma FrozenTail(c: nat, prev: int, polls: seq<Observation>, d: nat)
    requires Frozen(c, prev, polls, d) && polls != []
    ensures Frozen(c, polls[0].now, polls[1..], d)
    ensures prev <= polls[0].now <= prev + d && !polls[0].exited && polls[0].counter <= c && polls[0].counterAgain == polls[0].counter
    ensures |polls| > 1 ==> polls[1..][|polls| - 2].now == polls[|polls| - 1].now
  {
  }

  lemma {:induction false} GraceRunsOut(cfg: Config, e: Entry, prev: int, polls: seq<Observation>, d: nat) returns (i: nat)
    requires e.hasStarted && e.forceExitSentAt.Some? && Frozen(e.lastProgress, prev, polls, d)
    requires e.forceExitSentAt.value - e.lastProgressAt >= cfg.noProgress && e.forceExitSentAt.value <= prev
    requires prev <= e.forceExitSentAt.value + cfg.grace
    requires polls != [] && polls[|polls| - 1].now >= e.forceExitSentAt.value + cfg.grace
    ensures FirstAbort(cfg, e, polls, i) && polls[i].now <= e.forceExitSentAt.value + cfg.grace + d
    decreases |polls|
  {
    hide Frozen;
    FrozenTail(e.lastProgress, prev, polls, d);
    if polls[0].now - e.forceExitSentAt.value >= cfg.grace {
      i := 0;
    } else {
      var k := GraceRunsOut(cfg, e, polls[0].now, polls[1..], d);
      i := k + 1;
    }
  }

  lemma {:induction false} StartedAndFrozen(cfg: Config, e: Entry, prev: int, polls: seq<Observation>, d: nat) returns (i: nat)
    requires e.hasStarted && e.forceExitSentAt.None? && Frozen(e.lastProgress, prev, polls, d)
    requires e.lastProgressAt <= prev <= e.lastProgressAt + cfg.noProgress
    requires polls != [] && polls[|polls| - 1].now > e.lastProgressAt + cfg.noProgress + cfg.grace + 2 * d
    ensures FirstAbort(cfg, e, polls, i)
    ensures polls[i].now <= e.lastProgressAt + cfg.noProgress + cfg.grace + 2 * d
    decreases |polls|
  {
    hide Frozen;
    FrozenTail(e.lastProgress, prev, polls, d);
    var e' := Poll(cfg, e, polls[0]).0;
    var k;
    if polls[0].now - e.lastProgressAt >= cfg.noProgress {
      k := GraceRunsOut(cfg, e', polls[0].now, polls[1..], d);
    } else {
      k := StartedAndFrozen(cfg, e', polls[0].now, polls[1..], d);
    }
    i := k + 1;
  }

  /** No poll saw a counter above m. */
  predicate Below(trace: seq<Observation>, m: nat) {
    forall j :: 0 <= j < |trace| ==> trace[j].counter <= m && trace[j].counterAgain <= m
  }

  lemma {:induction false} NothingAbove(cfg: Config, start: int, trace: seq<Observation>, m: nat)
    requires Below(trace, m)
    ensures After(cfg, start, trace).lastProgress <= m
  {
    if trace != [] {
      NothingAbove(cfg, start, trace[..|trace| - 1], m);
    }
  }

  /** The last poll saw an exit, or a counter larger than any before. */
  predicate LifeSign(trace: seq<Observation>) {
    && trace != []
    && var n := |trace| - 1;
    trace[n].exited || (trace[n].counter > 0 && Below(trace[..n], trace[n].counter - 1))
  }

  lemma LifeSignIsKept(cfg: Config, start: int, trace: seq<Observation>)
    requires LifeSign(trace)
    ensures var e, o := After(cfg, start, trace), trace[|trace| - 1];
            e.lastProgress == o.counter && e.lastProgressAt == o.now && e.forceExitSentAt.None?
  {
    var n := |trace| - 1;
    if !trace[n].exited {
      NothingAbove(cfg, start, trace[..n], trace[n].counter - 1);
    }
  }

  lemma AfterOneMore(cfg: Config, start: int, trace: seq<Observation>, polls: seq<Observation>)
    requires polls != []
    ensures trace + [polls[0]] + polls[1..] == trace + polls
    ensures After(cfg, start, trace + [polls[0]]) == Poll(cfg, After(cfg, start, trace), polls[0]).0
    ensures ActionAt(cfg, start, trace + polls, |trace|) == Poll(cfg, After(cfg, start, trace), polls[0]).1
  {
    assert (trace + [polls[0]])[..|trace|] == trace;
    assert (trace + polls)[..|trace|] == trace;
  }

  lemma {:induction false} FirstAbortInTrace(cfg: Config, start: int, trace: seq<Observation>, polls: seq<Observation>, i: nat)
    requires FirstAbort(cfg, After(cfg, start, trace), polls, i)
    ensures ActionAt(cfg, start, trace + polls, |trace| + i) == Abort
    ensures forall j :: |trace| <= j < |trace| + i ==> ActionAt(cfg, start, trace + polls, j) != Abort
    decreases |polls|
  {
    hide Poll, After, ActionAt;
    AfterOneMore(cfg, start, trace, polls);
    if i > 0 {
      FirstAbortInTrace(cfg, start, trace + [polls[0]], polls[1..], i - 1);
    }
  }

  /**
   A kernel that some poll since registration saw running, and that freezes after its last sign of
   life without exiting, is aborted within noProgress + grace + 2 * d of that sign, when polls come
   at most d apart.
   */
  lemma FrozenKernelIsAborted(cfg: Config, start: int, trace: seq<Observation>, polls: seq<Observation>, d: nat) returns (i: nat)
    requires LifeSign(trace) && exists k :: Rises(trace, k)
    requires Frozen(trace[|trace| - 1].counter, trace[|trace| - 1].now, polls, d)
    requires polls != [] && polls[|polls| - 1].now > trace[|trace| - 1].now + cfg.noProgress + cfg.grace + 2 * d
    ensures i < |polls| && polls[i].now <= trace[|trace| - 1].now + cfg.noProgress + cfg.grace + 2 * d
    ensures ActionAt(cfg, start, trace + polls, |trace| + i) == Abort
    ensures forall j :: |trace| <= j < |trace| + i ==> ActionAt(cfg, start, trace + polls, j) != Abort
  {
    hide After, ActionAt, Poll, Rises, LifeSign;
    StartedIff(cfg, start, trace);
    LifeSignIsKept(cfg, start, trace);
    assert trace != [] by {
      SignsAreSeen(trace);
    }
    i := StartedAndFrozen(cfg, After(cfg, start, trace), trace[|trace| - 1].now, polls, d);
    FirstAbortInTrace(cfg, start, trace, polls, i);
    FirstAbortInRange(cfg, After(cfg, start, trace), polls, i);
  }

  lemma SignsAreSeen(trace: seq<Observation>)
    requires LifeSign(trace)
    ensures trace != []
  {
  }

  lemma FirstAbortInRange(cfg: Config, e: Entry, polls: seq<Observation>, i: nat)
    requires FirstAbort(cfg, e, polls, i)
    ensures i < |polls|
  {
  }

  // ---------------------------------------------------------------- the thread's round over all GPUs

  class WatchdogThread {
    const cfg: Config
    var entries: seq<Entry>
    var forceExit: seq<bool>

    ghost predicate Valid()
      reads this
    {
      |forceExit| == |entries|
    }

    constructor (cfg: Config)
      ensures Valid() && entries == [] && this.cfg == cfg
    {
      this.cfg, entries, forceExit := cfg, [], [];
    }

    method Register(now: int)
      requires Valid()
      modifies this
      ensures Valid() && entries == old(entries) + [Registered(now)] && forceExit == old(forceExit) + [false]
    {
      entries, forceExit := entries + [Registered(now)], forceExit + [false];
    }

    /** One round; the result is the entry that led to an abort, if any.  Before an abort every GPU is told to exit. */
    method PollAll(seen: seq<Observation>) returns (aborted: Option<nat>)
      requires Valid() && |seen| == |entries|
      modifies this
      ensures Valid() && |entries| == |old(entries)|
      ensures forall i :: 0 <= i < |entries| && (aborted.Some? ==> i < aborted.value) ==>
                && entries[i] == Poll(cfg, old(entries)[i], seen[i]).0
                && Poll(cfg, old(entries)[i], seen[i]).1 != Abort
      ensures aborted.None? ==> forall i :: 0 <= i < |entries| ==>
                forceExit[i] == (old(forceExit)[i] || Poll(cfg, old(entries)[i], seen[i]).1 == ForceExit)
      ensures aborted.Some? ==> aborted.value < |entries| && Poll(cfg, old(entries)[aborted.value], seen[aborted.value]).1 == Abort
      ensures aborted.Some? ==> forall i :: 0 <= i < |entries| ==> forceExit[i]
      ensures aborted.Some? ==> forall i :: aborted.value <= i < |entries| ==> entries[i] == old(entries)[i]
    {
      hide Poll;
      for i := 0 to |entries|
        invariant Valid() && |entries| == |old(entries)|
        invariant forall k :: 0 <= k < i ==>
                    && entries[k] == Poll(cfg, old(entries)[k], seen[k]).0 && Poll(cfg, old(entries)[k], seen[k]).1 != Abort
                    && forceExit[k] == (old(forceExit)[k] || Poll(cfg, old(entries)[k], seen[k]).1 == ForceExit)
        invariant forall k :: i <= k < |entries| ==> entries[k] == old(entries)[k] && forceExit[k] == old(forceExit)[k]
      {
        var (e, action) := Poll(cfg, entries[i], seen[i]);
        match action
        case Abort =>
          forceExit := seq(|entries|, _ => true);
          return Some(i);
        case ForceExit =>
          forceExit := forceExit[i := true];
          entries := entries[i := e];
        case Nothing =>
          entries := entries[i := e];
      }
      aborted := None;
    }
  }

  // ---------------------------------------------------------------- the kernel's side

  /** A beat: count in 32 bits, and store the count on the first beat and every hundredth. */
  function Beat(local: nat, stored: nat): (nat, nat) {
    var c := (local + 1) % TWO_32;
    (c, if c == 1 || c % 100 == 0 then c else stored)
  }

  function Beats(local: nat, stored: nat, n: nat): (nat, nat) {
    if n == 0 then (local, stored) else var (l, s) := Beats(local, stored, n - 1); Beat(l, s)
  }

  /** The counter the host sees at a count of c: the first beat, then the last multiple of a hundred. */
  function Shown(c: nat): nat {
    if c >= 100 then c / 100 * 100 else if c >= 1 then 1 else 0
  }

  lemma BeatShows(c: nat)
    requires c < TWO_32
    ensures Beat(c, Shown(c)) == ((c + 1) % TWO_32, Shown((c + 1) % TWO_32))
  {
  }

  lemma {:induction false} BeatsShow(c: nat, n: nat)
    requires c < TWO_32
    ensures Beats(c, Shown(c), n) == ((c + n) % TWO_32, Shown((c + n) % TWO_32))
  {
    hide Beat, Shown;
    if n > 0 {
      BeatsShow(c, n - 1);
      BeatShows((c + n - 1) % TWO_32);
    }
  }

  lemma ShownMonotone(a: nat, b: nat)
    requires a <= b
    ensures Shown(a) <= Shown(b) && (a + 100 <= b ==> Shown(a) < Shown(b))
  {
  }

  /** A hundred beats show the host a larger counter if and only if the 32-bit count does not wrap meanwhile. */
  lemma BeatsShowProgressIff(c: nat)
    requires c < TWO_32
    ensures Beats(c, Shown(c), 100).1 > Shown(c) <==> c + 100 < TWO_32
  {
    hide Beat, Shown, Beats;
    BeatsShow(c, 100);
    if c + 100 < TWO_32 {
      ShownMonotone(c, c + 100);
    } else {
      ShownMonotone(c + 100 - TWO_32, c);
    }
  }

  /** A relaunched kernel counts on from the stored counter, truncated to 32 bits. */
  function Relaunch(stored: nat): (nat, nat) {
    (stored % TWO_32, stored)
  }

  /** After a relaunch the host sees the counters that follow the last one it saw, again within a hundred beats. */
  lemma RelaunchContinues(c: nat, n: nat)
    requires Shown(c) + n < TWO_32
    ensures var (local, stored) := Relaunch(Shown(c));
            Beats(local, stored, n) == (Shown(c) + n, Shown(Shown(c) + n))
    ensures n >= 100 ==> Shown(Shown(c) + n) > Shown(c)
  {
    hide Beat, Beats;
    ShownTwice(c);
    BeatsShow(Shown(c), n);
    ShownMonotone(Shown(c), Shown(c) + n);
  }

  lemma ShownTwice(c: nat)
    ensures Shown(Shown(c)) == Shown(c)
  {
  }

  /**
   A kernel that beats on while its count wraps is taken for a stalled one: until the count has
   caught up, polls that see its counter lead to force-exit and then to the abort.
   */
  lemma WrapLooksStalled(cfg: Config, start: int, trace: seq<Observation>, c: nat, n: nat, m: nat, o1: Observation, o2: Observation)
    requires c < TWO_32 <= c + n && n <= m <= TWO_32
    requires LifeSign(trace) && (exists k :: Rises(trace, k)) && trace[|trace| - 1].counter == Shown(c)
    requires !o1.exited && o1.counter == Beats(c, Shown(c), n).1 && o1.now - trace[|trace| - 1].now >= cfg.noProgress
    requires !o2.exited && o2.counter == o2.counterAgain == Beats(c, Shown(c), m).1 && o2.now - o1.now >= cfg.grace
    requires o1.now <= o2.now
    ensures ActionAt(cfg, start, trace + [o1, o2], |trace|) == ForceExit
    ensures ActionAt(cfg, start, trace + [o1, o2], |trace| + 1) == Abort
  {
    hide Beat, Shown, Beats, After, ActionAt, LifeSign, Rises;
    BeatsShow(c, n);
    BeatsShow(c, m);
    Wrapped(c, n);
    Wrapped(c, m);
    ShownMonotone(c + n - TWO_32, c);
    ShownMonotone(c + m - TWO_32, c);
    StartedIff(cfg, start, trace);
    LifeSignIsKept(cfg, start, trace);
    AfterOneMore(cfg, start, trace, [o1, o2]);
    AfterOneMore(cfg, start, trace + [o1], [o2]);
    assert trace + [o1] + [o2] == trace + [o1, o2];
  }

  lemma Wrapped(c: nat, n: nat)
    requires c < TWO_32 <= c + n && n <= TWO_32
    ensures (c + n) % TWO_32 == c + n - TWO_32 <= c
  {
  }
}
