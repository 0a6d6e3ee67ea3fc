/**
 How long the mailbox serves: every sequence of up to 0xFFFFFFFE batches can be dispatched and
 acknowledged, from every start; the next dispatch, whose number has wrapped, waits for ever.
 */
module MailboxService {
  import B = GridBarrier
  import opened Mailbox
  import opened MailboxSafety
  import opened MailboxProgress

  /** Nobody has asked to stop. */
  predicate NoStop(s: State) {
    !s.queue.shutdown && !s.shutdownSeen && !s.forceExit && !s.watchdogExit
  }

  /** The host may dispatch: nothing is in flight and nobody has asked to stop. */
  ghost predicate Idle(s: State) {
    Inv(s) && s.host.Ready? && NoStop(s)
  }

  // ---------------------------------------------------------------- publishing a batch

  /** The blocks have not moved, and the words they write are untouched. */
  predicate HostOnly(s: State, r: State) {
    && r.late == s.late && r.bar == s.bar && r.locs == s.locs && r.logs == s.logs && r.phase == s.phase
    && r.shutdownSeen == s.shutdownSeen && r.watchdogExit == s.watchdogExit && r.forceExit == s.forceExit
    && r.queue.shutdown == s.queue.shutdown && r.queue.ack == s.queue.ack && r.acked == s.acked
  }

  /** One action of a host that writes a batch. */
  lemma HostWrites(s: State)
    requires Shaped(s) && (s.host.Filling? || s.host.NumWritten? || s.host.BaseWritten?)
    ensures var r := HostAct(s);
            && HostOnly(s, r)
            && match s.host
               case Filling(batch, w) =>
                 && r.host == (if w < |batch.insts| * INST_WORDS then Filling(batch, w + 1) else NumWritten(batch))
                 && r.sent == s.sent && |r.plan| == |s.plan|
               case NumWritten(batch) => r.host == BaseWritten(batch) && r.sent == s.sent && |r.plan| == |s.plan|
               case BaseWritten(batch) => r.host.Waiting? && r.sent == s.sent + [batch] && |r.plan| == |s.plan| + 1
               case _ => true
  {
    hide QueuePlan, BatchWord;
  }

  function BatchOf(h: Host): Batch
    requires h.Filling? || h.NumWritten? || h.BaseWritten?
  {
    match h
    case Filling(batch, _) => batch
    case NumWritten(batch) => batch
    case BaseWritten(batch) => batch
  }

  function ActionsLeft(h: Host): nat
    requires h.Filling? ==> h.written <= |h.batch.insts| * INST_WORDS
  {
    match h
    case Filling(batch, w) => |batch.insts| * INST_WORDS - w + 3
    case NumWritten(batch) => 2
    case _ => 1
  }

  /** The host acts until the batch is published. */
  lemma {:induction false} FinishPublishing(s: State) returns (events: seq<Event>)
    requires Shaped(s) && (s.host.Filling? || s.host.NumWritten? || s.host.BaseWritten?)
    ensures CanRun(s, events)
    ensures var r := RunEvents(s, events);
            HostOnly(s, r) && r.host.Waiting? && r.sent == s.sent + [BatchOf(s.host)] && |r.plan| == |s.plan| + 1
    decreases ActionsLeft(s.host)
  {
    hide HostAct;
    HostWrites(s);
    if s.host.BaseWritten? {
      events := [HostStep];
      assert events[1..] == [];
    } else {
      var rest := FinishPublishing(HostAct(s));
      events := [HostStep] + rest;
      assert events[1..] == rest;
    }
  }

  lemma Publish(s: State, batch: Batch) returns (events: seq<Event>)
    requires Shaped(s) && s.host.Ready? && ValidBatch(batch)
    ensures CanRun(s, events)
    ensures var r := RunEvents(s, events);
            HostOnly(s, r) && r.host.Waiting? && r.sent == s.sent + [batch] && |r.plan| == |s.plan| + 1
  {
    var rest := FinishPublishing(s.(host := Filling(batch, 0)));
    events := [HostStart(batch)] + rest;
    assert events[1..] == rest;
  }

  // ---------------------------------------------------------------- blocks do not ask to stop

  lemma BlockKeepsNoStop(s: State, b: nat)
    requires Shaped(s) && NoStop(s) && b < |s.locs|
    ensures NoStop(BlockAct(s, b))
  {
  }

  lemma {:induction false} BlocksKeepNoStop(s: State, events: seq<Event>)
    requires Shaped(s) && NoStop(s) && CanRun(s, events) && OnlyBlocks(events)
    ensures NoStop(RunEvents(s, events))
    decreases events
  {
    hide NoStop, BlockAct;
    if events != [] {
      assert events[0].BlockStep?;
      BlockKeepsNoStop(s, events[0].b);
      assert forall i :: 0 <= i < |events[1..]| ==> events[1..][i] == events[i + 1];
      BlocksKeepNoStop(Apply(s, events[0]), events[1..]);
    }
  }

  // ---------------------------------------------------------------- service

  /** A host that publishes one more batch has it in flight. */
  lemma PublishedIsPending(s: State, r: State)
    requires Idle(s) && Inv(r) && HostOnly(s, r) && r.host.Waiting? && |r.plan| == |s.plan| + 1 <= LAST_SEQ
    ensures Pending(r)
  {
    hide PlaceInv, LogInv, HostContent, PlanMatches, B.Inv;
  }

  /** An idle host can dispatch any batch and gets its Ok, as long as the number does not wrap. */
  lemma ServeOne(s: State, batch: Batch) returns (events: seq<Event>)
    requires Idle(s) && ValidBatch(batch) && |s.plan| < LAST_SEQ
    ensures CanRun(s, events)
    ensures var r := RunEvents(s, events); Idle(r) && r.sent == s.sent + [batch] && |r.plan| == |s.plan| + 1
  {
    hide PlaceInv, LogInv, HostContent, PlanMatches, AckCoupled, PaceCoupled, HostOnly;
    var publish := Publish(s, batch);
    var s1 := RunEvents(s, publish);
    RunKeepsInv(s, publish);
    PublishedIsPending(s, s1);
    var blocks := NextAckIsReached(s1);
    var s2 := RunEvents(s1, blocks);
    BlocksKeepNoStop(s1, blocks);
    RunConcat(s, publish, blocks);
    RunThenOne(s, publish + blocks, HostStep);
    events := publish + blocks + [HostStep];
    RunKeepsInv(s, events);
  }

  lemma {:induction false} ServeAll(s: State, batches: seq<Batch>) returns (events: seq<Event>)
    requires Idle(s) && |s.plan| + |batches| <= LAST_SEQ
    requires forall i :: 0 <= i < |batches| ==> ValidBatch(batches[i])
    ensures CanRun(s, events)
    ensures var r := RunEvents(s, events); Idle(r) && r.sent == s.sent + batches && |r.plan| == |s.plan| + |batches|
    decreases |batches|
  {
    hide ValidBatch, PlaceInv, Data, AckCoupled, PaceCoupled, NoStop, B.Inv;
    if batches == [] {
      events := [];
    } else {
      var front := batches[..|batches| - 1];
      var first := ServeAll(s, front);
      var more := ServeOne(RunEvents(s, first), batches[|batches| - 1]);
      RunConcat(s, first, more);
      events := first + more;
      assert front + [batches[|batches| - 1]] == batches;
    }
  }

  lemma IdleAtStart(s0: State, n: nat)
    requires Init(s0, n) && !s0.late && !s0.queue.shutdown && !s0.forceExit
    ensures Idle(s0)
  {
    hide Inv;
    InitHasInv(s0, n);
  }

  /** An idle host has an Ok for everything it sent, and every block has executed all of it. */
  lemma IdleIsServed(s: State, b: nat)
    requires Idle(s) && b < |s.locs|
    ensures s.acked == |s.sent| == |s.plan| && |s.logs| == |s.locs| && s.logs[b] == Flat(s.plan)
    ensures PlanMatches(s.sent, s.plan)
  {
    hide HostContent, LogInv, PlaceInv, B.Inv, Flat;
    LogLiesBetween(s, b);
    assert s.plan[..|s.plan|] == s.plan;
  }

  /**
   From every start, whatever up to 0xFFFFFFFE batches the host wants executed, there is a run in
   which it dispatches just these, gets an Ok for each, and every block has executed them all.
   */
  lemma EveryProgramIsServed(s0: State, n: nat, batches: seq<Batch>) returns (events: seq<Event>)
    requires Init(s0, n) && !s0.late && !s0.queue.shutdown && !s0.forceExit
    requires |batches| <= LAST_SEQ && forall i :: 0 <= i < |batches| ==> ValidBatch(batches[i])
    ensures CanRun(s0, events)
    ensures var r := RunEvents(s0, events);
            && Idle(r) && r.sent == batches && r.acked == |batches| && |r.logs| == n
            && PlanMatches(batches, r.plan) && forall b: nat :: b < n ==> r.logs[b] == Flat(r.plan)
  {
    hide Inv, Flat, PlanMatches, ValidBatch;
    IdleAtStart(s0, n);
    events := ServeAll(s0, batches);
    var r := RunEvents(s0, events);
    RunKeepsBlocks(s0, events);
    assert s0.sent + batches == batches;
    IdleIsServed(r, 0);
    forall b: nat | b < n ensures r.logs[b] == Flat(r.plan) {
      IdleIsServed(r, b);
    }
  }

  // ---------------------------------------------------------------- the wrapped dispatch

  /** The dispatch with the wrapped number is in flight, or has been given up. */
  ghost predicate Wrapped(s: State) {
    Inv(s) && (s.host.Waiting? || s.host.GaveUp?) && |s.sent| == LAST_SEQ + 1 && s.acked == LAST_SEQ
  }

  /** Only the host's look at the ack ends its waiting, and counts one more Ok. */
  lemma WaitingGoesOn(s: State, e: Event)
    requires Shaped(s) && (s.host.Waiting? || s.host.GaveUp?) && Enabled(s, e)
    ensures var s' := Apply(s, e);
            && s'.sent == s.sent
            && (((s'.host.Waiting? || s'.host.GaveUp?) && s'.acked == s.acked) || s'.acked == s.acked + 1)
  {
    hide BlockAct;
    if e.BlockStep? {
      BlockKeepsHost(s, e.b);
    }
  }

  lemma BlockKeepsHost(s: State, b: nat)
    requires Shaped(s) && b < |s.locs|
    ensures var s' := BlockAct(s, b); s'.host == s.host && s'.sent == s.sent && s'.acked == s.acked
  {
    hide NextLoc, NextLog;
  }

  lemma OksAreBounded(s: State)
    requires Inv(s)
    ensures s.acked <= LAST_SEQ
  {
    hide PlaceInv, Data, B.Inv;
  }

  lemma WrappedStays(s: State, e: Event)
    requires Wrapped(s) && Enabled(s, e)
    ensures Wrapped(Apply(s, e))
  {
    hide PlaceInv, Data, AckCoupled, PaceCoupled, B.Inv, Apply;
    EventKeepsInv(s, e);
    WaitingGoesOn(s, e);
    OksAreBounded(Apply(s, e));
  }

  lemma {:induction false} WrappedForEver(s: State, events: seq<Event>)
    requires Wrapped(s) && CanRun(s, events)
    ensures Wrapped(RunEvents(s, events))
    decreases events
  {
    hide PlaceInv, Data, AckCoupled, PaceCoupled, B.Inv;
    if events != [] {
      WrappedStays(s, events[0]);
      WrappedForEver(Apply(s, events[0]), events[1..]);
    }
  }

  /**
   From every start the host can get that far: after 0xFFFFFFFE batches, each acknowledged, it
   publishes one more without anybody having asked to stop, and whatever happens then it never
   gets an Ok again.
   */
  lemma WrappedDispatchHangs(s0: State, n: nat, batches: seq<Batch>, last: Batch) returns (events: seq<Event>)
    requires Init(s0, n) && !s0.late && !s0.queue.shutdown && !s0.forceExit
    requires |batches| == LAST_SEQ && (forall i :: 0 <= i < |batches| ==> ValidBatch(batches[i])) && ValidBatch(last)
    ensures CanRun(s0, events)
    ensures var r := RunEvents(s0, events);
            && r.host.Waiting? && r.sent == batches + [last] && r.acked == LAST_SEQ && NoStop(r)
            && forall more :: CanRun(r, more) ==>
                 var t := RunEvents(r, more); (t.host.Waiting? || t.host.GaveUp?) && t.acked == LAST_SEQ
  {
    hide PlaceInv, Data, AckCoupled, PaceCoupled, B.Inv, ValidBatch, Flat;
    var served := EveryProgramIsServed(s0, n, batches);
    var s := RunEvents(s0, served);
    var publish := Publish(s, last);
    RunConcat(s0, served, publish);
    events := served + publish;
    var r := RunEvents(s, publish);
    RunKeepsInv(s, publish);
    forall more | CanRun(r, more)
      ensures var t := RunEvents(r, more); (t.host.Waiting? || t.host.GaveUp?) && t.acked == LAST_SEQ
    {
      WrappedForEver(r, more);
    }
  }

  /** A run in which the host gets k Oks exists exactly for k up to 0xFFFFFFFE. */
  lemma ServedIffNotWrapped(s0: State, n: nat, k: nat)
    requires Init(s0, n) && !s0.late && !s0.queue.shutdown && !s0.forceExit
    ensures (exists events :: CanRun(s0, events) && RunEvents(s0, events).acked == k) <==> k <= LAST_SEQ
  {
    hide Inv, Flat, PlanMatches;
    if k <= LAST_SEQ {
      var events := EveryProgramIsServed(s0, n, seq(k, _ => Batch([], 0)));
      assert CanRun(s0, events) && RunEvents(s0, events).acked == k;
    }
    forall events | CanRun(s0, events) ensures RunEvents(s0, events).acked <= LAST_SEQ {
      WrappedDispatchIsNeverAcknowledged(s0, n, events);
    }
  }
}
