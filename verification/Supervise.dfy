/**
 The parent that runs a Borg child and the supervisor that reaps its descendants
 (src/core/borg/process.rs), as two step machines in an environment that decides everything
 else: what is written and when, what a read returns, who exits how, and who runs next.
 */
module Supervise {
  import opened Basics
  import opened Order

  datatype Failure = Cancelled | Timeout | OutputLimit | Consumer | Pipe | ChildFailed

  datatype Exit = Exited(code: int) | Killed

  datatype Verdict = Success | Failed(why: Failure)

  // ----- the parent

  // position: how much of stdout has been read; delivered: what was handed to the consumer.
  datatype Parent = Parent(outDone: bool, errDone: bool, total: nat, failure: Option<Failure>, status: Option<Exit>,
                           controlOpen: bool, position: nat, delivered: seq<byte>, verdict: Option<Verdict>)

  datatype Read = Chunk(size: nat) | End | Nothing | Broken

  datatype Wait = NotYet | Reap | WaitError

  // What the environment answers during one round of the parent's loop.
  datatype Round = Round(cancelled: bool, expired: bool, out: Read, accepted: bool, err: Read, wait: Wait)

  function StartParent(): Parent {
    Parent(false, false, 0, None, None, true, 0, [], None)
  }

  function CheckClock(p: Parent, r: Round): (q: Parent)
    ensures q.delivered == p.delivered && q.status == p.status && q.verdict == p.verdict && q.position == p.position
    ensures (p.failure.Some? ==> q.failure == p.failure) && (q.failure.Some? ==> !q.controlOpen)
  {
    var failure := if p.failure.None? && r.cancelled then Some(Cancelled)
                   else if p.failure.None? && r.expired then Some(Timeout)
                   else p.failure;
    p.(failure := failure, controlOpen := p.controlOpen && failure.None?)
  }

  // Up to n bytes of what has been written and not been read.
  function Available(position: nat, n: nat, out: seq<byte>): seq<byte> {
    if |out| <= position then [] else if |out| <= position + n then out[position..] else out[position..position + n]
  }

  function ReadOut(p: Parent, r: Round, limit: nat, out: seq<byte>): (q: Parent)
    ensures q.status == p.status && q.verdict == p.verdict && q.controlOpen == p.controlOpen
    ensures p.failure.Some? ==> q.failure.Some? && q.delivered == p.delivered
  {
    if p.outDone then p
    else match r.out
      case End => p.(outDone := true)
      case Nothing => p
      case Broken => p.(failure := Some(Pipe), outDone := true)
      case Chunk(n) =>
        var chunk := Available(p.position, n, out);
        var q := p.(position := p.position + |chunk|);
        if p.failure.Some? || chunk == [] then q
        else if p.total + |chunk| > limit then q.(total := p.total + |chunk|, failure := Some(OutputLimit))
        else q.(total := p.total + |chunk|, delivered := p.delivered + chunk,
                failure := if r.accepted then None else Some(Consumer))
  }

  function ReadErr(p: Parent, r: Round): (q: Parent)
    ensures q.delivered == p.delivered && q.status == p.status && q.verdict == p.verdict
    ensures q.controlOpen == p.controlOpen && (p.failure.Some? ==> q.failure.Some?)
  {
    if p.errDone then p
    else match r.err
      case End => p.(errDone := true)
      case Broken => p.(failure := Some(Pipe), errDone := true)
      case Nothing => p
      case Chunk(_) => p
  }

  function VerdictOn(failure: Option<Failure>, status: Exit): Verdict {
    if failure.Some? then Failed(failure.value)
    else if status == Exited(0) then Success
    else Failed(ChildFailed)
  }

  function PollChild(p: Parent, r: Round, exit: Option<Exit>): (q: Parent)
    ensures q.delivered == p.delivered && q.failure == p.failure && q.controlOpen == p.controlOpen
    ensures q.status == p.status || q.status == exit
    ensures q.verdict == Some(Success) ==> p.failure.None? || p.verdict == Some(Success)
  {
    if p.status.None? && r.wait == WaitError then p.(verdict := Some(Failed(Pipe)))
    else
      var status := if p.status.None? && r.wait == Reap then exit else p.status;
      var q := p.(status := status);
      if status.None? || !p.outDone || !p.errDone then q
      else q.(verdict := Some(VerdictOn(p.failure, status.value)))
  }

  // One round: the clock, one read of each stream, one look at the child.
  function ParentRound(p: Parent, r: Round, limit: nat, out: seq<byte>, exit: Option<Exit>): Parent {
    if p.verdict.Some? then p
    else PollChild(ReadErr(ReadOut(CheckClock(p, r), r, limit, out), r), r, exit)
  }

  // ----- the supervisor

  // children: descendants not yet reaped; the leader is the Borg process itself.
  datatype Supervisor = Supervisor(leader: nat, children: set<nat>, leaderOk: bool, stopping: bool, ticks: nat,
                                   exit: Option<Exit>)

  datatype Reaped = Reaped(pid: nat, how: Exit)

  function StartSupervisor(leader: nat): Supervisor {
    Supervisor(leader, {leader}, false, false, 0, None)
  }

  function ReapAll(s: Supervisor, reaped: seq<Reaped>): Supervisor {
    if reaped == [] then s
    else
      var x, before := reaped[|reaped| - 1], ReapAll(s, reaped[..|reaped| - 1]);
      var after := before.(children := before.children - {x.pid});
      if x.pid == s.leader then after.(leaderOk := x.how == Exited(0), stopping := true) else after
  }

  // One round: reap what can be reaped, leave when nothing is left, else watch the control pipe.
  function SupervisorRound(s: Supervisor, reaped: seq<Reaped>, controlOpen: bool): Supervisor {
    if s.exit.Some? then s
    else
      var t := ReapAll(s, reaped);
      if t.children == {} then t.(exit := Some(Exited(if t.leaderOk then 0 else 121)))
      else
        var stopping := t.stopping || !controlOpen;
        t.(stopping := stopping, ticks := if stopping then t.ticks + 1 else t.ticks)
  }

  // ----- the whole

  datatype World = World(parent: Parent, supervisor: Supervisor, out: seq<byte>, closed: bool)

  datatype Event =
    | ParentTurn(round: Round)
    | SupervisorTurn(reaped: seq<Reaped>)
    | Write(bytes: seq<byte>)
    | Close
    | Spawn(pid: nat)
    | SupervisorDies(how: Exit)

  function Start(leader: nat): World {
    World(StartParent(), StartSupervisor(leader), [], false)
  }

  // The end of stdout is seen only once every writer is gone and all was read; only an
  // unreaped child is reaped, once; only descendants spawn descendants, and no pid comes
  // back; a supervisor that dies of anything but leaving its loop does not exit with 0.
  predicate Possible(w: World, e: Event) {
    match e
    case ParentTurn(r) => r.out == End ==> w.closed && w.parent.position == |w.out|
    case SupervisorTurn(reaped) =>
      w.supervisor.exit.None?
      && (forall i :: 0 <= i < |reaped| ==> reaped[i].pid in w.supervisor.children)
      && (forall i, j :: 0 <= i < j < |reaped| ==> reaped[i].pid != reaped[j].pid)
    case Write(_) => !w.closed
    case Close => true
    case Spawn(pid) => w.supervisor.exit.None? && w.supervisor.children != {} && pid != w.supervisor.leader
    case SupervisorDies(how) => w.supervisor.exit.None? && how != Exited(0)
  }

  function Next(w: World, e: Event, limit: nat): World {
    match e
    case ParentTurn(r) => w.(parent := ParentRound(w.parent, r, limit, w.out, w.supervisor.exit))
    case SupervisorTurn(reaped) =>
      w.(supervisor := SupervisorRound(w.supervisor, reaped, w.parent.controlOpen))
    case Write(bytes) => w.(out := w.out + bytes)
    case Close => w.(closed := true)
    case Spawn(pid) => w.(supervisor := w.supervisor.(children := w.supervisor.children + {pid}))
    case SupervisorDies(how) => w.(supervisor := w.supervisor.(exit := Some(how)))
  }

  ghost predicate Run(w: World, events: seq<Event>, limit: nat, end: World)
    decreases |events|
  {
    if events == [] then w == end else Possible(w, events[0]) && Run(Next(w, events[0], limit), events[1..], limit, end)
  }

  // ----- what every run keeps

  ghost predicate ParentSafe(p: Parent, out: seq<byte>, closed: bool, limit: nat) {
    && p.delivered <= out && |p.delivered| <= limit
    && |p.delivered| <= p.position <= |out|
    && (p.failure.None? ==> p.total == |p.delivered| == p.position)
    && (p.failure.None? && p.outDone ==> closed && p.position == |out|)
    && (p.failure.Some? && p.verdict.Some? ==> p.verdict != Some(Success))
    && (p.verdict == Some(Success) ==> p.failure.None? && p.outDone && p.status == Some(Exited(0)))
  }

  ghost predicate SupervisorSafe(s: Supervisor) {
    && (s.leaderOk ==> s.leader !in s.children)
    && (s.exit == Some(Exited(0)) ==> s.leaderOk && s.children == {})
  }

  ghost predicate Safe(w: World, limit: nat) {
    && ParentSafe(w.parent, w.out, w.closed, limit)
    && SupervisorSafe(w.supervisor)
    && (w.parent.status.Some? ==> w.parent.status == w.supervisor.exit)
  }

  lemma ReadStaysSafe(p: Parent, r: Round, limit: nat, out: seq<byte>, closed: bool)
    requires ParentSafe(p, out, closed, limit) && p.verdict.None?
    requires r.out == End ==> closed && p.position == |out|
    ensures ParentSafe(ReadOut(p, r, limit, out), out, closed, limit) && ReadOut(p, r, limit, out).verdict.None?
  {
    if !p.outDone && r.out.Chunk? {
      var chunk := Available(p.position, r.out.size, out);
      assert out[..p.position + |chunk|] == out[..p.position] + chunk;
      if p.failure.None? { assert p.delivered == out[..p.position]; }
      hide Available;
    }
  }

  lemma ErrStaysSafe(p: Parent, r: Round, limit: nat, out: seq<byte>, closed: bool)
    requires ParentSafe(p, out, closed, limit) && p.verdict.None?
    ensures ParentSafe(ReadErr(p, r), out, closed, limit)
  {
  }

  lemma PollStaysSafe(p: Parent, r: Round, limit: nat, out: seq<byte>, closed: bool, exit: Option<Exit>)
    requires ParentSafe(p, out, closed, limit) && p.verdict.None?
    ensures ParentSafe(PollChild(p, r, exit), out, closed, limit)
  {
  }

  lemma ParentStaysSafe(p: Parent, r: Round, limit: nat, out: seq<byte>, closed: bool, exit: Option<Exit>)
    requires ParentSafe(p, out, closed, limit)
    requires r.out == End ==> closed && p.position == |out|
    ensures ParentSafe(ParentRound(p, r, limit, out, exit), out, closed, limit)
  {
    hide ReadOut, ReadErr, PollChild;
    if p.verdict.None? {
      var a := CheckClock(p, r);
      assert ParentSafe(a, out, closed, limit);
      hide CheckClock, ParentSafe;
      ReadStaysSafe(a, r, limit, out, closed);
      ErrStaysSafe(ReadOut(a, r, limit, out), r, limit, out, closed);
      PollStaysSafe(ReadErr(ReadOut(a, r, limit, out), r), r, limit, out, closed, exit);
    }
  }

  lemma {:induction false} ReapKeepsLeader(s: Supervisor, reaped: seq<Reaped>)
    requires SupervisorSafe(s) && s.exit.None?
    ensures SupervisorSafe(ReapAll(s, reaped)) && ReapAll(s, reaped).exit.None? && ReapAll(s, reaped).leader == s.leader
  {
    if reaped != [] { ReapKeepsLeader(s, reaped[..|reaped| - 1]); }
  }

  lemma StatusIsExit(p: Parent, r: Round, limit: nat, out: seq<byte>, exit: Option<Exit>)
    requires p.status.Some? ==> p.status == exit
    ensures ParentRound(p, r, limit, out, exit).status.Some? ==> ParentRound(p, r, limit, out, exit).status == exit
  {
    hide CheckClock, ReadOut, ReadErr, PollChild;
  }

  lemma StepStaysSafe(w: World, e: Event, limit: nat)
    requires Safe(w, limit) && Possible(w, e)
    ensures Safe(Next(w, e, limit), limit)
  {
    match e
    case ParentTurn(r) =>
      ParentStaysSafe(w.parent, r, limit, w.out, w.closed, w.supervisor.exit);
      StatusIsExit(w.parent, r, limit, w.out, w.supervisor.exit);
      hide ParentRound, ParentSafe;
    case SupervisorTurn(reaped) =>
      ReapKeepsLeader(w.supervisor, reaped);
      hide ParentSafe, ReapAll;
    case Write(bytes) => assert w.out <= w.out + bytes;
    case Close =>
    case Spawn(_) =>
    case SupervisorDies(_) =>
  }

  lemma {:induction false} RunStaysSafe(w: World, events: seq<Event>, limit: nat, end: World)
    requires Safe(w, limit) && Run(w, events, limit, end)
    ensures Safe(end, limit)
    decreases |events|
  {
    if events != [] {
      StepStaysSafe(w, events[0], limit);
      RunStaysSafe(Next(w, events[0], limit), events[1..], limit, end);
    }
  }

  // Somewhere in the run the supervisor reaped the leader, which had exited with 0.
  ghost predicate LeaderReaped(events: seq<Event>, leader: nat) {
    exists i :: 0 <= i < |events| && events[i].SupervisorTurn? && Reaped(leader, Exited(0)) in events[i].reaped
  }

  lemma {:induction false} ReapedOk(s: Supervisor, reaped: seq<Reaped>)
    requires ReapAll(s, reaped).leaderOk && !s.leaderOk
    ensures Reaped(s.leader, Exited(0)) in reaped
  {
    if reaped != [] {
      var before, x := reaped[..|reaped| - 1], reaped[|reaped| - 1];
      LeaderStays(s, before);
      if x == Reaped(s.leader, Exited(0)) {
        assert x in reaped;
      } else {
        ReapedOk(s, before);
      }
    }
  }

  lemma {:induction false} LeaderStays(s: Supervisor, reaped: seq<Reaped>)
    ensures ReapAll(s, reaped).leader == s.leader
  {
    if reaped != [] { LeaderStays(s, reaped[..|reaped| - 1]); }
  }

  lemma {:induction false} OkMeansReaped(w: World, events: seq<Event>, limit: nat, end: World)
    requires Run(w, events, limit, end) && !w.supervisor.leaderOk && end.supervisor.leaderOk
    ensures LeaderReaped(events, w.supervisor.leader)
    decreases |events|
  {
    var e, next := events[0], Next(w, events[0], limit);
    hide ParentRound, ReapAll, Possible;
    if e.SupervisorTurn? { LeaderStays(w.supervisor, e.reaped); }
    if next.supervisor.leaderOk {
      ReapedOk(w.supervisor, e.reaped);
    } else {
      OkMeansReaped(next, events[1..], limit, end);
      var i :| 0 <= i < |events| - 1 && events[1..][i].SupervisorTurn?
        && Reaped(w.supervisor.leader, Exited(0)) in events[1..][i].reaped;
      assert events[i + 1] == events[1..][i];
    }
  }

  // On every run the consumer has seen a prefix of stdout within the limit, and success means
  // it has seen all there will ever be, the Borg process was reaped having exited with 0, and
  // the supervisor had nothing left to reap when it left.
  lemma EveryRun(leader: nat, events: seq<Event>, limit: nat, end: World)
    requires Run(Start(leader), events, limit, end)
    ensures end.parent.delivered <= end.out && |end.parent.delivered| <= limit
    ensures end.parent.verdict == Some(Success) ==>
              && end.closed && end.parent.delivered == end.out
              && end.supervisor.exit == Some(Exited(0)) && end.supervisor.leaderOk && end.supervisor.children == {}
              && LeaderReaped(events, leader)
  {
    RunStaysSafe(Start(leader), events, limit, end);
    if end.supervisor.leaderOk { OkMeansReaped(Start(leader), events, limit, end); }
  }

  lemma FailureStays(p: Parent, r: Round, limit: nat, out: seq<byte>, exit: Option<Exit>)
    requires p.failure.Some? && p.verdict.None?
    ensures var q := ParentRound(p, r, limit, out, exit);
            q.failure.Some? && q.delivered == p.delivered && q.verdict != Some(Success) && !q.controlOpen
  {
    hide CheckClock, ReadOut, ReadErr, PollChild;
  }

  // After a failure nothing more is delivered and the verdict, if one is given, is not success.
  lemma {:induction false} NothingAfterFailure(w: World, events: seq<Event>, limit: nat, end: World)
    requires Run(w, events, limit, end) && w.parent.failure.Some? && w.parent.verdict.None?
    ensures end.parent.delivered == w.parent.delivered && end.parent.failure.Some?
    ensures end.parent.verdict != Some(Success)
    decreases |events|
  {
    if events != [] {
      var next := Next(w, events[0], limit);
      if events[0].ParentTurn? {
        FailureStays(w.parent, events[0].round, limit, w.out, w.supervisor.exit);
      }
      hide ParentRound, ReapAll, Possible;
      if next.parent.verdict.None? {
        NothingAfterFailure(next, events[1..], limit, end);
      } else {
        VerdictStays(next, events[1..], limit, end);
      }
    }
  }

  lemma {:induction false} VerdictStays(w: World, events: seq<Event>, limit: nat, end: World)
    requires Run(w, events, limit, end) && w.parent.verdict.Some?
    ensures end.parent == w.parent
    decreases |events|
  {
    if events != [] { VerdictStays(Next(w, events[0], limit), events[1..], limit, end); }
  }

  // ----- every verdict has its cause

  // When a round gives a verdict, and which: an error waiting for the child fails the run;
  // otherwise the verdict waits for the child and for both streams, a failure noted on the way
  // is the verdict, and without one the run succeeded exactly if the child left with 0.
  lemma RoundReads(p: Parent, r: Round, limit: nat, out: seq<byte>, exit: Option<Exit>)
    requires p.verdict.None?
    ensures var q := ParentRound(p, r, limit, out, exit);
            var broken := p.status.None? && r.wait == WaitError;
            && (q.verdict.Some? <==> broken || (q.status.Some? && q.outDone && q.errDone))
            && (broken ==> q.verdict == Some(Failed(Pipe)))
            && (!broken && q.verdict.Some? ==>
                  && (q.verdict == Some(Success) <==> q.failure.None? && q.status == Some(Exited(0)))
                  && (q.failure.Some? ==> q.verdict == Some(Failed(q.failure.value)))
                  && (q.failure.None? && q.status != Some(Exited(0)) ==> q.verdict == Some(Failed(ChildFailed))))
  {
    hide CheckClock, ReadOut, ReadErr;
  }

  // Some round of the run in which the environment did this.
  ghost predicate SomeRound(events: seq<Event>, did: Round -> bool) {
    exists i :: 0 <= i < |events| && events[i].ParentTurn? && did(events[i].round)
  }

  function WasCancelled(): Round -> bool { (r: Round) => r.cancelled }

  function WasExpired(): Round -> bool { (r: Round) => r.expired }

  function WasRejected(): Round -> bool { (r: Round) => r.out.Chunk? && !r.accepted }

  function WasBroken(): Round -> bool { (r: Round) => r.out == Broken || r.err == Broken }

  function WaitFailed(): Round -> bool { (r: Round) => r.wait == WaitError }

  // The failure noted so far goes back to what the environment did.
  ghost predicate Caused(p: Parent, events: seq<Event>, limit: nat) {
    match p.failure
    case None => true
    case Some(Cancelled) => SomeRound(events, WasCancelled())
    case Some(Timeout) => SomeRound(events, WasExpired())
    case Some(OutputLimit) => p.position > limit
    case Some(Consumer) => SomeRound(events, WasRejected())
    case Some(Pipe) => SomeRound(events, WasBroken())
    case Some(ChildFailed) => false
  }

  ghost predicate VerdictCaused(p: Parent, events: seq<Event>) {
    match p.verdict
    case None => true
    case Some(Success) => p.failure.None? && p.status == Some(Exited(0)) && p.outDone && p.errDone
    case Some(Failed(why)) =>
      || p.failure == Some(why)
      || (p.failure.None? && why == ChildFailed && p.status.Some? && p.status != Some(Exited(0)))
      || (why == Pipe && SomeRound(events, WaitFailed()))
  }

  lemma MoreRounds(events: seq<Event>, e: Event, did: Round -> bool)
    ensures SomeRound(events, did) ==> SomeRound(events + [e], did)
    ensures e.ParentTurn? && did(e.round) ==> SomeRound(events + [e], did)
  {
    var more := events + [e];
    if SomeRound(events, did) {
      var i :| 0 <= i < |events| && events[i].ParentTurn? && did(events[i].round);
      assert more[i] == events[i];
    }
    if e.ParentTurn? && did(e.round) { assert more[|events|] == e; }
  }

  lemma MoreOfAll(events: seq<Event>, e: Event)
    ensures SomeRound(events, WasCancelled()) ==> SomeRound(events + [e], WasCancelled())
    ensures SomeRound(events, WasExpired()) ==> SomeRound(events + [e], WasExpired())
    ensures SomeRound(events, WasRejected()) ==> SomeRound(events + [e], WasRejected())
    ensures SomeRound(events, WasBroken()) ==> SomeRound(events + [e], WasBroken())
    ensures SomeRound(events, WaitFailed()) ==> SomeRound(events + [e], WaitFailed())
    ensures e.ParentTurn? && e.round.cancelled ==> SomeRound(events + [e], WasCancelled())
    ensures e.ParentTurn? && e.round.expired ==> SomeRound(events + [e], WasExpired())
    ensures e.ParentTurn? && e.round.out.Chunk? && !e.round.accepted ==> SomeRound(events + [e], WasRejected())
    ensures e.ParentTurn? && (e.round.out == Broken || e.round.err == Broken) ==> SomeRound(events + [e], WasBroken())
    ensures e.ParentTurn? && e.round.wait == WaitError ==> SomeRound(events + [e], WaitFailed())
  {
    hide SomeRound;
    MoreRounds(events, e, WasCancelled());
    MoreRounds(events, e, WasExpired());
    MoreRounds(events, e, WasRejected());
    MoreRounds(events, e, WasBroken());
    MoreRounds(events, e, WaitFailed());
  }

  // What a round that changed the failure to this must have met.
  ghost predicate Explains(r: Round, why: Option<Failure>, position: nat, limit: nat) {
    match why
    case None => false
    case Some(Cancelled) => r.cancelled
    case Some(Timeout) => r.expired
    case Some(OutputLimit) => position > limit
    case Some(Consumer) => r.out.Chunk? && !r.accepted
    case Some(Pipe) => r.out == Broken || r.err == Broken
    case Some(ChildFailed) => false
  }

  lemma ClockReads(p: Parent, r: Round, limit: nat)
    ensures var q := CheckClock(p, r);
            q.position == p.position && q.total == p.total && (q.failure != p.failure ==> Explains(r, q.failure, q.position, limit))
  {
  }

  lemma OutReads(p: Parent, r: Round, limit: nat, out: seq<byte>)
    requires p.failure.None? ==> p.total == p.position
    ensures var q := ReadOut(p, r, limit, out);
            q.position >= p.position && (q.failure != p.failure ==> Explains(r, q.failure, q.position, limit))
  {
    hide Available;
  }

  lemma ErrReads(p: Parent, r: Round, limit: nat)
    ensures var q := ReadErr(p, r);
            q.position == p.position && (q.failure != p.failure ==> Explains(r, q.failure, q.position, limit))
  {
  }

  lemma PollReads(p: Parent, r: Round, exit: Option<Exit>)
    ensures var q := PollChild(p, r, exit); q.position == p.position && q.failure == p.failure
  {
  }

  lemma ExplainsLater(r: Round, why: Option<Failure>, position: nat, later: nat, limit: nat)
    requires Explains(r, why, position, limit) && position <= later
    ensures Explains(r, why, later, limit)
  {
  }

  // What may change the failure in one round, and that the position only grows.
  lemma FailureReads(p: Parent, r: Round, limit: nat, out: seq<byte>, exit: Option<Exit>)
    requires p.verdict.None? && (p.failure.None? ==> p.total == p.position)
    ensures var q := ParentRound(p, r, limit, out, exit);
            q.position >= p.position && (q.failure != p.failure ==> Explains(r, q.failure, q.position, limit))
  {
    hide CheckClock, ReadOut, ReadErr, PollChild, Explains;
    var a := CheckClock(p, r);
    var b := ReadOut(a, r, limit, out);
    var c := ReadErr(b, r);
    ClockReads(p, r, limit);
    if p.failure.Some? { assert a.failure == p.failure; }
    OutReads(a, r, limit, out);
    ErrReads(b, r, limit);
    PollReads(c, r, exit);
    if b.failure == a.failure && a.failure != p.failure { ExplainsLater(r, a.failure, a.position, b.position, limit); }
  }

  lemma CausedLater(p: Parent, events: seq<Event>, e: Event, limit: nat)
    requires Caused(p, events, limit)
    ensures Caused(p, events + [e], limit)
    ensures VerdictCaused(p, events) ==> VerdictCaused(p, events + [e])
  {
    MoreOfAll(events, e);
    hide SomeRound;
  }

  lemma RoundStaysCaused(p: Parent, events: seq<Event>, r: Round, limit: nat, out: seq<byte>, exit: Option<Exit>)
    requires p.verdict.None? && (p.failure.None? ==> p.total == p.position) && Caused(p, events, limit)
    ensures Caused(ParentRound(p, r, limit, out, exit), events + [ParentTurn(r)], limit)
  {
    MoreOfAll(events, ParentTurn(r));
    FailureReads(p, r, limit, out, exit);
    hide ParentRound, SomeRound;
  }

  lemma RoundVerdictCaused(p: Parent, events: seq<Event>, r: Round, limit: nat, out: seq<byte>, exit: Option<Exit>)
    requires p.verdict.None?
    ensures VerdictCaused(ParentRound(p, r, limit, out, exit), events + [ParentTurn(r)])
  {
    MoreOfAll(events, ParentTurn(r));
    RoundReads(p, r, limit, out, exit);
    hide ParentRound, SomeRound;
  }

  lemma StepStaysCaused(w: World, events: seq<Event>, e: Event, limit: nat)
    requires Safe(w, limit) && Possible(w, e) && Caused(w.parent, events, limit) && VerdictCaused(w.parent, events)
    ensures Caused(Next(w, e, limit).parent, events + [e], limit) && VerdictCaused(Next(w, e, limit).parent, events + [e])
  {
    CausedLater(w.parent, events, e, limit);
    if e.ParentTurn? && w.parent.verdict.None? {
      RoundStaysCaused(w.parent, events, e.round, limit, w.out, w.supervisor.exit);
      RoundVerdictCaused(w.parent, events, e.round, limit, w.out, w.supervisor.exit);
    }
    hide CheckClock, ReadOut, ReadErr, PollChild, ReapAll, SomeRound, Caused, VerdictCaused;
  }

  lemma {:induction false} RunStaysCaused(w: World, before: seq<Event>, events: seq<Event>, limit: nat, end: World)
    requires Safe(w, limit) && Run(w, events, limit, end) && Caused(w.parent, before, limit) && VerdictCaused(w.parent, before)
    ensures Caused(end.parent, before + events, limit) && VerdictCaused(end.parent, before + events)
    decreases |events|
  {
    if events == [] {
      assert before + events == before;
    } else {
      var e := events[0];
      StepStaysSafe(w, e, limit);
      StepStaysCaused(w, before, e, limit);
      hide Safe, Caused, VerdictCaused, Possible, Next;
      RunStaysCaused(Next(w, e, limit), before + [e], events[1..], limit, end);
      assert before + [e] + events[1..] == before + events;
    }
  }

  // No run fails without a cause: cancelled, timed out, over the output limit, refused by the
  // consumer, a stream or wait that broke, or a child that did not leave with 0.
  lemma NoFailureWithoutCause(leader: nat, events: seq<Event>, limit: nat, end: World, why: Failure)
    requires Run(Start(leader), events, limit, end) && end.parent.verdict == Some(Failed(why))
    ensures match why
            case Cancelled => SomeRound(events, WasCancelled())
            case Timeout => SomeRound(events, WasExpired())
            case OutputLimit => |end.out| > limit
            case Consumer => SomeRound(events, WasRejected())
            case Pipe => SomeRound(events, WasBroken()) || SomeRound(events, WaitFailed())
            case ChildFailed => end.supervisor.exit.Some? && end.supervisor.exit != Some(Exited(0))
  {
    RunStaysSafe(Start(leader), events, limit, end);
    RunStaysCaused(Start(leader), [], events, limit, end);
    assert [] + events == events;
    hide SomeRound, Run;
  }

  // An undisturbed run: the bytes arrive in one piece, the child leaves with 0 and is reaped,
  // and the next look finds both streams ended.
  function Undisturbed(leader: nat, out: seq<byte>): seq<Event> {
    [Write(out), Close, ParentTurn(Round(false, false, Chunk(|out|), true, End, NotYet)),
     SupervisorTurn([Reaped(leader, Exited(0))]), ParentTurn(Round(false, false, End, true, Nothing, Reap))]
  }

  // Success is within reach for every output within the limit, and delivers all of it.
  lemma UndisturbedSucceeds(leader: nat, out: seq<byte>, limit: nat) returns (end: World)
    requires |out| <= limit
    ensures Run(Start(leader), Undisturbed(leader, out), limit, end)
    ensures end.parent.verdict == Some(Success) && end.parent.delivered == out == end.out
  {
    var es := Undisturbed(leader, out);
    var w0 := Start(leader);
    var w1 := Next(w0, es[0], limit);
    var w2 := Next(w1, es[1], limit);
    var w3 := Next(w2, es[2], limit);
    var w4 := Next(w3, es[3], limit);
    end := Next(w4, es[4], limit);
    assert w2.out == out && w2.closed && w2.parent == StartParent();
    assert Available(0, |out|, out) == out;
    assert w3.parent.delivered == out && w3.parent.failure == None && w3.parent.position == |out| && w3.parent.errDone;
    assert ReapAll(w3.supervisor, [Reaped(leader, Exited(0))][..0]) == w3.supervisor;
    assert ({leader} - {leader}) == {};
    assert w4.supervisor.exit == Some(Exited(0));
    assert es[1..][1..][1..][1..][1..] == [];
    RunFive(w0, es, limit, w1, w2, w3, w4, end);
  }

  lemma RunFive(w0: World, es: seq<Event>, limit: nat, w1: World, w2: World, w3: World, w4: World, w5: World)
    requires |es| == 5 && Possible(w0, es[0]) && Possible(w1, es[1]) && Possible(w2, es[2]) && Possible(w3, es[3]) && Possible(w4, es[4])
    requires w1 == Next(w0, es[0], limit) && w2 == Next(w1, es[1], limit) && w3 == Next(w2, es[2], limit)
    requires w4 == Next(w3, es[3], limit) && w5 == Next(w4, es[4], limit)
    ensures Run(w0, es, limit, w5)
  {
    hide Possible, Next;
    assert Run(w5, es[5..], limit, w5);
    assert es[4..][1..] == es[5..] && Run(w4, es[4..], limit, w5);
    assert es[3..][1..] == es[4..] && Run(w3, es[3..], limit, w5);
    assert es[2..][1..] == es[3..] && Run(w2, es[2..], limit, w5);
    assert es[1..][1..] == es[2..] && Run(w1, es[1..], limit, w5);
  }

  // ----- the loops

  // What one round of the parent finds: the answers, the bytes written so far, the exit to reap.
  datatype Turn = Turn(round: Round, out: seq<byte>, exit: Option<Exit>)

  ghost function ParentRuns(turns: seq<Turn>, limit: nat): Parent {
    if turns == [] then StartParent()
    else
      var t := turns[|turns| - 1];
      ParentRound(ParentRuns(turns[..|turns| - 1], limit), t.round, limit, t.out, t.exit)
  }

  lemma {:induction false} ParentRunsStick(turns: seq<Turn>, i: nat, limit: nat)
    requires i <= |turns| && ParentRuns(turns[..i], limit).verdict.Some?
    ensures ParentRuns(turns, limit) == ParentRuns(turns[..i], limit)
  {
    if i < |turns| {
      assert turns[..|turns| - 1][..i] == turns[..i];
      ParentRunsStick(turns[..|turns| - 1], i, limit);
    } else {
      assert turns[..i] == turns;
    }
  }

  // The parent's hold on the supervisor: a pipe whose closing cancels, and the status once reaped.
  class Handle {
    var controlOpen: bool
    var status: Option<Exit>

    constructor ()
      ensures controlOpen && status == None
    {
      controlOpen, status := true, None;
    }

    method Cancel()
      modifies this`controlOpen
      ensures !controlOpen
    {
      controlOpen := false;
    }

    method Poll(wait: Wait, exit: Option<Exit>) returns (r: Result<Option<Exit>>)
      modifies this`status
      ensures r == Err <==> old(status).None? && wait == WaitError
      ensures status == if old(status).None? && wait == Reap then exit else old(status)
      ensures r.Ok? ==> r.value == status
    {
      if status.None? {
        if wait == WaitError { return Err; }
        if wait == Reap { status := exit; }
      }
      return Ok(status);
    }
  }

  // The clock and the cancel flag; on any failure the control pipe is closed.
  method WatchClock(p: Parent, r: Round, supervisor: Handle) returns (q: Parent)
    requires p.controlOpen == supervisor.controlOpen
    modifies supervisor`controlOpen
    ensures q == CheckClock(p, r) && q.controlOpen == supervisor.controlOpen
  {
    q := p;
    if p.failure.None? {
      if r.cancelled { q := q.(failure := Some(Cancelled)); }
      else if r.expired { q := q.(failure := Some(Timeout)); }
    }
    if q.failure.Some? { supervisor.Cancel(); }
    q := q.(controlOpen := supervisor.controlOpen);
  }

  method ReadStdout(p: Parent, r: Round, limit: nat, out: seq<byte>) returns (q: Parent)
    ensures q == ReadOut(p, r, limit, out)
  {
    q := p;
    if p.outDone { return; }
    match r.out
    case End => q := q.(outDone := true);
    case Nothing =>
    case Broken => q := q.(failure := Some(Pipe), outDone := true);
    case Chunk(n) =>
      var chunk := Available(p.position, n, out);
      q := q.(position := p.position + |chunk|);
      if q.failure.None? && chunk != [] {
        q := q.(total := q.total + |chunk|);
        if q.total > limit {
          q := q.(failure := Some(OutputLimit));
        } else {
          q := q.(delivered := q.delivered + chunk);
          if !r.accepted { q := q.(failure := Some(Consumer)); }
        }
      }
  }

  method ReadStderr(p: Parent, r: Round) returns (q: Parent)
    ensures q == ReadErr(p, r)
  {
    q := p;
    if p.errDone { return; }
    match r.err
    case End => q := q.(errDone := true);
    case Broken => q := q.(failure := Some(Pipe), errDone := true);
    case Nothing =>
    case Chunk(_) =>
  }

  method LookAtChild(p: Parent, r: Round, exit: Option<Exit>, supervisor: Handle) returns (q: Parent)
    requires p.status == supervisor.status
    modifies supervisor`status
    ensures q == PollChild(p, r, exit)
    ensures q.verdict.None? ==> q.status == supervisor.status
  {
    q := p;
    var polled := supervisor.Poll(r.wait, exit);
    if polled.Err? { return q.(verdict := Some(Failed(Pipe))); }
    q := q.(status := polled.value);
    if polled.value.Some? && p.outDone && p.errDone {
      q := q.(verdict := Some(VerdictOn(p.failure, polled.value.value)));
    }
  }

  method RunParent(turns: seq<Turn>, limit: nat) returns (end: Parent)
    ensures end == ParentRuns(turns, limit)
  {
    var supervisor := new Handle();
    end := StartParent();
    assert turns[..0] == [];
    hide CheckClock, ReadOut, ReadErr, PollChild;
    for i := 0 to |turns|
      invariant end == ParentRuns(turns[..i], limit) && end.verdict.None?
      invariant end.status == supervisor.status && end.controlOpen == supervisor.controlOpen
    {
      var turn := turns[i];
      assert turns[..i + 1][..i] == turns[..i];
      end := WatchClock(end, turn.round, supervisor);
      end := ReadStdout(end, turn.round, limit, turn.out);
      end := ReadStderr(end, turn.round);
      end := LookAtChild(end, turn.round, turn.exit, supervisor);
      if end.verdict.Some? {
        ParentRunsStick(turns, i + 1, limit);
        return;
      }
    }
    assert turns[..|turns|] == turns;
  }

  // What one round of the supervisor finds: who can be reaped, and the descendants beforehand.
  datatype Watch = Watch(reaped: seq<Reaped>, children: set<nat>, controlOpen: bool)

  ghost function SupervisorRuns(leader: nat, watches: seq<Watch>): Supervisor {
    if watches == [] then StartSupervisor(leader)
    else
      var w, s := watches[|watches| - 1], SupervisorRuns(leader, watches[..|watches| - 1]);
      if s.exit.Some? then s else SupervisorRound(s.(children := w.children), w.reaped, w.controlOpen)
  }

  lemma {:induction false} SupervisorRunsStick(leader: nat, watches: seq<Watch>, i: nat)
    requires i <= |watches| && SupervisorRuns(leader, watches[..i]).exit.Some?
    ensures SupervisorRuns(leader, watches) == SupervisorRuns(leader, watches[..i])
  {
    if i < |watches| {
      assert watches[..|watches| - 1][..i] == watches[..i];
      SupervisorRunsStick(leader, watches[..|watches| - 1], i);
    } else {
      assert watches[..i] == watches;
    }
  }

  method Supervise(leader: nat, watches: seq<Watch>) returns (end: Supervisor)
    ensures end == SupervisorRuns(leader, watches)
  {
    var children, leaderOk, stopping, ticks := {leader}, false, false, 0;
    for i := 0 to |watches|
      invariant SupervisorRuns(leader, watches[..i]) == Supervisor(leader, children, leaderOk, stopping, ticks, None)
    {
      var w := watches[i];
      assert watches[..i + 1][..i] == watches[..i];
      ghost var start := SupervisorRuns(leader, watches[..i]).(children := w.children);
      children := w.children;
      assert w.reaped[..0] == [];
      for k := 0 to |w.reaped|
        invariant ReapAll(start, w.reaped[..k]) == Supervisor(leader, children, leaderOk, stopping, ticks, None)
      {
        assert w.reaped[..k + 1][..k] == w.reaped[..k];
        children := children - {w.reaped[k].pid};
        if w.reaped[k].pid == leader {
          leaderOk, stopping := w.reaped[k].how == Exited(0), true;
        }
      }
      assert w.reaped[..|w.reaped|] == w.reaped;
      if children == {} {
        SupervisorRunsStick(leader, watches, i + 1);
        return Supervisor(leader, children, leaderOk, stopping, ticks, Some(Exited(if leaderOk then 0 else 121)));
      }
      if !w.controlOpen { stopping := true; }
      if stopping { ticks := ticks + 1; }
    }
    assert watches[..|watches|] == watches;
    return Supervisor(leader, children, leaderOk, stopping, ticks, None);
  }
}
