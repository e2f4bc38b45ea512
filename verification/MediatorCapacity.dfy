/**
 * The lock-free permit counter and the bounded executor behind it
 * (crates/henosis-component-host/src/lib.rs). One action is one atomic operation of one thread, so a
 * sequence of actions is an interleaving. The limit is a parameter: the mediator executor has four workers
 * and a queue of four, and the invocation gate runs the same acquire loop with its own limit.
 */
module MediatorCapacity {
  import opened Base

  datatype Caller =
    | Idle
    | Trying(observed: int)
    | Holding
    | Waiting

  /** A worker's job: whether its result has been sent. Its permit is dropped only after that. */
  datatype Work = Work(replied: bool)

  datatype State = State(
    limit: nat, active: int, callers: map<nat, Caller>, queue: seq<nat>, running: map<nat, Work>, connected: bool)

  datatype Action =
    | Load(caller: nat)
    | Reject(caller: nat)
    | Exchange(caller: nat, spurious: bool)
    | Send(caller: nat)
    | Release(caller: nat)
    | StopWaiting(caller: nat)
    | Take(worker: nat)
    | Reply(worker: nat)
    | Finish(worker: nat)
    | Disconnect
    | DropQueued

  function At(s: State, c: nat): Caller {
    if c in s.callers then s.callers[c] else Idle
  }

  function Move(s: State, c: nat, to: Caller): State {
    s.(callers := s.callers[c := to])
  }

  /** `fetch_sub(1)`: the machine word wraps. */
  function Drop(s: State): State {
    s.(active := (s.active - 1) % WORD)
  }

  predicate QueueFull(s: State) {
    |s.queue| >= s.limit
  }

  /** One atomic step; a step that is not enabled changes nothing. */
  function Next(s: State, a: Action): State {
    match a
    case Load(c) => if At(s, c).Idle? then Move(s, c, Trying(s.active)) else s
    case Reject(c) => if At(s, c).Trying? && At(s, c).observed >= s.limit then Move(s, c, Idle) else s
    case Exchange(c, spurious) =>
      if !At(s, c).Trying? || At(s, c).observed >= s.limit then s
      else if s.active == At(s, c).observed && !spurious then Move(s.(active := (s.active + 1) % WORD), c, Holding)
      else Move(s, c, Trying(s.active))
    case Send(c) =>
      if !At(s, c).Holding? then s
      else if !s.connected || QueueFull(s) then Move(Drop(s), c, Idle)
      else Move(s.(queue := s.queue + [c]), c, Waiting)
    case Release(c) => if At(s, c).Holding? then Move(Drop(s), c, Idle) else s
    case StopWaiting(c) => if At(s, c).Waiting? then Move(s, c, Idle) else s
    case Take(w) =>
      if s.connected && w < s.limit && w !in s.running && s.queue != [] then
        s.(queue := s.queue[1..], running := s.running[w := Work(false)])
      else s
    case Reply(w) => if w in s.running then s.(running := s.running[w := Work(true)]) else s
    case Finish(w) => if w in s.running then Drop(s.(running := s.running - {w})) else s
    case Disconnect => s.(connected := false)
    case DropQueued => if !s.connected && s.queue != [] then Drop(s.(queue := s.queue[1..])) else s
  }

  function Start(limit: nat): State {
    State(limit, 0, map[], [], map[], true)
  }

  function RunFrom(limit: nat, acts: seq<Action>): State {
    if acts == [] then Start(limit) else Next(RunFrom(limit, acts[..|acts| - 1]), acts[|acts| - 1])
  }

  // ----- live permits --------------------------------------------------------------------------------------

  function Holders(callers: map<nat, Caller>): set<nat> {
    set c | c in callers && callers[c].Holding?
  }

  /** Permits live in callers between acquiring and sending, in queued jobs and in running jobs. */
  function Live(s: State): nat {
    |Holders(s.callers)| + |s.queue| + |s.running|
  }

  ghost predicate CapacityInv(s: State) {
    s.active == Live(s) && Live(s) <= s.limit && forall w :: w in s.running ==> w < s.limit
  }

  /** How many holders a caller's move adds. */
  function Delta(from: Caller, to: Caller): int {
    if from.Holding? == to.Holding? then 0 else if to.Holding? then 1 else -1
  }

  lemma MoveHolders(callers: map<nat, Caller>, c: nat, to: Caller)
    ensures var from := if c in callers then callers[c] else Idle;
      |Holders(callers[c := to])| == |Holders(callers)| + Delta(from, to)
  {
    var rest := Holders(callers) - {c};
    HolderSplit(callers, c);
    HolderSplit(callers[c := to], c);
    assert Holders(callers[c := to]) - {c} == rest;
  }

  lemma HolderSplit(callers: map<nat, Caller>, c: nat)
    ensures |Holders(callers)| == |Holders(callers) - {c}| + if c in callers && callers[c].Holding? then 1 else 0
  {
    var all := Holders(callers);
    if c in all {
      assert all == (all - {c}) + {c};
    } else {
      assert all == all - {c};
    }
  }

  lemma RunningChange(running: map<nat, Work>, w: nat, x: Work)
    ensures w in running ==> |running - {w}| == |running| - 1 && |running[w := x]| == |running|
    ensures w !in running ==> |running[w := x]| == |running| + 1
  {
    if w in running {
      assert running == (running - {w})[w := running[w]];
      assert running[w := x] == (running - {w})[w := x];
    }
  }

  ghost predicate Kept(s: State, t: State) {
    CapacityInv(t) && t.limit == s.limit && s.active - 1 <= t.active <= s.active + 1
  }

  /** Dropping a live permit does not wrap. */
  lemma DropExact(s: State)
    requires 0 < s.active < WORD
    ensures Drop(s) == s.(active := s.active - 1)
  {
  }

  /** A caller's step: what it does to the counter it also does to the live permits. */
  lemma CallerStep(s: State, a: Action, c: nat)
    requires CapacityInv(s) && s.limit < WORD
    requires a in {Load(c), Reject(c), Release(c), StopWaiting(c), Send(c), Exchange(c, true), Exchange(c, false)}
    ensures Kept(s, Next(s, a))
  {
    hide Holders;
    hide Drop;
    var from, to := At(s, c), At(Next(s, a), c);
    MoveHolders(s.callers, c, Idle);
    assert from.Holding? ==> Live(s) >= 1;
    if from.Holding? { DropExact(s); }
    MoveHolders(s.callers, c, to);
    assert Next(s, a).callers == s.callers || Next(s, a).callers == s.callers[c := to];
  }

  lemma TakeStep(s: State, w: nat)
    requires CapacityInv(s)
    ensures Kept(s, Next(s, Take(w)))
  {
    hide Holders;
    RunningChange(s.running, w, Work(false));
  }

  lemma ReplyStep(s: State, w: nat)
    requires CapacityInv(s)
    ensures Kept(s, Next(s, Reply(w)))
  {
    hide Holders;
    RunningChange(s.running, w, Work(true));
  }

  lemma FinishStep(s: State, w: nat)
    requires CapacityInv(s) && s.limit < WORD
    ensures Kept(s, Next(s, Finish(w)))
  {
    hide Holders;
    hide Drop;
    if w in s.running {
      RunningChange(s.running, w, Work(true));
      DropExact(s.(running := s.running - {w}));
    }
  }

  lemma QueueStep(s: State, a: Action)
    requires CapacityInv(s) && s.limit < WORD && (a.Disconnect? || a.DropQueued?)
    ensures Kept(s, Next(s, a))
  {
    hide Holders;
    hide Drop;
    if s.queue != [] { DropExact(s.(queue := s.queue[1..])); }
  }

  /** Every atomic step keeps the count exact, and moves it by at most one. */
  lemma StepKeepsCapacity(s: State, a: Action)
    requires CapacityInv(s) && s.limit < WORD
    ensures Kept(s, Next(s, a))
  {
    hide CapacityInv;
    hide Next;
    match a {
      case Load(c) => CallerStep(s, a, c);
      case Reject(c) => CallerStep(s, a, c);
      case Exchange(c, spurious) => CallerStep(s, a, c);
      case Send(c) => CallerStep(s, a, c);
      case Release(c) => CallerStep(s, a, c);
      case StopWaiting(c) => CallerStep(s, a, c);
      case Take(w) => TakeStep(s, w);
      case Reply(w) => ReplyStep(s, w);
      case Finish(w) => FinishStep(s, w);
      case _ => QueueStep(s, a);
    }
  }

  /** In every interleaving the counter is the number of live permits and never exceeds the limit. */
  lemma {:induction false} EveryInterleaving(limit: nat, acts: seq<Action>)
    requires limit < WORD
    ensures CapacityInv(RunFrom(limit, acts)) && RunFrom(limit, acts).limit == limit
    decreases |acts|
  {
    if acts == [] {
      assert Holders(map[]) == {};
    } else {
      hide Next;
      hide CapacityInv;
      EveryInterleaving(limit, acts[..|acts| - 1]);
      StepKeepsCapacity(RunFrom(limit, acts[..|acts| - 1]), acts[|acts| - 1]);
    }
  }

  /** A caller that holds a permit always finds room in the queue: only a dead receiver can refuse it. */
  lemma QueueNeverFull(limit: nat, acts: seq<Action>, c: nat)
    requires limit < WORD && At(RunFrom(limit, acts), c).Holding?
    ensures !QueueFull(RunFrom(limit, acts))
    ensures RunFrom(limit, acts).connected ==> At(Next(RunFrom(limit, acts), Send(c)), c).Waiting?
  {
    EveryInterleaving(limit, acts);
    hide RunFrom;
    var s := RunFrom(limit, acts);
    MoveHolders(s.callers, c, Idle);
  }

  /** Every drop finds a positive counter, so `fetch_sub` never wraps. */
  lemma NoUnderflow(limit: nat, acts: seq<Action>, a: Action)
    requires limit < WORD
    ensures var s := RunFrom(limit, acts); var t := Next(s, a); s.active - 1 <= t.active <= s.active + 1 && 0 <= t.active <= limit
  {
    EveryInterleaving(limit, acts);
    hide RunFrom;
    var s := RunFrom(limit, acts);
    StepKeepsCapacity(s, a);
  }

  /** The workers never outnumber the limit, and no permit leaks: with nothing in flight the counter is zero. */
  lemma NothingLeaks(limit: nat, acts: seq<Action>)
    requires limit < WORD
    ensures var s := RunFrom(limit, acts);
      && |s.running| + |s.queue| <= limit
      && (s.queue == [] && s.running == map[] && (forall c :: c in s.callers ==> !s.callers[c].Holding?) ==> s.active == 0)
  {
    EveryInterleaving(limit, acts);
    hide RunFrom;
    var s := RunFrom(limit, acts);
    if forall c :: c in s.callers ==> !s.callers[c].Holding? {
      assert Holders(s.callers) == {};
    }
  }

  /** What a caller observed was the true number of live permits at some instant of the run. */
  ghost predicate SeenBefore(limit: nat, acts: seq<Action>, seen: int) {
    exists k :: 0 <= k <= |acts| && Live(RunFrom(limit, acts[..k])) == seen
  }

  lemma {:induction false} ObservedWasTrue(limit: nat, acts: seq<Action>, c: nat)
    requires limit < WORD && At(RunFrom(limit, acts), c).Trying?
    ensures SeenBefore(limit, acts, At(RunFrom(limit, acts), c).observed)
    decreases |acts|
  {
    if acts != [] {
      var n := |acts| - 1;
      var before := acts[..n];
      var s, t := RunFrom(limit, before), RunFrom(limit, acts);
      EveryInterleaving(limit, before);
      ObservationSource(s, acts[n], c);
      if At(s, c) == At(t, c) {
        ObservedWasTrue(limit, before, c);
        var k :| 0 <= k <= n && Live(RunFrom(limit, before[..k])) == At(t, c).observed;
        assert before[..k] == acts[..k];
      } else {
        assert acts[..n] == before && Live(RunFrom(limit, acts[..n])) == At(t, c).observed;
      }
    }
  }

  /** A call is refused only if at some instant of the run every slot really was taken. */
  lemma RefusalIsJustified(limit: nat, acts: seq<Action>, c: nat)
    requires limit < WORD && At(RunFrom(limit, acts), c).Trying? && At(Next(RunFrom(limit, acts), Reject(c)), c).Idle?
    ensures SeenBefore(limit, acts, limit)
  {
    ObservedWasTrue(limit, acts, c);
    var k :| 0 <= k <= |acts| && Live(RunFrom(limit, acts[..k])) == At(RunFrom(limit, acts), c).observed;
    EveryInterleaving(limit, acts);
    EveryInterleaving(limit, acts[..k]);
    hide RunFrom;
    assert Live(RunFrom(limit, acts[..k])) == limit;
  }

  lemma ObservationSource(s: State, a: Action, c: nat)
    requires CapacityInv(s)
    ensures var t := Next(s, a); At(t, c).Trying? && At(t, c) != At(s, c) ==> At(t, c).observed == Live(s)
  {
    hide Holders;
  }

  // ----- a call runs through ----------------------------------------------------------------------------------

  /** The loop of `try_acquire` grants: below the limit, an undisturbed exchange gives the caller a permit. */
  lemma ExchangeGrants(s: State, c: nat)
    requires At(s, c) == Trying(s.active) && 0 <= s.active < s.limit < WORD
    ensures var n := Next(s, Exchange(c, false)); At(n, c) == Holding && n.active == s.active + 1 && n.queue == s.queue && n.running == s.running
  {
  }

  /** A disturbed exchange observes the current value and changes nothing else. */
  lemma ExchangeRetries(s: State, c: nat, spurious: bool)
    requires At(s, c).Trying? && At(s, c).observed < s.limit && (spurious || s.active != At(s, c).observed)
    ensures Next(s, Exchange(c, spurious)) == s.(callers := s.callers[c := Trying(s.active)])
  {
  }

  /** One call from its first load to the return of its permit. */
  function CallThrough(s: State, c: nat, w: nat): State {
    Next(Next(Next(Next(Next(Next(Next(s, Load(c)), Exchange(c, false)), Send(c)), Take(w)), Reply(w)), Finish(w)), StopWaiting(c))
  }

  /**
   * Whenever a slot and a worker are free and nothing is queued, an undisturbed call is granted, sent, executed and
   * answered, and its permit returns: the executor is exactly as it was.
   */
  lemma CallCompletes(s: State, c: nat, w: nat)
    requires CapacityInv(s) && s.limit < WORD && s.connected && s.queue == [] && w < s.limit && w !in s.running
    requires At(s, c) == Idle && Live(s) < s.limit
    ensures var n := CallThrough(s, c, w); n == s.(callers := s.callers[c := Idle])
    ensures var sent := Next(Next(Next(s, Load(c)), Exchange(c, false)), Send(c)); sent.queue == [c] && At(sent, c) == Waiting && sent.active == s.active + 1
    ensures var done := Next(Next(Next(Next(Next(s, Load(c)), Exchange(c, false)), Send(c)), Take(w)), Reply(w));
      done.queue == [] && w in done.running && done.running[w] == Work(true) && At(done, c) == Waiting
  {
    assert 0 <= s.active < s.limit;
    hide CapacityInv;
    hide Live;
    var s1 := s.(callers := s.callers[c := Trying(s.active)]);
    var s2 := s.(active := s.active + 1, callers := s.callers[c := Holding]);
    var s3 := s.(active := s.active + 1, callers := s.callers[c := Waiting], queue := [c]);
    var s5 := s.(active := s.active + 1, callers := s.callers[c := Waiting], running := s.running[w := Work(true)]);
    Granted(s, c, s1, s2);
    SentAndTaken(s, c, w, s2, s3, s5);
    FinishReturns(s5, s, w);
    assert Next(s5, Finish(w)) == s.(callers := s.callers[c := Waiting]);
  }

  lemma Granted(s: State, c: nat, s1: State, s2: State)
    requires At(s, c) == Idle && 0 <= s.active < s.limit < WORD
    requires s1 == s.(callers := s.callers[c := Trying(s.active)]) && s2 == s.(active := s.active + 1, callers := s.callers[c := Holding])
    ensures Next(s, Load(c)) == s1 && Next(s1, Exchange(c, false)) == s2
  {
    assert s.callers[c := Trying(s.active)][c := Holding] == s.callers[c := Holding];
  }

  lemma SentAndTaken(s: State, c: nat, w: nat, s2: State, s3: State, s5: State)
    requires s.connected && s.queue == [] && w < s.limit && w !in s.running && s2 == s.(active := s.active + 1, callers := s.callers[c := Holding])
    requires s3 == s.(active := s.active + 1, callers := s.callers[c := Waiting], queue := [c])
    requires s5 == s.(active := s.active + 1, callers := s.callers[c := Waiting], running := s.running[w := Work(true)])
    ensures Next(s2, Send(c)) == s3 && Next(Next(s3, Take(w)), Reply(w)) == s5
  {
    assert s.callers[c := Holding][c := Waiting] == s.callers[c := Waiting];
    var s4 := s.(active := s.active + 1, callers := s.callers[c := Waiting], running := s.running[w := Work(false)]);
    assert [c][1..] == [];
    assert Next(s3, Take(w)) == s4;
    assert s.running[w := Work(false)][w := Work(true)] == s.running[w := Work(true)];
  }

  lemma FinishReturns(s: State, before: State, w: nat)
    requires s.active == before.active + 1 && 0 <= before.active < before.limit < WORD && w !in before.running && s.running == before.running[w := Work(true)]
    ensures Next(s, Finish(w)) == s.(active := before.active, running := before.running)
  {
    assert s.running - {w} == before.running;
  }

  // ----- refusal and shutdown ------------------------------------------------------------------------------------

  /** With every slot taken, an undisturbed call is refused and leaves no trace; no exchange helps it. */
  lemma FullMeansRefused(s: State, c: nat, spurious: bool)
    requires CapacityInv(s) && At(s, c) == Idle && Live(s) == s.limit
    ensures var n := Next(s, Load(c)); Next(n, Exchange(c, spurious)) == n && Next(n, Reject(c)) == s.(callers := s.callers[c := Idle])
  {
    hide Holders;
    assert s.callers[c := Trying(s.active)][c := Idle] == s.callers[c := Idle];
  }

  /** A permit that is not handed to a worker is returned at once: on an early exit, or when the receiver is gone. */
  lemma PermitReturns(s: State, c: nat)
    requires CapacityInv(s) && s.limit < WORD && At(s, c) == Holding
    ensures var back := s.(active := s.active - 1, callers := s.callers[c := Idle]);
      Next(s, Release(c)) == back && (!s.connected ==> Next(s, Send(c)) == back)
  {
    HolderSplit(s.callers, c);
    DropExact(s);
    hide Drop;
    hide Holders;
  }

  function DropAll(s: State, k: nat): State {
    if k == 0 then s else Next(DropAll(s, k - 1), DropQueued)
  }

  /** Disconnecting and dropping what is queued returns exactly those permits; no worker takes a job any more. */
  lemma {:induction false} ShutdownReturns(s: State, k: nat, w: nat)
    requires CapacityInv(s) && s.limit < WORD && k <= |s.queue|
    ensures var d := DropAll(Next(s, Disconnect), k);
      d == s.(connected := false, queue := s.queue[k..], active := s.active - k) && Next(d, Take(w)) == d
    decreases k
  {
    hide Holders;
    if k > 0 {
      ShutdownReturns(s, k - 1, w);
      var d := DropAll(Next(s, Disconnect), k - 1);
      DropExact(d.(queue := d.queue[1..]));
      assert s.queue[k - 1..][1..] == s.queue[k..];
    }
  }

  // ----- order ------------------------------------------------------------------------------------------------

  /** The callers whose jobs were queued, in order. */
  ghost function SentIn(limit: nat, acts: seq<Action>): seq<nat> {
    if acts == [] then []
    else
      var n := |acts| - 1;
      var s := RunFrom(limit, acts[..n]);
      SentIn(limit, acts[..n]) + if acts[n].Send? && |Next(s, acts[n]).queue| > |s.queue| then [acts[n].caller] else []
  }

  /** The oldest queued jobs at the instants at which a job left the queue. */
  ghost function ServedIn(limit: nat, acts: seq<Action>): seq<nat> {
    if acts == [] then []
    else
      var n := |acts| - 1;
      var s := RunFrom(limit, acts[..n]);
      ServedIn(limit, acts[..n]) + if 0 <= |Next(s, acts[n]).queue| < |s.queue| then [s.queue[0]] else []
  }

  /** Over every interleaving, jobs leave the queue in the order in which they entered it, and none is lost or added. */
  lemma {:induction false} FirstInFirstOut(limit: nat, acts: seq<Action>)
    ensures SentIn(limit, acts) == ServedIn(limit, acts) + RunFrom(limit, acts).queue
    decreases |acts|
  {
    if acts != [] {
      var n := |acts| - 1;
      FirstInFirstOut(limit, acts[..n]);
      QueueMoves(RunFrom(limit, acts[..n]), acts[n]);
      hide Next;
    }
  }

  lemma QueueMoves(s: State, a: Action)
    ensures var q := Next(s, a).queue;
      || q == s.queue
      || (a.Send? && q == s.queue + [a.caller])
      || (s.queue != [] && s.queue == [s.queue[0]] + q)
  {
    hide Drop;
    assert s.queue != [] ==> s.queue == [s.queue[0]] + s.queue[1..];
    DropKeepsQueue();
  }

  lemma DropKeepsQueue()
    ensures forall x: State :: Drop(x).queue == x.queue
  {
  }
}
