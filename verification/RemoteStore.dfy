/** The remote-first key-value store, as interleaved steps of its operations.

    A write or removal waits for the lock of its key, tries the remote store until it succeeds, fails for
    good or is abandoned at shutdown, then mirrors to the local store and releases the lock. */
module RemoteStore {
  import opened Wrappers

  type Key = string
  type Contents = map<Key, seq<int>>

  const INITIAL_DELAY_MS: nat := 500
  const MAX_DELAY_MS: nat := 10_000

  datatype Op = Write(value: seq<int>) | Remove

  /** What one remote attempt came to. A failed attempt may have taken effect all the same. */
  datatype Outcome = Success | Transient(applied: bool) | Permanent(applied: bool)

  datatype Phase =
    | Queued
    | Calling
    | Sleeping
    | Mirroring
    | Resolved(ok: bool)

  /** `attempts` counts transient failures, `started` remote attempts. */
  datatype Task = Task(key: Key, op: Op, phase: Phase, delay: nat, attempts: nat, started: nat)

  datatype State = State(local: Contents, remote: Contents, locks: map<Key, nat>, shutdown: bool, tasks: map<nat, Task>)

  datatype Step =
    | Submit(id: nat, key: Key, op: Op)
    | Acquire(id: nat)
    | Reply(id: nat, outcome: Outcome)
    | Wake(id: nat)
    | Abandon(id: nat)
    | Mirror(id: nat, stored: bool)
    | Stop

  function Apply(c: Contents, key: Key, op: Op): Contents {
    match op
    case Write(value) => c[key := value]
    case Remove => c - {key}
  }

  predicate Holding(p: Phase) { p.Calling? || p.Sleeping? || p.Mirroring? }

  function Doubled(delay: nat): nat {
    if 2 * delay < MAX_DELAY_MS then 2 * delay else MAX_DELAY_MS
  }

  function Update(s: State, id: nat, t: Task): State { s.(tasks := s.tasks[id := t]) }

  /** The operation is over: its lock is released. */
  function Resolve(s: State, id: nat, t: Task, ok: bool): State {
    Update(s, id, t.(phase := Resolved(ok))).(locks := s.locks - {t.key})
  }

  /** The state after a remote attempt that may have taken effect. */
  function Attempted(s: State, t: Task, applied: bool): State {
    if applied then s.(remote := Apply(s.remote, t.key, t.op)) else s
  }

  function OnReply(s: State, id: nat, t: Task, outcome: Outcome): State {
    match outcome
    case Success => Update(Attempted(s, t, true), id, t.(phase := Mirroring))
    case Permanent(applied) => Resolve(Attempted(s, t, applied), id, t, false)
    case Transient(applied) =>
      // after shutdown the wait for it is over at once, and the fresh sleep is not
      if s.shutdown then Resolve(Attempted(s, t, applied), id, t.(attempts := t.attempts + 1), false)
      else Update(Attempted(s, t, applied), id, t.(attempts := t.attempts + 1, phase := Sleeping))
  }

  predicate Enabled(s: State, step: Step) {
    match step
    case Submit(id, _, _) => id !in s.tasks
    case Acquire(id) => id in s.tasks && s.tasks[id].phase.Queued? && s.tasks[id].key !in s.locks
    case Reply(id, _) => id in s.tasks && s.tasks[id].phase.Calling?
    case Wake(id) => id in s.tasks && s.tasks[id].phase.Sleeping?
    case Abandon(id) => id in s.tasks && s.tasks[id].phase.Sleeping? && s.shutdown
    case Mirror(id, _) => id in s.tasks && s.tasks[id].phase.Mirroring?
    case Stop => true
  }

  /** An operation listens for shutdown from when it is submitted until its last remote attempt is over. */
  predicate Listens(p: Phase) { p.Queued? || p.Calling? || p.Sleeping? }

  predicate Listening(s: State) { exists id :: id in s.tasks && Listens(s.tasks[id].phase) }

  /** A stop that nobody listens to is not remembered: the channel drops the value. */
  function Next(s: State, step: Step): State
    requires Enabled(s, step)
  {
    match step
    case Submit(id, key, op) => Update(s, id, Task(key, op, Queued, INITIAL_DELAY_MS, 0, 0))
    case Acquire(id) =>
      var t := s.tasks[id];
      Update(s, id, t.(phase := Calling, started := t.started + 1)).(locks := s.locks[t.key := id])
    case Reply(id, outcome) => OnReply(s, id, s.tasks[id], outcome)
    case Wake(id) =>
      var t := s.tasks[id];
      Update(s, id, t.(phase := Calling, started := t.started + 1, delay := Doubled(t.delay)))
    case Abandon(id) => Resolve(s, id, s.tasks[id], false)
    case Mirror(id, stored) =>
      var t := s.tasks[id];
      Resolve(if stored then s.(local := Apply(s.local, t.key, t.op)) else s, id, t, true)
    case Stop => s.(shutdown := s.shutdown || Listening(s))
  }

  // ----- the lock of a key

  /** Contents agree with an operation once it has taken effect there. */
  predicate Reflects(c: Contents, key: Key, op: Op) {
    match op
    case Write(value) => key in c && c[key] == value
    case Remove => key !in c
  }

  /** Whoever holds a lock is in the middle of an operation on that key, and the other way round; and
      what the remote store has accepted is still there when it comes to mirroring. */
  ghost predicate Inv(s: State) {
    && (forall k :: k in s.locks ==>
          s.locks[k] in s.tasks && s.tasks[s.locks[k]].key == k && Holding(s.tasks[s.locks[k]].phase))
    && (forall id :: id in s.tasks && Holding(s.tasks[id].phase) ==>
          s.tasks[id].key in s.locks && s.locks[s.tasks[id].key] == id)
    && (forall id :: id in s.tasks && s.tasks[id].phase.Mirroring? ==>
          Reflects(s.remote, s.tasks[id].key, s.tasks[id].op))
  }

  lemma ResolveKeepsInv(s: State, id: nat, t: Task, ok: bool)
    requires Inv(s) && id in s.tasks && Holding(s.tasks[id].phase) && t.key == s.tasks[id].key
    ensures Inv(Resolve(s, id, t, ok))
  {
  }

  lemma AdvanceKeepsInv(s: State, id: nat, t: Task)
    requires Inv(s) && id in s.tasks && t.key == s.tasks[id].key
    requires Holding(s.tasks[id].phase) && Holding(t.phase)
    requires t.phase.Mirroring? ==> Reflects(s.remote, t.key, t.op)
    ensures Inv(Update(s, id, t))
  {
  }

  /** Only the holder of a key's lock changes the key remotely. */
  lemma EffectKeepsInv(s: State, id: nat, applied: bool)
    requires Inv(s) && id in s.tasks && s.tasks[id].phase.Calling?
    ensures Inv(Attempted(s, s.tasks[id], applied))
  {
    forall j | j in s.tasks && s.tasks[j].phase.Mirroring? ensures s.tasks[j].key != s.tasks[id].key {}
  }

  lemma AcquireKeepsInv(s: State, id: nat)
    requires Inv(s) && Enabled(s, Acquire(id))
    ensures Inv(Next(s, Acquire(id)))
  {
  }

  lemma SubmitKeepsInv(s: State, id: nat, t: Task)
    requires Inv(s) && id !in s.tasks && t.phase.Queued?
    ensures Inv(Update(s, id, t))
  {
  }

  lemma SuccessKeepsInv(s: State, id: nat)
    requires Inv(s) && id in s.tasks && s.tasks[id].phase.Calling?
    ensures Inv(OnReply(s, id, s.tasks[id], Success))
  {
    EffectKeepsInv(s, id, true);
    AdvanceKeepsInv(Attempted(s, s.tasks[id], true), id, s.tasks[id].(phase := Mirroring));
  }

  lemma FailureKeepsInv(s: State, id: nat, applied: bool)
    requires Inv(s) && id in s.tasks && s.tasks[id].phase.Calling?
    ensures Inv(OnReply(s, id, s.tasks[id], Permanent(applied)))
  {
    EffectKeepsInv(s, id, applied);
    ResolveKeepsInv(Attempted(s, s.tasks[id], applied), id, s.tasks[id], false);
  }

  lemma FailedAttemptKeepsInv(s: State, id: nat, t: Task)
    requires Inv(s) && id in s.tasks && s.tasks[id].phase.Calling? && t.key == s.tasks[id].key
    ensures Inv(Resolve(s, id, t, false)) && Inv(Update(s, id, t.(phase := Sleeping)))
  {
    ResolveKeepsInv(s, id, t, false);
    AdvanceKeepsInv(s, id, t.(phase := Sleeping));
  }

  lemma OutageKeepsInv(s: State, id: nat, applied: bool)
    requires Inv(s) && id in s.tasks && s.tasks[id].phase.Calling?
    ensures Inv(OnReply(s, id, s.tasks[id], Transient(applied)))
  {
    var s1, t := Attempted(s, s.tasks[id], applied), s.tasks[id].(attempts := s.tasks[id].attempts + 1);
    var after := if s.shutdown then Resolve(s1, id, t, false) else Update(s1, id, t.(phase := Sleeping));
    assert Inv(after) by {
      EffectKeepsInv(s, id, applied);
      FailedAttemptKeepsInv(s1, id, t);
    }
    assert OnReply(s, id, s.tasks[id], Transient(applied)) == after;
  }

  lemma ReplyKeepsInv(s: State, id: nat, outcome: Outcome)
    requires Inv(s) && id in s.tasks && s.tasks[id].phase.Calling?
    ensures Inv(OnReply(s, id, s.tasks[id], outcome))
  {
    match outcome
    case Success => SuccessKeepsInv(s, id);
    case Permanent(applied) => FailureKeepsInv(s, id, applied);
    case Transient(applied) => OutageKeepsInv(s, id, applied);
  }

  lemma StepKeepsInv(s: State, step: Step)
    requires Inv(s) && Enabled(s, step)
    ensures Inv(Next(s, step))
  {
    match step
    case Submit(id, key, op) => SubmitKeepsInv(s, id, Task(key, op, Queued, INITIAL_DELAY_MS, 0, 0));
    case Acquire(id) => AcquireKeepsInv(s, id);
    case Reply(id, outcome) => ReplyKeepsInv(s, id, outcome);
    case Wake(id) =>
      var t := s.tasks[id];
      AdvanceKeepsInv(s, id, t.(phase := Calling, started := t.started + 1, delay := Doubled(t.delay)));
    case Abandon(id) => ResolveKeepsInv(s, id, s.tasks[id], false);
    case Mirror(id, stored) =>
      var t := s.tasks[id];
      var s' := if stored then s.(local := Apply(s.local, t.key, t.op)) else s;
      assert Inv(s');
      ResolveKeepsInv(s', id, t, true);
    case Stop =>
  }

  // ----- runs

  function Fresh(local: Contents, remote: Contents): State { State(local, remote, map[], false, map[]) }

  /** A run: every step is enabled where it is taken. */
  ghost predicate IsRun(states: seq<State>, steps: seq<Step>) {
    && |states| == |steps| + 1
    && (forall i :: 0 <= i < |steps| ==> Enabled(states[i], steps[i]) && states[i + 1] == Next(states[i], steps[i]))
  }

  ghost predicate FreshRun(states: seq<State>, steps: seq<Step>) {
    IsRun(states, steps) && states[0] == Fresh(states[0].local, states[0].remote)
  }

  lemma {:induction false} RunKeepsInv(states: seq<State>, steps: seq<Step>, i: nat)
    requires FreshRun(states, steps) && i < |states|
    ensures Inv(states[i])
  {
    if i > 0 {
      RunKeepsInv(states, steps, i - 1);
      StepKeepsInv(states[i - 1], steps[i - 1]);
    }
  }

  /** At most one operation on a key is between taking and releasing its lock. */
  lemma OneHolderForEachKey(states: seq<State>, steps: seq<Step>, i: nat, a: nat, b: nat)
    requires FreshRun(states, steps) && i < |states|
    requires a in states[i].tasks && b in states[i].tasks
    requires Holding(states[i].tasks[a].phase) && Holding(states[i].tasks[b].phase)
    requires states[i].tasks[a].key == states[i].tasks[b].key
    ensures a == b
  {
    RunKeepsInv(states, steps, i);
  }

  // ----- an acknowledged write is held remotely

  /** The key whose remote value a step changes, if any. */
  function EffectOn(s: State, step: Step): Option<Key>
    requires Enabled(s, step)
  {
    match step
    case Reply(id, outcome) =>
      if outcome.Success? || outcome.applied then Some(s.tasks[id].key) else None
    case _ => None
  }

  /** The remote store changes only by a remote attempt that takes effect, and then by exactly the operation. */
  lemma RemoteChange(s: State, step: Step)
    requires Enabled(s, step)
    ensures EffectOn(s, step).None? ==> Next(s, step).remote == s.remote
    ensures EffectOn(s, step).Some? ==>
      && step.Reply? && step.id in s.tasks
      && var t := s.tasks[step.id];
         Next(s, step).remote == if t.op.Write? then s.remote[t.key := t.op.value] else s.remote - {t.key}
  {
  }

  /** The local store changes only by mirroring. */
  lemma LocalChange(s: State, step: Step)
    requires Enabled(s, step)
    ensures !(step.Mirror? && step.stored) ==> Next(s, step).local == s.local
    ensures step.Mirror? && step.stored ==>
      && step.id in s.tasks
      && var t := s.tasks[step.id];
         Next(s, step).local == if t.op.Write? then s.local[t.key := t.op.value] else s.local - {t.key}
  {
  }

  lemma NoEffectNoChange(s: State, step: Step, key: Key, op: Op)
    requires Enabled(s, step) && EffectOn(s, step) != Some(key) && Reflects(s.remote, key, op)
    ensures Reflects(Next(s, step).remote, key, op)
  {
    RemoteChange(s, step);
  }

  lemma {:induction false} RemoteValueStays(states: seq<State>, steps: seq<Step>, i: nat, j: nat, key: Key, op: Op)
    requires IsRun(states, steps) && i <= j < |states|
    requires Reflects(states[i].remote, key, op)
    requires forall m :: i <= m < j ==> EffectOn(states[m], steps[m]) != Some(key)
    ensures Reflects(states[j].remote, key, op)
  {
    if i < j {
      RemoteValueStays(states, steps, i, j - 1, key, op);
      NoEffectNoChange(states[j - 1], steps[j - 1], key, op);
    }
  }

  /** The step ends this operation: well, or badly. */
  predicate EndsWell(step: Step, id: nat) { step.Mirror? && step.id == id }

  predicate EndsBadly(s: State, step: Step, id: nat) {
    || (step.Reply? && step.id == id && (step.outcome.Permanent? || (step.outcome.Transient? && s.shutdown)))
    || (step.Abandon? && step.id == id)
  }

  lemma OtherTasksStay(s: State, step: Step, id: nat)
    requires Enabled(s, step) && id in s.tasks && (step.Submit? || step.Stop? || step.id != id)
    ensures id in Next(s, step).tasks && Next(s, step).tasks[id] == s.tasks[id]
  {
    if step.Reply? { ReplyLeavesOthers(s, step.id, step.outcome, id); }
  }

  lemma ReplyLeavesOthers(s: State, other: nat, outcome: Outcome, id: nat)
    requires other in s.tasks && id in s.tasks && other != id
    ensures id in OnReply(s, other, s.tasks[other], outcome).tasks
    ensures OnReply(s, other, s.tasks[other], outcome).tasks[id] == s.tasks[id]
  {
  }

  /** How an operation can change in one step: it stays the same operation, and ends as the step ends it. */
  ghost predicate Develops(s: State, step: Step, id: nat, t: Task, t': Task) {
    && t'.key == t.key && t'.op == t.op
    && (t'.phase == Resolved(true) <==> t.phase == Resolved(true) || EndsWell(step, id))
    && (t'.phase == Resolved(false) <==> t.phase == Resolved(false) || EndsBadly(s, step, id))
    && (t'.phase == Mirroring ==> t.phase == Mirroring || step == Reply(id, Success))
  }

  lemma DevelopsOnReply(s: State, id: nat, outcome: Outcome)
    requires Enabled(s, Reply(id, outcome))
    ensures id in Next(s, Reply(id, outcome)).tasks
    ensures Develops(s, Reply(id, outcome), id, s.tasks[id], Next(s, Reply(id, outcome)).tasks[id])
  {
  }

  lemma DevelopsInStep(s: State, step: Step, id: nat)
    requires Enabled(s, step) && id in s.tasks
    ensures id in Next(s, step).tasks && Develops(s, step, id, s.tasks[id], Next(s, step).tasks[id])
  {
    if step.Submit? || step.Stop? || step.id != id {
      OtherTasksStay(s, step, id);
    } else if step.Reply? {
      DevelopsOnReply(s, id, step.outcome);
    }
  }

  lemma NewTask(s: State, step: Step, id: nat)
    requires Enabled(s, step) && id !in s.tasks && id in Next(s, step).tasks
    ensures step.Submit? && step.id == id
    ensures var t := Next(s, step).tasks[id]; t.key == step.key && t.op == step.op && t.phase == Queued
  {
  }

  /** Step `m` submitted the operation, and step `k` was a remote attempt at it that succeeded. */
  ghost predicate Succeeded(steps: seq<Step>, m: nat, k: nat, id: nat, t: Task)
    requires m < k < |steps|
  {
    steps[m] == Submit(id, t.key, t.op) && steps[k] == Reply(id, Success)
  }

  /** The operation is not there before, or it develops. */
  lemma TaskInRun(states: seq<State>, steps: seq<Step>, n: nat, id: nat)
    requires FreshRun(states, steps) && n < |states| && id in states[n].tasks
    ensures n > 0
    ensures var t' := states[n].tasks[id];
            if id in states[n - 1].tasks then Develops(states[n - 1], steps[n - 1], id, states[n - 1].tasks[id], t')
            else steps[n - 1] == Submit(id, t'.key, t'.op) && t'.phase == Queued
  {
    assert n > 0 && Enabled(states[n - 1], steps[n - 1]) && states[n] == Next(states[n - 1], steps[n - 1]);
    if id in states[n - 1].tasks {
      DevelopsInStep(states[n - 1], steps[n - 1], id);
    } else {
      NewTask(states[n - 1], steps[n - 1], id);
    }
  }

  ghost predicate SubmittedBefore(steps: seq<Step>, n: nat, id: nat, key: Key, op: Op)
    requires n <= |steps|
  {
    exists m :: 0 <= m < n && steps[m] == Submit(id, key, op)
  }

  ghost predicate AllSubmitted(s: State, steps: seq<Step>, n: nat)
    requires n <= |steps|
  {
    forall id :: id in s.tasks ==> SubmittedBefore(steps, n, id, s.tasks[id].key, s.tasks[id].op)
  }

  lemma StillSubmitted(s: State, steps: seq<Step>, n: nat)
    requires n < |steps| && Enabled(s, steps[n]) && AllSubmitted(s, steps, n)
    ensures AllSubmitted(Next(s, steps[n]), steps, n + 1)
  {
    var s' := Next(s, steps[n]);
    forall id | id in s'.tasks ensures SubmittedBefore(steps, n + 1, id, s'.tasks[id].key, s'.tasks[id].op) {
      if id in s.tasks {
        DevelopsInStep(s, steps[n], id);
        var m :| 0 <= m < n && steps[m] == Submit(id, s.tasks[id].key, s.tasks[id].op);
      } else {
        NewTask(s, steps[n], id);
        assert steps[n] == Submit(id, s'.tasks[id].key, s'.tasks[id].op);
      }
    }
  }

  /** Over every run: every operation is one that was submitted. */
  lemma {:induction false} WereSubmitted(states: seq<State>, steps: seq<Step>, n: nat)
    requires FreshRun(states, steps) && n < |states|
    ensures AllSubmitted(states[n], steps, n)
  {
    if n > 0 {
      WereSubmitted(states, steps, n - 1);
      StillSubmitted(states[n - 1], steps, n - 1);
    }
  }

  /** Over every run: an operation that is acknowledged, or about to be, was submitted as it is and has succeeded
      remotely. */
  lemma {:induction false} AcknowledgedHasSucceeded(states: seq<State>, steps: seq<Step>, n: nat, id: nat, t: Task)
    requires FreshRun(states, steps) && n < |states| && id in states[n].tasks && states[n].tasks[id] == t
    requires t.phase == Resolved(true) || t.phase == Mirroring
    ensures exists m, k :: 0 <= m < k < n && Succeeded(steps, m, k, id, t)
  {
    TaskInRun(states, steps, n, id);
    var before := states[n - 1].tasks[id];
    if before.phase == Resolved(true) || before.phase == Mirroring {
      AcknowledgedHasSucceeded(states, steps, n - 1, id, before);
      var m, k :| 0 <= m < k < n - 1 && Succeeded(steps, m, k, id, before);
      assert Succeeded(steps, m, k, id, t);
    } else {
      NotMirroredUnprepared(states, steps, n, id);
      WereSubmitted(states, steps, n - 1);
      assert SubmittedBefore(steps, n - 1, id, t.key, t.op);
      var m :| 0 <= m < n - 1 && steps[m] == Submit(id, t.key, t.op);
      assert Succeeded(steps, m, n - 1, id, t);
    }
  }

  lemma NotMirroredUnprepared(states: seq<State>, steps: seq<Step>, n: nat, id: nat)
    requires IsRun(states, steps) && 0 < n < |states| && id in states[n - 1].tasks
    requires states[n - 1].tasks[id].phase != Mirroring
    ensures !EndsWell(steps[n - 1], id)
  {
    assert Enabled(states[n - 1], steps[n - 1]);
  }

  /** The operation was given up for good by the remote store. */
  ghost predicate Refused(steps: seq<Step>, n: nat, id: nat)
    requires n <= |steps|
  {
    exists k :: 0 <= k < n && steps[k].Reply? && steps[k].id == id && steps[k].outcome.Permanent?
  }

  lemma ShutdownStays(states: seq<State>, steps: seq<Step>, n: nat)
    requires IsRun(states, steps) && 0 < n < |states| && states[n - 1].shutdown
    ensures states[n].shutdown
  {
    assert Enabled(states[n - 1], steps[n - 1]) && states[n] == Next(states[n - 1], steps[n - 1]);
  }

  lemma EndedBadlyFor(states: seq<State>, steps: seq<Step>, n: nat, id: nat)
    requires IsRun(states, steps) && 0 < n < |states| && EndsBadly(states[n - 1], steps[n - 1], id)
    ensures states[n - 1].shutdown || Refused(steps, n, id)
  {
    assert Enabled(states[n - 1], steps[n - 1]);
  }

  /** Over every run: an operation fails only after a permanent error or once shutdown has been heard. */
  lemma {:induction false} FailedForAReason(states: seq<State>, steps: seq<Step>, n: nat, id: nat)
    requires FreshRun(states, steps) && n < |states| && id in states[n].tasks
    requires states[n].tasks[id].phase == Resolved(false)
    ensures states[n].shutdown || Refused(steps, n, id)
  {
    TaskInRun(states, steps, n, id);
    if states[n - 1].tasks[id].phase == Resolved(false) {
      FailedForAReason(states, steps, n - 1, id);
    } else {
      EndedBadlyFor(states, steps, n, id);
    }
    if states[n - 1].shutdown { ShutdownStays(states, steps, n); }
  }

  /** Between these two states the operation is acknowledged. */
  ghost predicate Acknowledged(s: State, s': State, id: nat, key: Key, op: Op) {
    && id in s.tasks && s.tasks[id].phase != Resolved(true) && s.tasks[id].key == key && s.tasks[id].op == op
    && id in s'.tasks && s'.tasks[id].phase == Resolved(true)
  }

  lemma AcknowledgedIsReflected(s: State, step: Step, id: nat, key: Key, op: Op)
    requires Inv(s) && Enabled(s, step) && Acknowledged(s, Next(s, step), id, key, op)
    ensures Reflects(s.remote, key, op) && EffectOn(s, step) == None
  {
    DevelopsInStep(s, step, id);
  }

  /** When an operation comes to be acknowledged the remote store holds its result, and goes on holding it until
      a later operation on the same key takes effect there. */
  lemma AcknowledgedIsHeldRemotely(
    states: seq<State>, steps: seq<Step>, i: nat, j: nat, id: nat, key: Key, op: Op)
    requires FreshRun(states, steps) && i < j < |states| && Acknowledged(states[i], states[i + 1], id, key, op)
    requires forall m :: i < m < j ==> EffectOn(states[m], steps[m]) != Some(key)
    ensures Reflects(states[j].remote, key, op)
  {
    RunKeepsInv(states, steps, i);
    assert Enabled(states[i], steps[i]) && states[i + 1] == Next(states[i], steps[i]);
    AcknowledgedIsReflected(states[i], steps[i], id, key, op);
    RemoteValueStays(states, steps, i, j, key, op);
  }

  // ----- local and remote agree

  predicate Same(a: Contents, b: Contents, k: Key) {
    (k in a <==> k in b) && (k in a ==> a[k] == b[k])
  }

  /** Mirror writes succeed, and failed remote attempts apply nothing. */
  predicate Clean(step: Step) {
    match step
    case Mirror(_, stored) => stored
    case Reply(_, outcome) => outcome.Success? || !outcome.applied
    case _ => true
  }

  /** The stores agree on a key unless an operation on it is about to mirror. */
  ghost predicate Agree(s: State) {
    forall k :: AboutToMirror(s, k) || Same(s.local, s.remote, k)
  }

  predicate AboutToMirror(s: State, k: Key) {
    k in s.locks && s.locks[k] in s.tasks && s.tasks[s.locks[k]].phase.Mirroring?
  }

  lemma CleanStepKeepsAgree(s: State, step: Step)
    requires Inv(s) && Agree(s) && Enabled(s, step) && Clean(step)
    ensures Agree(Next(s, step))
  {
    var s' := Next(s, step);
    forall k ensures AboutToMirror(s', k) || Same(s'.local, s'.remote, k) {
      assert AboutToMirror(s, k) || Same(s.local, s.remote, k);
    }
  }

  lemma {:induction false} CleanRunAgrees(states: seq<State>, steps: seq<Step>, i: nat)
    requires FreshRun(states, steps) && i < |states|
    requires states[0].local == states[0].remote && forall m :: 0 <= m < |steps| ==> Clean(steps[m])
    ensures Agree(states[i])
  {
    if i > 0 {
      CleanRunAgrees(states, steps, i - 1);
      RunKeepsInv(states, steps, i - 1);
      CleanStepKeepsAgree(states[i - 1], steps[i - 1]);
    }
  }

  /** A read looks locally first and remotely only if nothing is there. */
  function Read(s: State, k: Key): Option<seq<int>> {
    if k in s.local then Some(s.local[k])
    else if k in s.remote then Some(s.remote[k])
    else None
  }

  /** So a local value hides a different remote one. */
  lemma LocalValueIsRead(s: State, k: Key)
    ensures k in s.local ==> Read(s, k) == Some(s.local[k])
    ensures k !in s.local && k in s.remote ==> Read(s, k) == Some(s.remote[k])
    ensures Read(s, k) == None <==> k !in s.local && k !in s.remote
  {
  }

  /** If the stores agreed at first, no mirror write failed and failed attempts applied nothing, then on
      every key whose lock is free they agree, and a read returns what the remote store holds. */
  lemma FreeKeysAgree(states: seq<State>, steps: seq<Step>, i: nat, k: Key)
    requires FreshRun(states, steps) && i < |states| && k !in states[i].locks
    requires states[0].local == states[0].remote && forall m :: 0 <= m < |steps| ==> Clean(steps[m])
    ensures Same(states[i].local, states[i].remote, k)
    ensures Read(states[i], k) == if k in states[i].remote then Some(states[i].remote[k]) else None
  {
    CleanRunAgrees(states, steps, i);
  }

  // ----- shutdown

  /** Remote attempts an operation may still start once shutdown has been signalled. */
  function MayStart(p: Phase): nat { if p.Queued? || p.Sleeping? then 1 else 0 }

  /** Shutdown has been signalled, or the operation is past its last remote attempt. */
  predicate CutOff(s: State, id: nat) { id in s.tasks && (s.shutdown || !Listens(s.tasks[id].phase)) }

  /** Remote attempts an operation has started or may still start. */
  function MostAttempts(s: State, id: nat): nat
    requires id in s.tasks
  {
    s.tasks[id].started + MayStart(s.tasks[id].phase)
  }

  lemma AttemptsInOneStep(s: State, step: Step, s': State, id: nat)
    requires Enabled(s, step) && s' == Next(s, step) && CutOff(s, id)
    ensures CutOff(s', id) && MostAttempts(s', id) <= MostAttempts(s, id)
  {
    if step.Reply? { AttemptsAfterReply(s, step.id, step.outcome, id); }
  }

  lemma AttemptsAfterReply(s: State, other: nat, outcome: Outcome, id: nat)
    requires other in s.tasks && s.tasks[other].phase.Calling? && CutOff(s, id)
    ensures var s' := OnReply(s, other, s.tasks[other], outcome);
            CutOff(s', id) && MostAttempts(s', id) <= MostAttempts(s, id)
  {
    if other != id { ReplyLeavesOthers(s, other, outcome, id); }
  }

  /** At most `n` remote attempts have been started, or can be. */
  ghost predicate Capped(s: State, id: nat, n: nat) { CutOff(s, id) && MostAttempts(s, id) <= n }

  lemma CappedInStep(states: seq<State>, steps: seq<Step>, i: nat, id: nat, n: nat)
    requires IsRun(states, steps) && i < |steps| && Capped(states[i], id, n)
    ensures Capped(states[i + 1], id, n)
  {
    AttemptsInOneStep(states[i], steps[i], states[i + 1], id);
  }

  lemma {:induction false} CappedOverRun(states: seq<State>, steps: seq<Step>, i: nat, j: nat, id: nat, n: nat)
    requires IsRun(states, steps) && i <= j < |states| && Capped(states[i], id, n)
    ensures Capped(states[j], id, n)
    decreases j - i
  {
    if i < j {
      CappedInStep(states, steps, i, id, n);
      CappedOverRun(states, steps, i + 1, j, id, n);
    }
  }

  /** After a stop, each operation submitted before it starts at most one more remote attempt if it was
      waiting or sleeping, and none otherwise. */
  lemma AtMostOneMoreAttempt(states: seq<State>, steps: seq<Step>, i: nat, j: nat, id: nat)
    requires IsRun(states, steps) && i < j < |states| && steps[i] == Stop
    requires id in states[i].tasks
    ensures id in states[j].tasks
    ensures states[j].tasks[id].started <= states[i].tasks[id].started + MayStart(states[i].tasks[id].phase)
  {
    CappedOverRun(states, steps, i + 1, j, id, MostAttempts(states[i + 1], id));
  }

  lemma LateStep(states: seq<State>, steps: seq<Step>, i: nat, id: nat)
    requires IsRun(states, steps) && i < |steps| && states[i].shutdown
    requires id in states[i].tasks ==> Capped(states[i], id, 1)
    ensures states[i + 1].shutdown && (id in states[i + 1].tasks ==> Capped(states[i + 1], id, 1))
  {
    if id in states[i].tasks { CappedInStep(states, steps, i, id, 1); }
  }

  lemma {:induction false} LateRun(states: seq<State>, steps: seq<Step>, i: nat, j: nat, id: nat)
    requires IsRun(states, steps) && i <= j < |states| && states[i].shutdown
    requires id in states[i].tasks ==> Capped(states[i], id, 1)
    ensures id in states[j].tasks ==> Capped(states[j], id, 1)
    decreases j - i
  {
    if i < j {
      LateStep(states, steps, i, id);
      LateRun(states, steps, i + 1, j, id);
    }
  }

  /** Over every run: if some operation was listening at a stop, or an earlier stop had been heard, every
      operation submitted after it starts at most one remote attempt. */
  lemma LateOperationsAreCapped(states: seq<State>, steps: seq<Step>, i: nat, j: nat, id: nat)
    requires IsRun(states, steps) && i < j < |states| && steps[i] == Stop
    requires Listening(states[i]) || states[i].shutdown
    requires id !in states[i].tasks && id in states[j].tasks
    ensures states[j].tasks[id].started <= 1
  {
    assert states[i + 1] == Next(states[i], steps[i]);
    LateRun(states, steps, i + 1, j, id);
  }

  /** Otherwise the stop is lost: an operation submitted after it can go on to any number of attempts. */
  lemma {:induction false} LateOperationGoesOn(s: State, id: nat, key: Key, op: Op, n: nat)
      returns (states: seq<State>, steps: seq<Step>)
    requires !Listening(s) && !s.shutdown && id !in s.tasks && key !in s.locks && n > 0
    ensures IsRun(states, steps) && steps != [] && states[0] == s && steps[0] == Stop
    ensures var last := states[|steps|];
            !last.shutdown && id in last.tasks && last.tasks[id].phase.Calling? && last.tasks[id].started == n
    decreases n
  {
    if n == 1 {
      var s1 := Next(s, Stop);
      var s2 := Next(s1, Submit(id, key, op));
      var s3 := Next(s2, Acquire(id));
      states, steps := [s, s1, s2, s3], [Stop, Submit(id, key, op), Acquire(id)];
    } else {
      states, steps := LateOperationGoesOn(s, id, key, op, n - 1);
      states, steps := RetryOnce(states, steps, id);
    }
  }

  /** One more transient failure and one more attempt. */
  lemma RetryOnce(states: seq<State>, steps: seq<Step>, id: nat) returns (states': seq<State>, steps': seq<Step>)
    requires IsRun(states, steps) && !states[|steps|].shutdown
    requires id in states[|steps|].tasks && states[|steps|].tasks[id].phase.Calling?
    ensures IsRun(states', steps') && states <= states' && steps <= steps'
    ensures var before, last := states[|steps|], states'[|steps'|];
            && !last.shutdown && id in last.tasks && last.tasks[id].phase.Calling?
            && last.tasks[id].started == before.tasks[id].started + 1
  {
    var s0 := states[|steps|];
    var s1 := Next(s0, Reply(id, Transient(false)));
    var s2 := Next(s1, Wake(id));
    states', steps' := states + [s1, s2], steps + [Reply(id, Transient(false)), Wake(id)];
    forall i | 0 <= i < |steps'|
      ensures Enabled(states'[i], steps'[i]) && states'[i + 1] == Next(states'[i], steps'[i])
    {
      if i < |steps| { assert states'[i] == states[i] && states'[i + 1] == states[i + 1] && steps'[i] == steps[i]; }
    }
  }

  // ----- delays

  /** The delay after the `n`-th transient failure. */
  function DelayAfter(n: nat): nat
    requires n > 0
  {
    if n == 1 then INITIAL_DELAY_MS else Doubled(DelayAfter(n - 1))
  }

  lemma {:induction false} DelaysGrowToTheCap(m: nat, n: nat)
    requires 0 < m <= n
    ensures INITIAL_DELAY_MS <= DelayAfter(m) <= DelayAfter(n) <= MAX_DELAY_MS
  {
    if n > 1 {
      if m < n { DelaysGrowToTheCap(m, n - 1); } else { DelaysGrowToTheCap(m - 1, n - 1); }
    }
  }

  function TwoTo(n: nat): nat { if n == 0 then 1 else 2 * TwoTo(n - 1) }

  /** Half a second, doubled with each failure, or ten seconds if that is less. */
  lemma {:induction false} DelayIs(n: nat)
    requires n > 0
    ensures DelayAfter(n) == if 500 * TwoTo(n - 1) < 10_000 then 500 * TwoTo(n - 1) else 10_000
  {
    if n > 1 { DelayIs(n - 1); }
  }

  datatype Ended = StillTrying | Ended(ok: bool)

  /** The retry loop of one operation on its own. `replies` are what its attempts come to, and `stops` says
      after which of them shutdown is noticed instead of the sleep running out. It returns the delays slept. */
  method RetryTransient(replies: seq<Outcome>, stops: seq<bool>) returns (ended: Ended, delays: seq<nat>)
    requires |replies| == |stops|
    ensures |delays| <= |replies|
    ensures forall i :: 0 <= i < |delays| ==> replies[i].Transient? && delays[i] == DelayAfter(i + 1)
    ensures forall i :: 0 <= i < |delays| && stops[i] ==> i + 1 == |delays| && ended == Ended(false)
    ensures delays == [] || !stops[|delays| - 1] ==>
      ended == if |delays| == |replies| then StillTrying else Ended(replies[|delays|].Success?)
    ensures |delays| < |replies| && replies[|delays|].Transient? ==> delays != [] && stops[|delays| - 1]
  {
    var delay := INITIAL_DELAY_MS;
    delays := [];
    for attempts := 0 to |replies|
      invariant |delays| == attempts && delay == DelayAfter(attempts + 1)
      invariant forall i :: 0 <= i < attempts ==> replies[i].Transient? && delays[i] == DelayAfter(i + 1) && !stops[i]
    {
      match replies[attempts] {
        case Success => return Ended(true), delays;
        case Permanent(_) => return Ended(false), delays;
        case Transient(_) =>
          delays := delays + [delay];
          if stops[attempts] { return Ended(false), delays; }
          delay := Doubled(delay);
      }
    }
    return StillTrying, delays;
  }

  ghost predicate DelayOk(t: Task) {
    match t.phase
    case Sleeping => t.attempts > 0 && t.delay == DelayAfter(t.attempts)
    case Queued => t.delay == DelayAfter(t.attempts + 1)
    case Calling => t.delay == DelayAfter(t.attempts + 1)
    case _ => true
  }

  lemma DelayDoubles(n: nat)
    ensures DelayAfter(1) == INITIAL_DELAY_MS && DelayAfter(n + 2) == Doubled(DelayAfter(n + 1))
  {
  }

  lemma DelayOkAfterReply(s: State, other: nat, outcome: Outcome, id: nat)
    requires other in s.tasks && s.tasks[other].phase.Calling? && id in s.tasks && DelayOk(s.tasks[id])
    ensures DelayOk(OnReply(s, other, s.tasks[other], outcome).tasks[id])
  {
    if other != id { ReplyLeavesOthers(s, other, outcome, id); }
  }

  lemma DelayOkInOneStep(s: State, step: Step, s': State, id: nat)
    requires Enabled(s, step) && s' == Next(s, step) && id in s'.tasks
    requires id in s.tasks ==> DelayOk(s.tasks[id])
    ensures DelayOk(s'.tasks[id])
  {
    DelayDoubles(0);
    match step
    case Wake(other) => if other == id { DelayDoubles(s.tasks[id].attempts - 1); }
    case Reply(other, outcome) => DelayOkAfterReply(s, other, outcome, id);
    case _ =>
  }

  lemma DelayOkInStepOfRun(states: seq<State>, steps: seq<Step>, i: nat, id: nat)
    requires IsRun(states, steps) && i < |steps| && id in states[i + 1].tasks
    requires id in states[i].tasks ==> DelayOk(states[i].tasks[id])
    ensures DelayOk(states[i + 1].tasks[id])
  {
    DelayOkInOneStep(states[i], steps[i], states[i + 1], id);
  }

  lemma {:induction false} DelayOkOverRun(states: seq<State>, steps: seq<Step>, i: nat, id: nat)
    requires FreshRun(states, steps) && i < |states| && id in states[i].tasks
    ensures DelayOk(states[i].tasks[id])
  {
    if i > 0 {
      if id in states[i - 1].tasks { DelayOkOverRun(states, steps, i - 1, id); }
      DelayOkInStepOfRun(states, steps, i - 1, id);
    }
  }

  /** In every reachable state, a sleeping operation sleeps for the delay its number of failures calls
      for: half a second, doubled each time, and never more than ten seconds. */
  lemma DelaysOverRun(states: seq<State>, steps: seq<Step>, i: nat, id: nat)
    requires FreshRun(states, steps) && i < |states| && id in states[i].tasks
    ensures states[i].tasks[id].phase.Sleeping? ==>
      var t := states[i].tasks[id];
      && t.attempts > 0
      && t.delay == if 500 * TwoTo(t.attempts - 1) < 10_000 then 500 * TwoTo(t.attempts - 1) else 10_000
  {
    DelayOkOverRun(states, steps, i, id);
    var t := states[i].tasks[id];
    if t.phase.Sleeping? { DelayIs(t.attempts); }
  }
}
