/** A whole pass of the reconciliation, as the steps of a run. */
module SweepPasses {
  import opened Wrappers
  import opened Sweep
  import opened SweepRuns

  /** The pass only finds confirmed what the chain has confirmed. */
  ghost predicate Honest(w: World, env: PassEnv) {
    env.keys.Some? ==> forall i: nat :: i < |env.keys.value| && env.at(i).confirmed == Some(true) ==>
      env.keys.value[i] in w.spender.receipts ==> w.spender.receipts[env.keys.value[i]].unsigned in w.confirmed
  }

  /** What a pass has done to a world after its first `n` places. */
  ghost predicate PassedTo(w: World, env: PassEnv, n: nat, after: World) {
    && after.spender == w.spender.(receipts := KeptAfter(w.spender.receipts, env, n))
    && after.consumed == w.consumed + ConsumedAfter(w.spender.receipts, env, n)
    && after.up == w.up && after.log == w.log && after.confirmed == w.confirmed
  }

  ghost predicate OfPass(step: Step) { step.Consume? || step.RemoveReceipt? }

  /** The two steps with which a pass drops a receipt, or leaves it if the removal fails. */
  lemma PlaceIsSteps(w: World, env: PassEnv, n: nat, now: World)
    requires w.up && Honest(w, env) && PassedTo(w, env, n, now)
    requires ConsumesAt(w.spender.receipts, env, n) && env.keys.value[n] in now.spender.receipts
    ensures var key := env.keys.value[n];
            && Enabled(now, Consume(key))
            && var middle := Next(now, Consume(key));
               && Enabled(middle, RemoveReceipt(key, env.at(n).removal))
               && PassedTo(w, env, n + 1, Next(middle, RemoveReceipt(key, env.at(n).removal)))
  {
    PassOne(w.spender.receipts, env, n);
  }

  lemma PlaceIsNothing(w: World, env: PassEnv, n: nat, now: World)
    requires PassedTo(w, env, n, now)
    requires !ConsumesAt(w.spender.receipts, env, n) || env.keys.value[n] !in now.spender.receipts
    ensures PassedTo(w, env, n + 1, now)
  {
    PassOne(w.spender.receipts, env, n);
    if ConsumesAt(w.spender.receipts, env, n) { DroppedIsConsumed(w.spender.receipts, env, n); }
  }

  lemma TwoMoreSteps(worlds: seq<World>, steps: seq<Step>, a: Step, b: Step)
      returns (worlds': seq<World>, steps': seq<Step>)
    requires Connected(worlds, steps) && Enabled(worlds[|steps|], a) && Enabled(Next(worlds[|steps|], a), b)
    ensures Connected(worlds', steps') && worlds'[0] == worlds[0] && steps' == steps + [a, b]
    ensures worlds'[|steps'|] == Next(Next(worlds[|steps|], a), b)
  {
    var middle := Next(worlds[|steps|], a);
    worlds', steps' := worlds + [middle, Next(middle, b)], steps + [a, b];
    forall i | 0 <= i < |steps'|
      ensures Enabled(worlds'[i], steps'[i]) && worlds'[i + 1] == Next(worlds'[i], steps'[i])
    {
      if i < |steps| { assert worlds'[i] == worlds[i] && worlds'[i + 1] == worlds[i + 1] && steps'[i] == steps[i]; }
    }
  }

  /** What `ReconcilePreparedSweeps` does is a sequence of the consuming and removing steps of a run, so that
      everything proved over runs holds with passes in them. */
  lemma {:induction false} PassIsSteps(w: World, env: PassEnv, n: nat) returns (worlds: seq<World>, steps: seq<Step>)
    requires w.up && Honest(w, env)
    ensures Connected(worlds, steps) && worlds[0] == w && forall step <- steps :: OfPass(step)
    ensures PassedTo(w, env, n, worlds[|steps|])
  {
    if n == 0 {
      worlds, steps := [w], [];
      assert KeptAfter(w.spender.receipts, env, 0) == w.spender.receipts;
      assert ConsumedAfter(w.spender.receipts, env, 0) == {};
    } else {
      worlds, steps := PassIsSteps(w, env, n - 1);
      var now := worlds[|steps|];
      if ConsumesAt(w.spender.receipts, env, n - 1) && env.keys.value[n - 1] in now.spender.receipts {
        var key := env.keys.value[n - 1];
        PlaceIsSteps(w, env, n - 1, now);
        worlds, steps := TwoMoreSteps(worlds, steps, Consume(key), RemoveReceipt(key, env.at(n - 1).removal));
      } else {
        PlaceIsNothing(w, env, n - 1, now);
      }
    }
  }
}
