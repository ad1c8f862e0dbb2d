/** The nonce manager: lock-free counters shared by concurrent transaction attempts, with syncs from the chain. */
module Nonce {
  import opened Basics
  import opened Sums

  type U64 = n: int | 0 <= n < TWO64

  /** Atomic `fetch_add` and `fetch_sub` wrap. */
  function Inc(n: U64): U64 { (n + 1) % TWO64 }
  function Dec(n: U64): U64 { (n - 1) % TWO64 }

  /** The errors `handle_nonce_error` tells apart by their text. */
  datatype SendError = NonceTooLow | NonceTooHigh | Underpriced | AlreadyKnown | OtherError
  {
    predicate Syncs() {
      !OtherError?
    }
  }

  class NonceManager {
    var currentNonce: U64
    var pendingCount: U64
    /** Every nonce handed out, in order. */
    ghost var handed: seq<U64>

    constructor (chainNonce: U64)
      ensures currentNonce == chainNonce && pendingCount == 0 && handed == []
    {
      currentNonce, pendingCount, handed := chainNonce, 0, [];
    }

    method NextNonce() returns (nonce: U64)
      modifies this
      ensures nonce == old(currentNonce) && currentNonce == (nonce + 1) % TWO64
      ensures pendingCount == (old(pendingCount) + 1) % TWO64 && handed == old(handed) + [nonce]
    {
      nonce := currentNonce;
      currentNonce := Inc(currentNonce);
      pendingCount := Inc(pendingCount);
      handed := handed + [nonce];
    }

    method TransactionCompleted()
      modifies this`pendingCount
      ensures pendingCount == if old(pendingCount) == 0 then TWO64 - 1 else old(pendingCount) - 1
    {
      pendingCount := Dec(pendingCount);
    }

    /** A failed chain query changes nothing. */
    method SyncFromChain(chain: Option<U64>) returns (ok: bool)
      modifies this`currentNonce, this`pendingCount
      ensures ok == chain.Some?
      ensures ok ==> currentNonce == chain.value && pendingCount == 0
      ensures !ok ==> currentNonce == old(currentNonce) && pendingCount == old(pendingCount)
    {
      if chain.None? { return false; }
      currentNonce := chain.value;
      pendingCount := 0;
      return true;
    }

    /** When the sync fails the attempt is not marked completed. */
    method HandleNonceError(error: SendError, chain: Option<U64>) returns (ok: bool)
      modifies this`currentNonce, this`pendingCount
      ensures ok == (error == OtherError || chain.Some?)
      ensures !ok ==> currentNonce == old(currentNonce) && pendingCount == old(pendingCount)
      ensures error == OtherError ==>
              currentNonce == old(currentNonce) &&
              pendingCount == if old(pendingCount) == 0 then TWO64 - 1 else old(pendingCount) - 1
      ensures ok && error != OtherError ==> currentNonce == chain.value && pendingCount == TWO64 - 1
    {
      if error.Syncs() {
        var synced := SyncFromChain(chain);
        if !synced { return false; }
      }
      TransactionCompleted();
      return true;
    }
  }

  // ----- The protocol: any number of tasks, one atomic access per step -----

  /** Where a task stands. `attempt` tells a sync on behalf of a failed attempt from a sync on its own. */
  datatype Task =
    | Idle
    | TookNonce(nonce: U64)
    | InFlight(nonce: U64)
    | WantsSync(attempt: bool)
    | Querying(attempt: bool)
    | Swapped(attempt: bool)
    | Synced
  {
    /** The task has counted an attempt as pending and has not yet counted it as completed. */
    predicate Holds() {
      InFlight? || ((WantsSync? || Querying? || Swapped?) && attempt) || Synced?
    }
  }

  /** `base` is the nonce of the last sync and `handed` what was handed out since; `leaked` counts attempts dropped
      by a failed sync, and `wiped` the attempts that the last reset of the pending count passed over. */
  datatype State = State(
    current: U64, pending: U64, locked: bool, tasks: seq<Task>, base: U64, handed: seq<U64>, leaked: nat, wiped: nat)
  {
    /** The attempts that were counted as pending and never counted as completed. */
    function Uncompleted(): nat {
      Holders(tasks) + leaked
    }
  }

  datatype Step =
    | Spawn
    | Take(i: nat)
    | CountPending(i: nat)
    | Complete(i: nat)
    | AskSync(i: nat)
    | Lock(i: nat)
    | QueryFails(i: nat)
    | Swap(i: nat, chain: U64)
    | StoreZero(i: nat)

  predicate Initial(s: State) {
    s == State(s.base, 0, false, [], s.base, [], 0, 0)
  }

  ghost predicate Next(s: State, step: Step, s': State) {
    if step.Spawn? then s' == s.(tasks := s.tasks + [Idle])
    else
      && step.i < |s.tasks|
      && var t, i := s.tasks[step.i], step.i;
         match step
         case Take(_) =>
           t.Idle? && s' == s.(current := Inc(s.current), handed := s.handed + [s.current],
                               tasks := s.tasks[i := TookNonce(s.current)])
         case CountPending(_) =>
           t.TookNonce? && s' == s.(pending := Inc(s.pending), tasks := s.tasks[i := InFlight(t.nonce)])
         case Complete(_) =>
           (t.InFlight? || t.Synced?) && s' == s.(pending := Dec(s.pending), tasks := s.tasks[i := Idle])
         case AskSync(_) =>
           (t.InFlight? || t.Idle?) && s' == s.(tasks := s.tasks[i := WantsSync(t.InFlight?)])
         case Lock(_) =>
           t.WantsSync? && !s.locked && s' == s.(locked := true, tasks := s.tasks[i := Querying(t.attempt)])
         case QueryFails(_) =>
           t.Querying? && s' == s.(locked := false, leaked := s.leaked + (if t.attempt then 1 else 0),
                                   tasks := s.tasks[i := Idle])
         case Swap(_, chain) =>
           t.Querying? && s' == s.(current := chain, base := chain, handed := [],
                                   tasks := s.tasks[i := Swapped(t.attempt)])
         case StoreZero(_) =>
           t.Swapped? && s' == s.(pending := 0, locked := false, wiped := s.Uncompleted(),
                                  tasks := s.tasks[i := if t.attempt then Synced else Idle])
  }

  ghost predicate IsRun(run: seq<State>, steps: seq<Step>) {
    && |run| == |steps| + 1
    && Initial(run[0])
    && forall k :: 0 <= k < |steps| ==> Next(run[k], steps[k], run[k + 1])
  }

  const Holding: Task -> bool := (t: Task) => t.Holds()

  /** How many tasks hold an attempt. */
  function Holders(ts: seq<Task>): nat {
    Count(ts, Holding)
  }

  /** The nonces since the last sync are the consecutive run from the synced value. */
  ghost predicate Consecutive(s: State) {
    && s.current == (s.base + |s.handed|) % TWO64
    && forall k :: 0 <= k < |s.handed| ==> s.handed[k] == (s.base + k) % TWO64
  }

  /** The pending count is, in 64 bits, the attempts not completed less those the last reset passed over. */
  ghost predicate PendingTracks(s: State) {
    s.pending == (s.Uncompleted() - s.wiped) % TWO64
  }

  lemma WrapInc(n: int)
    ensures Inc(n % TWO64) == (n + 1) % TWO64
  {
  }

  lemma WrapDec(n: int)
    ensures Dec(n % TWO64) == (n - 1) % TWO64
  {
  }

  lemma HandedOneMore(base: U64, handed: seq<U64>, current: U64)
    requires current == (base + |handed|) % TWO64
    requires forall k :: 0 <= k < |handed| ==> handed[k] == (base + k) % TWO64
    ensures Inc(current) == (base + |handed + [current]|) % TWO64
    ensures forall k :: 0 <= k <= |handed| ==> (handed + [current])[k] == (base + k) % TWO64
  {
    WrapInc(base + |handed|);
  }

  lemma StepKeepsConsecutive(s: State, step: Step, s': State)
    requires Consecutive(s) && Next(s, step, s')
    ensures Consecutive(s')
  {
    if step.Take? {
      HandedOneMore(s.base, s.handed, s.current);
    } else if !step.Swap? {
      assert s'.base == s.base && s'.handed == s.handed && s'.current == s.current;
    }
  }

  lemma StepKeepsPending(s: State, step: Step, s': State)
    requires PendingTracks(s) && Next(s, step, s')
    ensures PendingTracks(s')
  {
    var n := s.Uncompleted() - s.wiped;
    if step.Spawn? {
      CountAppend(s.tasks, Idle, Holding);
    } else {
      CountUpdate(s.tasks, step.i, s'.tasks[step.i], Holding);
      if step.CountPending? {
        WrapInc(n);
      } else if step.Complete? {
        WrapDec(n);
      } else if !step.StoreZero? {
        assert s'.Uncompleted() - s'.wiped == n;
      }
    }
  }

  lemma {:induction false} EveryRun(run: seq<State>, steps: seq<Step>, k: nat)
    requires IsRun(run, steps) && k < |run|
    ensures Consecutive(run[k]) && PendingTracks(run[k])
  {
    if k > 0 {
      EveryRun(run, steps, k - 1);
      StepKeepsConsecutive(run[k - 1], steps[k - 1], run[k]);
      StepKeepsPending(run[k - 1], steps[k - 1], run[k]);
    }
  }

  lemma WrapInjective(base: nat, a: nat, b: nat)
    requires a <= b < a + TWO64 && (base + a) % TWO64 == (base + b) % TWO64
    ensures a == b
  {
  }

  /** In every interleaving, the nonces handed out since the last sync are consecutive from the synced value, and
      pairwise distinct up to 2^64 of them. */
  lemma NoncesDistinct(run: seq<State>, steps: seq<Step>, k: nat, a: nat, b: nat)
    requires IsRun(run, steps) && k < |run| && a < b < |run[k].handed| && |run[k].handed| <= TWO64
    ensures run[k].handed[a] != run[k].handed[b]
    ensures run[k].handed[a] == (run[k].base + a) % TWO64
  {
    EveryRun(run, steps, k);
    if run[k].handed[a] == run[k].handed[b] { WrapInjective(run[k].base, a, b); }
  }

  // ----- The pending count, before and after syncs -----

  /** No number of attempts and no reset has reached 2^64. */
  ghost predicate InRange(s: State) {
    s.Uncompleted() < TWO64 && s.wiped < TWO64
  }

  /** At any point of any run the count is exact if and only if the last reset passed over no attempt; it is the
      number of attempts in flight if and only if what it passed over is what failed syncs have leaked; and the next
      completion takes it below zero if and only if it passed over everything not completed. */
  lemma PendingExact(run: seq<State>, steps: seq<Step>, k: nat)
    requires IsRun(run, steps) && k < |run| && InRange(run[k])
    ensures run[k].pending == run[k].Uncompleted() <==> run[k].wiped == 0
    ensures run[k].pending == Holders(run[k].tasks) <==> run[k].wiped == run[k].leaked
    ensures run[k].pending == 0 <==> run[k].wiped == run[k].Uncompleted()
    ensures k < |steps| && steps[k].Complete? ==>
              run[k + 1].pending == if run[k].wiped == run[k].Uncompleted() then TWO64 - 1 else run[k].pending - 1
  {
    EveryRun(run, steps, k);
    WrappedDifference(run[k].Uncompleted(), run[k].wiped);
    if k < |steps| && steps[k].Complete? {
      assert Next(run[k], steps[k], run[k + 1]);
    }
  }

  lemma WrappedDifference(n: nat, w: nat)
    requires n < TWO64 && w < TWO64
    ensures (n - w) % TWO64 == if w <= n then n - w else n - w + TWO64
  {
  }

  /** The last reset before state k is step m. */
  ghost predicate LastReset(steps: seq<Step>, m: nat, k: nat) {
    m < k <= |steps| && steps[m].StoreZero? && forall j :: m < j < k ==> !steps[j].StoreZero?
  }

  /** What `wiped` is: the attempts not completed when the last reset was made, or zero before any. */
  lemma {:induction false} WipedByLastReset(run: seq<State>, steps: seq<Step>, k: nat)
    requires IsRun(run, steps) && k < |run|
    ensures forall m: nat :: LastReset(steps, m, k) ==> run[k].wiped == run[m].Uncompleted()
    ensures (forall j :: 0 <= j < k ==> !steps[j].StoreZero?) ==> run[k].wiped == 0
    decreases k
  {
    if k > 0 {
      WipedByLastReset(run, steps, k - 1);
      assert Next(run[k - 1], steps[k - 1], run[k]);
      forall m: nat | LastReset(steps, m, k) ensures run[k].wiped == run[m].Uncompleted() {
        if m < k - 1 {
          assert LastReset(steps, m, k - 1);
        }
      }
    }
  }

  /** From a completed sync to the next, the count is exact if and only if nothing was held or leaked when the sync
      stored zero. A sync on behalf of an attempt holds that attempt, so it never leaves the count exact. */
  lemma ExactSinceSync(run: seq<State>, steps: seq<Step>, m: nat, k: nat)
    requires IsRun(run, steps) && k < |run| && LastReset(steps, m, k) && InRange(run[k])
    ensures run[k].pending == run[k].Uncompleted() <==> run[m].Uncompleted() == 0
    ensures steps[m].i < |run[m].tasks| && (run[m].tasks[steps[m].i] == Swapped(true) ==> run[m].Uncompleted() > 0)
  {
    PendingExact(run, steps, k);
    WipedByLastReset(run, steps, k);
    assert Next(run[m], steps[m], run[m + 1]);
    CountUpdate(run[m].tasks, steps[m].i, Idle, Holding);
  }

  /** Until the first completed sync the count is the attempts held and leaked, and no completion underflows. */
  lemma ExactUntilSync(run: seq<State>, steps: seq<Step>, k: nat)
    requires IsRun(run, steps) && k < |run| && InRange(run[k])
    requires forall j :: 0 <= j < k ==> !steps[j].StoreZero?
    ensures run[k].pending == run[k].Uncompleted()
    ensures k < |steps| && steps[k].Complete? ==> run[k + 1].pending == run[k].pending - 1
  {
    PendingExact(run, steps, k);
    WipedByLastReset(run, steps, k);
    if k < |steps| && steps[k].Complete? {
      assert Next(run[k], steps[k], run[k + 1]);
      CountUpdate(run[k].tasks, steps[k].i, Idle, Holding);
    }
  }

  ghost predicate Reaches(s: State) {
    exists run, steps :: IsRun(run, steps) && run[|run| - 1] == s
  }

  lemma Extend(s: State, step: Step, s': State)
    requires Reaches(s) && Next(s, step, s')
    ensures Reaches(s')
  {
    var run, steps :| IsRun(run, steps) && run[|run| - 1] == s;
    assert IsRun(run + [s'], steps + [step]);
  }

  /** One task has taken a nonce, failed and asked for a sync, and holds the lock. */
  lemma AttemptSyncs(base: U64) returns (s: State)
    ensures Reaches(s) && s == State(Inc(base), 1, true, [Querying(true)], base, [base], 0, 0)
  {
    var s0 := State(base, 0, false, [], base, [], 0, 0);
    assert IsRun([s0], []);
    var s1 := s0.(tasks := [Idle]);
    Extend(s0, Spawn, s1);
    var s2 := State(Inc(base), 0, false, [TookNonce(base)], base, [base], 0, 0);
    Extend(s1, Take(0), s2);
    var s3 := s2.(pending := 1, tasks := [InFlight(base)]);
    Extend(s2, CountPending(0), s3);
    var s4 := s3.(tasks := [WantsSync(true)]);
    Extend(s3, AskSync(0), s4);
    s := s4.(locked := true, tasks := [Querying(true)]);
    Extend(s4, Lock(0), s);
  }

  /** A run of a single task: its own sync resets the count and its completion then takes it below zero. */
  lemma OwnSyncUnderflows(base: U64, chain: U64) returns (s: State)
    ensures Reaches(s) && s.tasks == [Idle] && s.current == chain && s.pending == TWO64 - 1
  {
    var s0 := AttemptSyncs(base);
    var s1 := State(chain, 1, true, [Swapped(true)], chain, [], 0, 0);
    Extend(s0, Swap(0, chain), s1);
    CountAppend([], Swapped(true), Holding);
    assert [] + [Swapped(true)] == [Swapped(true)];
    var s2 := State(chain, 0, false, [Synced], chain, [], 0, 1);
    Extend(s1, StoreZero(0), s2);
    s := State(chain, TWO64 - 1, false, [Idle], chain, [], 0, 1);
    Extend(s2, Complete(0), s);
  }
}
