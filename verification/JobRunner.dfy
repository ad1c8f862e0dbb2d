/** One job from fetch to submission: the retry loops around the two transactions and the job's early exits. */
module JobRunner {
  import opened Basics
  import opened Sums
  import opened Nonce

  // ----- Retrying a transaction -----

  /** One attempt: a confirmed receipt, or a failure with what its text implies and what a chain query would answer. */
  datatype Attempt = Confirmed | Failed(retryable: bool, error: SendError, chain: Option<U64>)
  {
    /** The failure lets the loop try again, attempts permitting. */
    predicate Continues() {
      Failed? && retryable && (error.Syncs() ==> chain.Some?)
    }

    /** The failure makes the nonce manager sync from the chain, and the query is answered. */
    predicate Synced() {
      Failed? && error.Syncs() && chain.Some?
    }

    /** The failure asks for a sync and the query fails, so the attempt is never marked completed. */
    predicate Leaks() {
      Failed? && error.Syncs() && chain.None?
    }
  }

  function MaxAttempts(maxRetries: nat): nat {
    if maxRetries == 0 then 1 else maxRetries
  }

  /** Attempt `n` is the last: everything before it failed in a way that is retried. */
  ghost predicate StopsAt(outcome: nat -> Attempt, maxRetries: nat, n: nat) {
    && 1 <= n <= MaxAttempts(maxRetries)
    && (forall j :: 1 <= j < n ==> outcome(j).Continues())
    && (!outcome(n).Continues() || n == MaxAttempts(maxRetries))
  }

  /** The transaction is confirmed within the attempts allowed. */
  ghost predicate Succeeds(outcome: nat -> Attempt, maxRetries: nat) {
    exists n :: StopsAt(outcome, maxRetries, n) && outcome(n).Confirmed?
  }

  /** Confirmed within max(1, retries) attempts, all before it failed, retryable and with any sync they asked for
      made. */
  lemma SuccessMeans(outcome: nat -> Attempt, maxRetries: nat)
    ensures Succeeds(outcome, maxRetries) <==>
            exists n: nat ::
              && outcome(n).Confirmed? && 1 <= n && (n == 1 || n <= maxRetries)
              && forall j :: 1 <= j < n ==>
                   outcome(j).Failed? && outcome(j).retryable &&
                       (outcome(j).error == OtherError || outcome(j).chain.Some?)
  {
    forall n: nat | outcome(n).Confirmed? && 1 <= n && (n == 1 || n <= maxRetries)
      ensures (forall j :: 1 <= j < n ==> outcome(j).Continues()) ==> StopsAt(outcome, maxRetries, n)
    {
    }
    if n: nat :| StopsAt(outcome, maxRetries, n) && outcome(n).Confirmed? {
      assert forall j :: 1 <= j < n ==> outcome(j).Continues();
    }
  }

  lemma StopsOnce(outcome: nat -> Attempt, maxRetries: nat, n: nat)
    requires StopsAt(outcome, maxRetries, n)
    ensures Succeeds(outcome, maxRetries) <==> outcome(n).Confirmed?
  {
    forall m: nat | StopsAt(outcome, maxRetries, m) ensures m == n {
    }
  }

  /** From place `from` on, the nonces are consecutive from `base`. */
  ghost predicate ConsecutiveFrom(s: seq<U64>, from: nat, base: int) {
    forall j :: from <= j < |s| ==> s[j] == (base + j - from) % TWO64
  }

  ghost predicate NoSyncUpTo(outcome: nat -> Attempt, n: nat) {
    forall j :: 1 <= j <= n ==> !outcome(j).Synced() && !outcome(j).Leaks()
  }

  /** The next nonce after n attempts of one caller, from c. */
  function NonceAfter(c: U64, outcome: nat -> Attempt, n: nat): U64 {
    if n == 0 then c
    else if outcome(n).Synced() then outcome(n).chain.value
    else Inc(NonceAfter(c, outcome, n - 1))
  }

  /** The pending count after n attempts of one caller, from p. */
  function PendingAfter(p: U64, outcome: nat -> Attempt, n: nat): U64 {
    if n == 0 then p
    else if outcome(n).Synced() then TWO64 - 1
    else if outcome(n).Leaks() then Inc(PendingAfter(p, outcome, n - 1))
    else PendingAfter(p, outcome, n - 1)
  }

  /** The attempts used the nonces the manager stood at, one each. */
  ghost predicate UsedNonces(handed: seq<U64>, from: nat, c: U64, outcome: nat -> Attempt, n: nat) {
    |handed| == from + n && forall j :: 0 <= j < n ==> handed[from + j] == NonceAfter(c, outcome, j)
  }

  lemma UsedOneMore(handed: seq<U64>, from: nat, c: U64, outcome: nat -> Attempt, n: nat, x: U64)
    requires UsedNonces(handed, from, c, outcome, n) && x == NonceAfter(c, outcome, n)
    ensures UsedNonces(handed + [x], from, c, outcome, n + 1)
  {
  }

  lemma DecUndoesInc(n: U64)
    ensures Dec(Inc(n)) == n
  {
  }

  lemma IncWraps(c: U64, n: nat)
    ensures Inc((c + n) % TWO64) == (c + n + 1) % TWO64
  {
  }

  /** Without a sync the count is restored and the nonces are consecutive. */
  lemma {:induction false} Unsynced(p: U64, c: U64, outcome: nat -> Attempt, n: nat)
    requires NoSyncUpTo(outcome, n)
    ensures PendingAfter(p, outcome, n) == p && NonceAfter(c, outcome, n) == (c + n) % TWO64
  {
    if n > 0 {
      Unsynced(p, c, outcome, n - 1);
      IncWraps(c, n - 1);
    }
  }

  /** In a finished loop the count is what it was, or 2^64 - 1 once any sync was made, and one more if the last
      attempt leaked. */
  lemma {:induction false} PendingAtEnd(p: U64, outcome: nat -> Attempt, n: nat)
    requires forall j :: 1 <= j < n ==> outcome(j).Continues()
    ensures var synced := exists j :: 1 <= j <= n && outcome(j).Synced();
            var leaked := n > 0 && outcome(n).Leaks();
            PendingAfter(p, outcome, n) ==
              if synced && leaked then 0 else if synced then TWO64 - 1 else if leaked then Inc(p) else p
  {
    if n > 0 {
      PendingAtEnd(p, outcome, n - 1);
      assert n > 1 ==> outcome(n - 1).Continues();
    }
  }

  lemma UsedConsecutively(handed: seq<U64>, from: nat, p: U64, c: U64, outcome: nat -> Attempt, n: nat)
    requires UsedNonces(handed, from, c, outcome, n) && NoSyncUpTo(outcome, n)
    ensures ConsecutiveFrom(handed, from, c) && PendingAfter(p, outcome, n) == p
  {
    Unsynced(p, c, outcome, n);
    forall j | from <= j < |handed| ensures handed[j] == (c + j - from) % TWO64 {
      assert handed[from + (j - from)] == NonceAfter(c, outcome, j - from);
      Unsynced(p, c, outcome, j - from);
    }
  }

  /** One attempt: take a nonce, send, and report the result to the nonce manager. A failed sync is an error itself. */
  method AttemptOnce(nonces: NonceManager, a: Attempt) returns (handled: bool)
    modifies nonces
    ensures handled == !a.Leaks()
    ensures nonces.handed == old(nonces.handed) + [old(nonces.currentNonce)]
    ensures nonces.currentNonce == if a.Synced() then a.chain.value else Inc(old(nonces.currentNonce))
    ensures nonces.pendingCount == if a.Synced() then TWO64 - 1
                                   else if a.Leaks() then Inc(old(nonces.pendingCount)) else old(nonces.pendingCount)
  {
    DecUndoesInc(nonces.pendingCount);
    var nonce := nonces.NextNonce();
    if a.Confirmed? {
      nonces.TransactionCompleted();
      return true;
    }
    handled := nonces.HandleNonceError(a.error, a.chain);
  }

  /** The claim and submit loops: one fresh nonce per attempt, success exactly when the last attempt is confirmed. The
      nonces used and both counters are given whatever syncs intervened. */
  method SendWithRetry(nonces: NonceManager, maxRetries: nat, outcome: nat -> Attempt) returns (ok: bool, attempts: nat)
    modifies nonces
    ensures StopsAt(outcome, maxRetries, attempts)
    ensures ok == outcome(attempts).Confirmed?
    ensures 1 <= attempts && (attempts == 1 || attempts <= maxRetries)
    ensures forall j :: 1 <= j < attempts ==>
              outcome(j).Failed? && outcome(j).retryable && (outcome(j).error == OtherError || outcome(j).chain.Some?)
    ensures !ok ==> var a := outcome(attempts);
                    attempts >= maxRetries || !a.retryable || (a.error != OtherError && a.chain.None?)
    ensures old(nonces.handed) <= nonces.handed
    ensures UsedNonces(nonces.handed, |old(nonces.handed)|, old(nonces.currentNonce), outcome, attempts)
    ensures nonces.currentNonce == NonceAfter(old(nonces.currentNonce), outcome, attempts)
    ensures nonces.pendingCount == PendingAfter(old(nonces.pendingCount), outcome, attempts)
    ensures NoSyncUpTo(outcome, attempts) ==>
              nonces.pendingCount == old(nonces.pendingCount) &&
              ConsecutiveFrom(nonces.handed, |old(nonces.handed)|, old(nonces.currentNonce))
  {
    attempts := 0;
    ghost var first, base, pending := |nonces.handed|, nonces.currentNonce, nonces.pendingCount;
    while true
      invariant attempts == 0 || attempts < maxRetries
      invariant forall j :: 1 <= j <= attempts ==> outcome(j).Continues()
      invariant old(nonces.handed) <= nonces.handed && UsedNonces(nonces.handed, first, base, outcome, attempts)
      invariant nonces.currentNonce == NonceAfter(base, outcome, attempts)
      invariant nonces.pendingCount == PendingAfter(pending, outcome, attempts)
      decreases MaxAttempts(maxRetries) - attempts
    {
      UsedOneMore(nonces.handed, first, base, outcome, attempts, nonces.currentNonce);
      attempts := attempts + 1;
      var a := outcome(attempts);
      var handled := AttemptOnce(nonces, a);
      if NoSyncUpTo(outcome, attempts) {
        UsedConsecutively(nonces.handed, first, pending, base, outcome, attempts);
      }
      if a.Confirmed? { return true, attempts; }
      if !handled || !a.retryable || attempts >= maxRetries { return false, attempts; }
    }
  }

  // ----- The job -----

  datatype Payload = CachedProof | WrappedProof | FirstSubProof | FreshProof

  /** What a job does that others can see. */
  datatype Event =
    ClaimOk | ClaimErr | SubmitOk(payload: Payload) | SubmitErr(payload: Payload) | InputVerified | ProofStored
  {
    predicate IsTransaction() {
      !InputVerified? && !ProofStored?
    }
  }

  /** The outcomes of everything the job calls: fetching, caches, preflight, proving and the transactions. */
  datatype Env = Env(
    elfFound: bool, isPrivate: bool, hasSigner: bool, prefetched: bool, inputFetched: bool, digestMatches: bool,
    proofCached: bool, preflightOk: bool, tooComplex: bool, cycles: nat,
    decomposable: bool, decomposed: Option<nat>, wraps: bool,
    skipProfitCheck: bool, profitable: Option<bool>, proved: bool,
    maxRetries: nat, earlyClaim: nat -> Attempt, claim: nat -> Attempt, submit: nat -> Attempt)

  const DECOMP_THRESHOLD_CYCLES: nat := 20_000_000

  /** How many of the events are e. */
  ghost function Times(trace: seq<Event>, e: Event): nat {
    multiset(trace)[e]
  }

  /** Successful submissions, whatever was submitted. */
  ghost function Submissions(trace: seq<Event>): nat {
    Times(trace, SubmitOk(CachedProof)) + Times(trace, SubmitOk(WrappedProof)) +
    Times(trace, SubmitOk(FirstSubProof)) + Times(trace, SubmitOk(FreshProof))
  }

  /** Every submission comes after a successful claim and after the input was verified. */
  ghost predicate ClaimedFirst(trace: seq<Event>) {
    forall i :: 0 <= i < |trace| && (trace[i].SubmitOk? || trace[i].SubmitErr?) ==>
      ClaimOk in trace[..i] && InputVerified in trace[..i]
  }

  ghost predicate NothingSubmitted(trace: seq<Event>) {
    forall e :: e in trace ==> !e.SubmitOk? && !e.SubmitErr?
  }

  const Transacts: Event -> bool := (e: Event) => e.IsTransaction()

  /** Claims and submissions made, successful or not. */
  ghost function Transactions(trace: seq<Event>): nat {
    Count(trace, Transacts)
  }

  /** Since `start`, every transaction of the trace used between one nonce and the attempts allowed. */
  ghost predicate Budget(env: Env, start: seq<U64>, handed: seq<U64>, trace: seq<Event>) {
    && start <= handed
    && Transactions(trace) <= |handed| - |start| <= Transactions(trace) * MaxAttempts(env.maxRetries)
  }

  lemma OneMoreTime(n: nat, m: nat)
    ensures (n + 1) * m == n * m + m
  {
  }

  lemma BudgetAfter(env: Env, start: seq<U64>, handed: seq<U64>, trace: seq<Event>, handed': seq<U64>, e: Event)
    requires Budget(env, start, handed, trace) && handed <= handed'
    requires if e.IsTransaction() then 1 <= |handed'| - |handed| <= MaxAttempts(env.maxRetries) else handed' == handed
    ensures Budget(env, start, handed', trace + [e])
    ensures Transactions(trace + [e]) == Transactions(trace) + if e.IsTransaction() then 1 else 0
  {
    CountAppend(trace, e, Transacts);
    OneMoreTime(Transactions(trace), MaxAttempts(env.maxRetries));
  }

  /** One transaction, as far as a job is concerned. */
  method Send(nonces: NonceManager, env: Env, outcome: nat -> Attempt) returns (ok: bool)
    modifies nonces
    ensures ok == Succeeds(outcome, env.maxRetries)
    ensures old(nonces.handed) <= nonces.handed
    ensures 1 <= |nonces.handed| - |old(nonces.handed)| <= MaxAttempts(env.maxRetries)
  {
    var attempts;
    ok, attempts := SendWithRetry(nonces, env.maxRetries, outcome);
    StopsOnce(outcome, env.maxRetries, attempts);
  }

  /** The claim transaction. */
  method Claim(nonces: NonceManager, env: Env, ghost start: seq<U64>, outcome: nat -> Attempt, trace: seq<Event>)
    returns (ok: bool, trace': seq<Event>)
    requires NothingSubmitted(trace) && Budget(env, start, nonces.handed, trace)
    modifies nonces
    ensures Budget(env, start, nonces.handed, trace') && Transactions(trace') == Transactions(trace) + 1
    ensures trace' == trace + [if ok then ClaimOk else ClaimErr] && NothingSubmitted(trace')
    ensures ok == Succeeds(outcome, env.maxRetries)
  {
    ok := Send(nonces, env, outcome);
    BudgetAfter(env, start, old(nonces.handed), trace, nonces.handed, if ok then ClaimOk else ClaimErr);
    trace' := trace + [if ok then ClaimOk else ClaimErr];
  }

  // ----- When a job succeeds -----

  predicate InputReady(env: Env) {
    if env.isPrivate then env.hasSigner && env.inputFetched && env.digestMatches
    else env.prefetched || (env.inputFetched && env.digestMatches)
  }

  /** The proof that a job with its input in hand would submit, if it gets that far. */
  function Route(env: Env): Option<Payload> {
    if env.proofCached then Some(CachedProof)
    else if !env.preflightOk || env.tooComplex then None
    else if DecompositionPays(env) then Some(if env.wraps then WrappedProof else FirstSubProof)
    else if (env.skipProfitCheck || env.profitable == Some(true)) && env.proved then Some(FreshProof)
    else None
  }

  predicate DecompositionPays(env: Env) {
    && env.decomposable && env.cycles > DECOMP_THRESHOLD_CYCLES
    && env.decomposed.Some? && (env.wraps || env.decomposed.value == 1)
  }

  /** Only a private job on the standard path relies on its early claim alone. */
  predicate ClaimsLate(env: Env) {
    !env.isPrivate || Route(env) != Some(FreshProof)
  }

  ghost predicate JobSucceeds(env: Env) {
    && env.elfFound && InputReady(env) && Route(env).Some?
    && (env.isPrivate ==> Succeeds(env.earlyClaim, env.maxRetries))
    && (ClaimsLate(env) ==> Succeeds(env.claim, env.maxRetries))
    && Succeeds(env.submit, env.maxRetries)
  }

  /** The events of a job that ended with `ok`. */
  ghost predicate Accounted(env: Env, ok: bool, trace: seq<Event>) {
    && (ok <==> trace != [] && trace[|trace| - 1].SubmitOk?)
    && Submissions(trace) == (if ok then 1 else 0)
    && ClaimedFirst(trace)
    && (!env.isPrivate ==> Times(trace, ClaimOk) <= 1)
    && (ok ==> Times(trace, ClaimOk) == (if env.isPrivate then 1 else 0) + (if ClaimsLate(env) then 1 else 0))
    && (ok ==> Some(trace[|trace| - 1].payload) == Route(env))
    && (forall e :: e in trace && (e.SubmitOk? || e.SubmitErr?) ==> Route(env) == Some(e.payload))
    && (SubmitOk(FreshProof) in trace || SubmitErr(FreshProof) in trace ==> ProofStored in trace)
  }

  /** The conditions of each way through a job, read off what it was told. */
  lemma RouteMeans(env: Env)
    ensures Route(env) == Some(CachedProof) <==> env.proofCached
    ensures Route(env) == Some(WrappedProof) <==>
            && !env.proofCached && env.preflightOk && !env.tooComplex
            && env.decomposable && env.cycles > 20_000_000 && env.decomposed.Some? && env.wraps
    ensures Route(env) == Some(FirstSubProof) <==>
            && !env.proofCached && env.preflightOk && !env.tooComplex
            && env.decomposable && env.cycles > 20_000_000 && env.decomposed == Some(1) && !env.wraps
    ensures Route(env) == Some(FreshProof) <==>
            && !env.proofCached && env.preflightOk && !env.tooComplex
            && !(env.decomposable && env.cycles > 20_000_000 && env.decomposed.Some? &&
                 (env.wraps || env.decomposed == Some(1)))
            && (env.skipProfitCheck || env.profitable == Some(true)) && env.proved
  {
  }

  lemma FailedBeforeSubmit(env: Env, trace: seq<Event>)
    requires NothingSubmitted(trace) && (!env.isPrivate ==> Times(trace, ClaimOk) <= 1)
    ensures Accounted(env, false, trace)
  {
    assert forall e: Event :: e in multiset(trace) <==> e in trace;
  }

  lemma Submitted(env: Env, ok: bool, p: Payload, trace: seq<Event>)
    requires NothingSubmitted(trace) && ClaimOk in trace && InputVerified in trace && Route(env) == Some(p)
    requires Times(trace, ClaimOk) == (if env.isPrivate then 1 else 0) + (if ClaimsLate(env) then 1 else 0)
    requires p == FreshProof ==> ProofStored in trace
    ensures Accounted(env, ok, trace + [if ok then SubmitOk(p) else SubmitErr(p)])
  {
    var trace' := trace + [if ok then SubmitOk(p) else SubmitErr(p)];
    assert trace'[..|trace|] == trace;
    assert forall e: Event :: e in multiset(trace) <==> e in trace;
  }

  /** The submit transaction, which ends the job either way. */
  method Submit(nonces: NonceManager, env: Env, ghost start: seq<U64>, p: Payload, trace: seq<Event>)
    returns (ok: bool, trace': seq<Event>)
    requires Budget(env, start, nonces.handed, trace)
    requires NothingSubmitted(trace) && ClaimOk in trace && InputVerified in trace && Route(env) == Some(p)
    requires Times(trace, ClaimOk) == (if env.isPrivate then 1 else 0) + (if ClaimsLate(env) then 1 else 0)
    requires p == FreshProof ==> ProofStored in trace
    modifies nonces
    ensures trace' == trace + [if ok then SubmitOk(p) else SubmitErr(p)]
    ensures Accounted(env, ok, trace')
    ensures Budget(env, start, nonces.handed, trace') && Transactions(trace') == Transactions(trace) + 1
    ensures ok == Succeeds(env.submit, env.maxRetries)
  {
    ok := Send(nonces, env, env.submit);
    Submitted(env, ok, p, trace);
    BudgetAfter(env, start, old(nonces.handed), trace, nonces.handed, if ok then SubmitOk(p) else SubmitErr(p));
    trace' := trace + [if ok then SubmitOk(p) else SubmitErr(p)];
  }

  /** Claim, then submit p: the tail of all three successful paths. */
  method ClaimAndSubmit(nonces: NonceManager, env: Env, ghost start: seq<U64>, p: Payload, trace: seq<Event>)
    returns (ok: bool, trace': seq<Event>)
    requires Budget(env, start, nonces.handed, trace)
    requires NothingSubmitted(trace) && InputVerified in trace && Route(env) == Some(p) && ClaimsLate(env)
    requires p != FreshProof
    requires Times(trace, ClaimOk) == if env.isPrivate then 1 else 0
    modifies nonces
    ensures Accounted(env, ok, trace')
    ensures Budget(env, start, nonces.handed, trace') && Transactions(trace') <= Transactions(trace) + 2
    ensures ok == (Succeeds(env.claim, env.maxRetries) && Succeeds(env.submit, env.maxRetries))
  {
    ok, trace' := Claim(nonces, env, start, env.claim, trace);
    if !ok {
      FailedBeforeSubmit(env, trace');
      return;
    }
    ok, trace' := Submit(nonces, env, start, p, trace');
  }

  lemma Verified(env: Env, start: seq<U64>, handed: seq<U64>, trace: seq<Event>)
    requires Budget(env, start, handed, trace) && NothingSubmitted(trace)
    ensures var trace' := trace + [InputVerified];
            && Budget(env, start, handed, trace') && Transactions(trace') == Transactions(trace)
            && NothingSubmitted(trace') && Times(trace', ClaimOk) == Times(trace, ClaimOk)
  {
    BudgetAfter(env, start, handed, trace, handed, InputVerified);
  }

  /** Steps 1 and 2: the program, the early claim of a private job, and the verified input. */
  method Prepare(nonces: NonceManager, env: Env) returns (ok: bool, trace: seq<Event>)
    modifies nonces
    ensures Budget(env, old(nonces.handed), nonces.handed, trace) && Transactions(trace) <= 1
    ensures NothingSubmitted(trace) && Times(trace, ClaimOk) <= 1
    ensures ok == (env.elfFound && InputReady(env) && (env.isPrivate ==> Succeeds(env.earlyClaim, env.maxRetries)))
    ensures ok ==> InputVerified in trace && Times(trace, ClaimOk) == (if env.isPrivate then 1 else 0)
    ensures ok && env.isPrivate ==> ClaimOk in trace
    ensures InputVerified in trace ==> ok
  {
    trace := [];
    if !env.elfFound { return false, trace; }
    if env.isPrivate {
      ok, trace := Claim(nonces, env, old(nonces.handed), env.earlyClaim, trace);
      if !ok { return; }
      if !env.hasSigner || !env.inputFetched || !env.digestMatches { return false, trace; }
    } else if !env.prefetched {
      if !env.inputFetched || !env.digestMatches { return false, trace; }
    }
    Verified(env, old(nonces.handed), nonces.handed, trace);
    trace := trace + [InputVerified];
    return true, trace;
  }

  /** Steps 5 to 9: profitability, claim unless claimed early, prove, store, submit. */
  method ProveFresh(nonces: NonceManager, env: Env, ghost start: seq<U64>, trace: seq<Event>)
    returns (ok: bool, trace': seq<Event>)
    requires Budget(env, start, nonces.handed, trace)
    requires !env.proofCached && env.preflightOk && !env.tooComplex && !DecompositionPays(env)
    requires NothingSubmitted(trace) && InputVerified in trace &&
              Times(trace, ClaimOk) == if env.isPrivate then 1 else 0
    requires env.isPrivate ==> ClaimOk in trace
    modifies nonces
    ensures Accounted(env, ok, trace')
    ensures Budget(env, start, nonces.handed, trace') && Transactions(trace') <= Transactions(trace) + 2
    ensures ok == (Route(env).Some? && (!env.isPrivate ==> Succeeds(env.claim, env.maxRetries))
                   && Succeeds(env.submit, env.maxRetries))
  {
    trace' := trace;
    FailedBeforeSubmit(env, trace');
    if !env.skipProfitCheck {
      if env.profitable != Some(true) { return false, trace'; }
    }
    if !env.isPrivate {
      ok, trace' := Claim(nonces, env, start, env.claim, trace');
      FailedBeforeSubmit(env, trace');
      if !ok { return; }
    }
    if !env.proved { return false, trace'; }
    BudgetAfter(env, start, nonces.handed, trace', nonces.handed, ProofStored);
    trace' := trace' + [ProofStored];
    ok, trace' := Submit(nonces, env, start, FreshProof, trace');
  }

  /** When a job succeeds, read off what it was told. */
  lemma JobMeans(env: Env)
    ensures JobSucceeds(env) <==>
            && env.elfFound
            && (if env.isPrivate then env.hasSigner && env.inputFetched && env.digestMatches
                else env.prefetched || (env.inputFetched && env.digestMatches))
            && (env.isPrivate ==> Succeeds(env.earlyClaim, env.maxRetries))
            && Succeeds(env.submit, env.maxRetries)
            && if env.proofCached then Succeeds(env.claim, env.maxRetries)
               else env.preflightOk && !env.tooComplex &&
                    if env.decomposable && env.cycles > 20_000_000 && env.decomposed.Some? &&
                       (env.wraps || env.decomposed == Some(1))
                    then Succeeds(env.claim, env.maxRetries)
                    else (env.skipProfitCheck || env.profitable == Some(true)) && env.proved &&
                         (env.isPrivate || Succeeds(env.claim, env.maxRetries))
  {
    RouteMeans(env);
  }

  /** The steps of a job, in order. */
  method RunJob(nonces: NonceManager, env: Env) returns (ok: bool, trace: seq<Event>)
    modifies nonces
    ensures ok == JobSucceeds(env)
    ensures Accounted(env, ok, trace)
    ensures NothingSubmitted(trace) || InputVerified in trace
    ensures InputVerified in trace ==> env.elfFound
    ensures InputVerified in trace && !env.isPrivate && !env.prefetched ==> env.inputFetched && env.digestMatches
    ensures InputVerified in trace && env.isPrivate ==> env.hasSigner && env.inputFetched && env.digestMatches
    ensures Budget(env, old(nonces.handed), nonces.handed, trace) && Transactions(trace) <= 3
  {
    ghost var start := nonces.handed;
    ok, trace := Prepare(nonces, env);
    FailedBeforeSubmit(env, trace);
    if !ok { return; }
    if env.proofCached {
      ok, trace := ClaimAndSubmit(nonces, env, start, CachedProof, trace);
      return;
    }
    if !env.preflightOk || env.tooComplex { return false, trace; }
    if env.decomposable && env.cycles > DECOMP_THRESHOLD_CYCLES && env.decomposed.Some? {
      if env.wraps {
        ok, trace := ClaimAndSubmit(nonces, env, start, WrappedProof, trace);
        return;
      } else if env.decomposed.value == 1 {
        ok, trace := ClaimAndSubmit(nonces, env, start, FirstSubProof, trace);
        return;
      }
    }
    ok, trace := ProveFresh(nonces, env, start, trace);
  }

  /** A whole job. It succeeds exactly when its outcomes allow it, and then exactly one submission succeeded, after
      a successful claim; public jobs never claim twice. Each of at most three transactions uses between one nonce and
      the attempts allowed. What follows says the same of what the job was told: its input is verified only with the
      program found and the digest matched, or prefetched, and for a private job by its signer; each kind of proof is
      submitted only on its own conditions; and on those, with the transactions confirmed, the job succeeds. */
  method ProcessJob(nonces: NonceManager, env: Env) returns (ok: bool, trace: seq<Event>)
    modifies nonces
    ensures ok == JobSucceeds(env)
    ensures Accounted(env, ok, trace)
    ensures NothingSubmitted(trace) || InputVerified in trace
    ensures InputVerified in trace ==> env.elfFound
    ensures InputVerified in trace && !env.isPrivate && !env.prefetched ==> env.inputFetched && env.digestMatches
    ensures InputVerified in trace && env.isPrivate ==> env.hasSigner && env.inputFetched && env.digestMatches
    ensures SubmitOk(CachedProof) in trace || SubmitErr(CachedProof) in trace ==> env.proofCached
    ensures SubmitOk(WrappedProof) in trace || SubmitErr(WrappedProof) in trace ==>
              && !env.proofCached && env.preflightOk && !env.tooComplex
              && env.decomposable && env.cycles > 20_000_000 && env.decomposed.Some? && env.wraps
    ensures SubmitOk(FirstSubProof) in trace || SubmitErr(FirstSubProof) in trace ==>
              && !env.proofCached && env.preflightOk && !env.tooComplex
              && env.decomposable && env.cycles > 20_000_000 && env.decomposed == Some(1) && !env.wraps
    ensures SubmitOk(FreshProof) in trace || SubmitErr(FreshProof) in trace ==>
              && !env.proofCached && env.preflightOk && !env.tooComplex
              && (env.skipProfitCheck || env.profitable == Some(true)) && env.proved && ProofStored in trace
    ensures ok <==>
            && env.elfFound
            && (if env.isPrivate then env.hasSigner && env.inputFetched && env.digestMatches
                else env.prefetched || (env.inputFetched && env.digestMatches))
            && (env.isPrivate ==> Succeeds(env.earlyClaim, env.maxRetries))
            && Succeeds(env.submit, env.maxRetries)
            && if env.proofCached then Succeeds(env.claim, env.maxRetries)
               else env.preflightOk && !env.tooComplex &&
                    if env.decomposable && env.cycles > 20_000_000 && env.decomposed.Some? &&
                       (env.wraps || env.decomposed == Some(1))
                    then Succeeds(env.claim, env.maxRetries)
                    else (env.skipProfitCheck || env.profitable == Some(true)) && env.proved &&
                         (env.isPrivate || Succeeds(env.claim, env.maxRetries))
    ensures Budget(env, old(nonces.handed), nonces.handed, trace) && Transactions(trace) <= 3
  {
    ok, trace := RunJob(nonces, env);
    RouteMeans(env);
    JobMeans(env);
  }
}
