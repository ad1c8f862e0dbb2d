/** Reading contract events from an append-only chain: log parsing, polling by cursor and the watch loop. */
module EventWatcher {
  import opened Basics

  type Address = s: seq<Byte> | |s| == 20 witness [0, 0, 0, 0, 0, 0, 0, 0, 0, 0, 0, 0, 0, 0, 0, 0, 0, 0, 0, 0]

  datatype Log = Log(topics: seq<Id32>, data: seq<Byte>, blockNumber: Option<nat>)

  datatype TEEEvent =
    | ResultSubmitted(resultId: Id32, modelHash: Id32, inputHash: Id32, submitter: Address, blockNumber: nat)
    | ResultChallenged(resultId: Id32, challenger: Address, blockNumber: nat)
    | ResultFinalized(resultId: Id32, blockNumber: nat)
    | ResultExpired(resultId: Id32, blockNumber: nat)

  /** The topic hashes of the four event signatures. */
  datatype Signatures = Signatures(submitted: Id32, challenged: Id32, finalized: Id32, expired: Id32) {
    predicate Distinct() {
      submitted != challenged && submitted != finalized && submitted != expired &&
      challenged != finalized && challenged != expired && finalized != expired
    }
  }

  /** The last 20 bytes of a 32-byte word. */
  function AddressIn(word: seq<Byte>): Address
    requires |word| >= 32
  {
    word[12..32]
  }

  function ParseLog(sig: Signatures, log: Log): Option<TEEEvent> {
    if log.topics == [] then None
    else
      var block := match log.blockNumber case Some(n) => n case None => 0;
      if log.topics[0] == sig.submitted then
        if |log.topics| < 4 || |log.data| < 32 then None
        else Some(ResultSubmitted(log.topics[1], log.topics[2], log.data[..32], AddressIn(log.topics[3]), block))
      else if log.topics[0] == sig.challenged then
        if |log.topics| < 2 || |log.data| < 32 then None
        else Some(ResultChallenged(log.topics[1], AddressIn(log.data), block))
      else if log.topics[0] == sig.finalized then
        if |log.topics| < 2 then None else Some(ResultFinalized(log.topics[1], block))
      else if log.topics[0] == sig.expired then
        if |log.topics| < 2 then None else Some(ResultExpired(log.topics[1], block))
      else None
  }

  /** Which logs are events: those with one of the four signatures, its topics and the data it needs. */
  lemma ParseMeans(sig: Signatures, log: Log)
    requires sig.Distinct()
    ensures ParseLog(sig, log).Some? <==>
            && log.topics != []
            && ((log.topics[0] == sig.submitted && |log.topics| >= 4 && |log.data| >= 32) ||
                (log.topics[0] == sig.challenged && |log.topics| >= 2 && |log.data| >= 32) ||
                ((log.topics[0] == sig.finalized || log.topics[0] == sig.expired) && |log.topics| >= 2))
    ensures ParseLog(sig, log).Some? ==>
              var e := ParseLog(sig, log).value;
              && e.resultId == log.topics[1]
              && (log.blockNumber.Some? ==> e.blockNumber == log.blockNumber.value)
              && (log.blockNumber.None? ==> e.blockNumber == 0)
              && (e.ResultSubmitted? <==> log.topics[0] == sig.submitted)
              && (e.ResultChallenged? <==> log.topics[0] == sig.challenged)
              && (e.ResultFinalized? <==> log.topics[0] == sig.finalized)
              && (e.ResultSubmitted? ==>
                  e.modelHash == log.topics[2] && e.inputHash == log.data[..32] && e.submitter == log.topics[3][12..])
              && (e.ResultChallenged? ==> e.challenger == log.data[12..32])
  {
  }

  // ----- The contract's side of the log format -----

  const PAD: seq<Byte> := [0, 0, 0, 0, 0, 0, 0, 0, 0, 0, 0, 0]

  function Padded(a: Address): Id32 {
    PAD + a
  }

  /** The log the contract emits for an event; `rest` is whatever data follows. */
  function EmitLog(sig: Signatures, e: TEEEvent, rest: seq<Byte>): Log {
    match e
    case ResultSubmitted(id, model, input, who, block) =>
      Log([sig.submitted, id, model, Padded(who)], input + rest, Some(block))
    case ResultChallenged(id, who, block) => Log([sig.challenged, id], Padded(who) + rest, Some(block))
    case ResultFinalized(id, block) => Log([sig.finalized, id], rest, Some(block))
    case ResultExpired(id, block) => Log([sig.expired, id], rest, Some(block))
  }

  /** Parsing recovers every emitted event, addresses and block number included. */
  lemma ParseEmitted(sig: Signatures, e: TEEEvent, rest: seq<Byte>)
    requires sig.Distinct()
    ensures ParseLog(sig, EmitLog(sig, e, rest)) == Some(e)
  {
    match e
    case ResultSubmitted(id, model, input, who, block) =>
      assert (input + rest)[..32] == input && Padded(who)[12..32] == who;
    case ResultChallenged(id, who, block) =>
      assert (Padded(who) + rest)[12..32] == who;
    case ResultFinalized(_, _) =>
    case ResultExpired(_, _) =>
  }

  // ----- Events of a range of blocks -----

  /** The blocks of the chain, each with the contract's logs. A block, once reported, never changes. */
  type Chain = seq<seq<Log>>

  /** `filter_map(parse)` over the first n items. */
  function FilterFirst<A, B>(parse: A -> Option<B>, items: seq<A>, n: nat): seq<B>
    requires n <= |items|
  {
    if n == 0 then []
    else FilterFirst(parse, items, n - 1) + match parse(items[n - 1]) case Some(e) => [e] case None => []
  }

  function FilterMap<A, B>(parse: A -> Option<B>, items: seq<A>): seq<B> {
    FilterFirst(parse, items, |items|)
  }

  function Parser(sig: Signatures): Log -> Option<TEEEvent> {
    (log: Log) => ParseLog(sig, log)
  }

  lemma {:induction false} FilterPrefix<A, B>(parse: A -> Option<B>, xs: seq<A>, ys: seq<A>, n: nat)
    requires n <= |xs| <= |ys| && ys[..|xs|] == xs
    ensures FilterFirst(parse, ys, n) == FilterFirst(parse, xs, n)
  {
    if n > 0 {
      FilterPrefix(parse, xs, ys, n - 1);
      assert ys[n - 1] == ys[..|xs|][n - 1];
    }
  }

  lemma {:induction false} FilterSuffix<A, B>(parse: A -> Option<B>, xs: seq<A>, ys: seq<A>, both: seq<A>, n: nat)
    requires both == xs + ys && n <= |ys|
    ensures FilterFirst(parse, both, |xs| + n) == FilterMap(parse, xs) + FilterFirst(parse, ys, n)
  {
    if n == 0 {
      assert both[..|xs|] == xs;
      FilterPrefix(parse, xs, both, |xs|);
    } else {
      FilterSuffix(parse, xs, ys, both, n - 1);
      assert both[|xs| + n - 1] == ys[n - 1];
    }
  }

  lemma FilterAppend<A, B>(parse: A -> Option<B>, xs: seq<A>, ys: seq<A>)
    ensures FilterMap(parse, xs + ys) == FilterMap(parse, xs) + FilterMap(parse, ys)
  {
    FilterSuffix(parse, xs, ys, xs + ys, |ys|);
  }

  /** What `get_logs` returns for the blocks lo up to, but not including, hi. */
  function Between<A>(chain: seq<seq<A>>, lo: nat, hi: nat): seq<A>
    requires hi <= |chain|
  {
    if hi <= lo then [] else Between(chain, lo, hi - 1) + chain[hi - 1]
  }

  /** The events of each block. */
  function FilterEach<A, B>(parse: A -> Option<B>, chain: seq<seq<A>>): (blocks: seq<seq<B>>)
    ensures |blocks| == |chain| && forall b :: 0 <= b < |chain| ==> blocks[b] == FilterMap(parse, chain[b])
  {
    seq(|chain|, b requires 0 <= b < |chain| => FilterMap(parse, chain[b]))
  }

  function Parsed(sig: Signatures, chain: Chain): (blocks: seq<seq<TEEEvent>>)
    ensures |blocks| == |chain|
  {
    FilterEach(Parser(sig), chain)
  }

  /** The events of blocks lo to hi, leaving out some blocks: each other block contributes its events once, in
      order. */
  function EventsExcept<E>(blocks: seq<seq<E>>, lo: nat, hi: nat, missed: set<nat>): seq<E>
    requires hi <= |blocks|
  {
    if hi <= lo then []
    else EventsExcept(blocks, lo, hi - 1, missed) + if hi - 1 in missed then [] else blocks[hi - 1]
  }

  /** Filtering the items of a window gives the filtered blocks of the window. */
  lemma {:induction false} WindowFiltered<A, B>(
    parse: A -> Option<B>, chain: seq<seq<A>>, blocks: seq<seq<B>>, lo: nat, hi: nat)
    requires hi <= |chain| && blocks == FilterEach(parse, chain)
    ensures FilterMap(parse, Between(chain, lo, hi)) == Between(blocks, lo, hi)
    decreases hi
  {
    if hi > lo {
      WindowFiltered(parse, chain, blocks, lo, hi - 1);
      FilterAppend(parse, Between(chain, lo, hi - 1), chain[hi - 1]);
      assert blocks[hi - 1] == FilterMap(parse, chain[hi - 1]);
    }
  }

  lemma WindowParsed(sig: Signatures, chain: Chain, lo: nat, hi: nat)
    requires hi <= |chain|
    ensures FilterMap(Parser(sig), Between(chain, lo, hi)) == Between(Parsed(sig, chain), lo, hi)
  {
    WindowFiltered(Parser(sig), chain, Parsed(sig, chain), lo, hi);
  }

  lemma {:induction false} RangesJoin<E>(blocks: seq<seq<E>>, start: nat, lo: nat, hi: nat, missed: set<nat>)
    requires start <= lo <= hi <= |blocks| && forall b :: b in missed ==> b < lo
    ensures EventsExcept(blocks, start, hi, missed) == EventsExcept(blocks, start, lo, missed) + Between(blocks, lo, hi)
    decreases hi
  {
    if hi > lo {
      RangesJoin(blocks, start, lo, hi - 1, missed);
      assert hi - 1 !in missed;
      Regroup(EventsExcept(blocks, start, lo, missed), Between(blocks, lo, hi - 1), blocks[hi - 1]);
    } else {
      NothingAdded(EventsExcept(blocks, start, lo, missed));
    }
  }

  lemma {:induction false} WindowMissed<E>(blocks: seq<seq<E>>, start: nat, lo: nat, hi: nat, missed: set<nat>)
    requires start <= lo <= hi <= |blocks| && forall b :: lo <= b < hi ==> b in missed
    ensures EventsExcept(blocks, start, hi, missed) == EventsExcept(blocks, start, lo, missed)
    decreases hi
  {
    if hi > lo {
      WindowMissed(blocks, start, lo, hi - 1, missed);
      NothingAdded(EventsExcept(blocks, start, hi - 1, missed));
    }
  }

  lemma {:induction false} MissedBelow<E>(blocks: seq<seq<E>>, lo: nat, hi: nat, a: set<nat>, b: set<nat>)
    requires hi <= |blocks| && forall n :: n < hi ==> (n in a <==> n in b)
    ensures EventsExcept(blocks, lo, hi, a) == EventsExcept(blocks, lo, hi, b)
    decreases hi
  {
    if hi > lo { MissedBelow(blocks, lo, hi - 1, a, b); }
  }

  /** With nothing missed, what is left of a range is all of it. */
  lemma {:induction false} NothingExcepted<E>(blocks: seq<seq<E>>, lo: nat, hi: nat)
    requires hi <= |blocks|
    ensures EventsExcept(blocks, lo, hi, {}) == Between(blocks, lo, hi)
    decreases hi
  {
    if hi > lo { NothingExcepted(blocks, lo, hi - 1); }
  }

  // ----- Polling by cursor -----

  /** One poll: the block number reported (if the query succeeds) and whether the log query succeeds. */
  datatype Observation = Observation(latest: Option<nat>, logsOk: bool)

  predicate Observes(chain: Chain, o: Observation) {
    o.latest.Some? ==> o.latest.value < |chain|
  }

  /** Events and the next cursor, or a failure. */
  function PollEvents(sig: Signatures, chain: Chain, o: Observation, from: nat): Option<(seq<TEEEvent>, nat)>
    requires Observes(chain, o)
  {
    if o.latest.None? then None
    else if from > o.latest.value then Some(([], from))
    else if !o.logsOk then None
    else Some((FilterMap(Parser(sig), Between(chain, from, o.latest.value + 1)), o.latest.value + 1))
  }

  /** What has been delivered when the cursor stands at `cursor`; nothing yet if it started beyond the chain. */
  function Delivered<E>(blocks: seq<seq<E>>, start: nat, cursor: nat): seq<E> {
    if cursor <= |blocks| then Between(blocks, start, cursor) else []
  }

  /** Where an observation moves the cursor. A client of polls moves it only when the logs were fetched, the watch
      loop in any case. */
  function Moved(c: nat, o: Observation, onlyFetched: bool): nat {
    if o.latest.Some? && c <= o.latest.value && (o.logsOk || !onlyFetched) then o.latest.value + 1 else c
  }

  /** Where the cursor stands after the first n observations. */
  function CursorAfter(start: nat, os: seq<Observation>, onlyFetched: bool, n: nat): (c: nat)
    requires n <= |os|
    ensures start <= c
  {
    if n == 0 then start else Moved(CursorAfter(start, os, onlyFetched, n - 1), os[n - 1], onlyFetched)
  }

  lemma {:induction false} CursorGrows(start: nat, os: seq<Observation>, onlyFetched: bool, i: nat, n: nat)
    requires i <= n <= |os|
    ensures CursorAfter(start, os, onlyFetched, i) <= CursorAfter(start, os, onlyFetched, n)
    decreases n
  {
    if i < n { CursorGrows(start, os, onlyFetched, i, n - 1); }
  }

  /** The cursor is beyond every block observed as the latest, except by a poll that fetched nothing. */
  lemma CursorPasses(start: nat, os: seq<Observation>, onlyFetched: bool, i: nat, n: nat)
    requires i < n <= |os| && os[i].latest.Some? && (os[i].logsOk || !onlyFetched)
    ensures os[i].latest.value < CursorAfter(start, os, onlyFetched, n)
  {
    assert os[i].latest.value < CursorAfter(start, os, onlyFetched, i + 1);
    CursorGrows(start, os, onlyFetched, i + 1, n);
  }

  /** The events of the window of one turn, if it has one and its logs were fetched. */
  function Gained<E>(blocks: seq<seq<E>>, o: Observation, c: nat): seq<E>
    requires o.latest.Some? ==> o.latest.value < |blocks|
  {
    if o.latest.Some? && c <= o.latest.value && o.logsOk then Between(blocks, c, o.latest.value + 1) else []
  }

  /** A successful poll returns the events of its window and the cursor behind it; a failed one changes nothing. */
  lemma PollReturns(sig: Signatures, chain: Chain, o: Observation, from: nat)
    requires Observes(chain, o)
    ensures match PollEvents(sig, chain, o, from)
            case Some(r) => r.0 == Gained(Parsed(sig, chain), o, from) && r.1 == Moved(from, o, true)
            case None => Gained(Parsed(sig, chain), o, from) == [] && Moved(from, o, true) == from
  {
    if o.latest.Some? && from <= o.latest.value {
      WindowParsed(sig, chain, from, o.latest.value + 1);
    }
  }

  lemma PollExtends<E>(blocks: seq<seq<E>>, start: nat, o: Observation, from: nat)
    requires (o.latest.Some? ==> o.latest.value < |blocks|) && start <= from
    ensures Delivered(blocks, start, from) + Gained(blocks, o, from) == Delivered(blocks, start, Moved(from, o, true))
  {
    if o.latest.Some? && from <= o.latest.value && o.logsOk {
      BetweenJoins(blocks, start, from, o.latest.value + 1);
    } else {
      NothingAdded(Delivered(blocks, start, from));
    }
  }

  lemma BetweenJoins<E>(blocks: seq<seq<E>>, start: nat, lo: nat, hi: nat)
    requires start <= lo <= hi <= |blocks|
    ensures Between(blocks, start, hi) == Between(blocks, start, lo) + Between(blocks, lo, hi)
  {
    RangesJoin(blocks, start, lo, hi, {});
    NothingExcepted(blocks, start, lo);
    NothingExcepted(blocks, start, hi);
  }

  /** A client that keeps its cursor on failure and otherwise continues from the returned one. Whatever polls fail,
      it has every event between its start and its cursor, once and in order. */
  method PollRepeatedly(sig: Signatures, chain: Chain, start: nat, os: seq<Observation>)
    returns (delivered: seq<TEEEvent>, cursor: nat)
    requires forall o :: o in os ==> Observes(chain, o)
    ensures cursor == CursorAfter(start, os, true, |os|)
    ensures delivered == Delivered(Parsed(sig, chain), start, cursor)
  {
    delivered, cursor := [], start;
    ghost var blocks := Parsed(sig, chain);
    for i := 0 to |os|
      invariant cursor == CursorAfter(start, os, true, i)
      invariant delivered == Delivered(blocks, start, cursor)
    {
      assert Observes(chain, os[i]);
      PollReturns(sig, chain, os[i], cursor);
      PollExtends(blocks, start, os[i], cursor);
      NothingAdded(delivered);
      var r := PollEvents(sig, chain, os[i], cursor);
      if r.Some? {
        delivered := delivered + r.value.0;
        cursor := r.value.1;
      }
    }
  }

  // ----- The watch loop -----

  function Range(lo: nat, hi: nat): (r: set<nat>)
    ensures forall b :: b in r <==> lo <= b < hi
    decreases hi
  {
    if hi <= lo then {} else Range(lo, hi - 1) + {hi - 1}
  }

  /** The blocks of a window whose logs could not be fetched. */
  function Lost(c: nat, o: Observation): set<nat> {
    if o.latest.Some? && !o.logsOk then Range(c, o.latest.value + 1) else {}
  }

  /** The blocks of all such windows among the first n turns. */
  function Missed(start: nat, os: seq<Observation>, n: nat): set<nat>
    requires n <= |os|
  {
    if n == 0 then {} else Missed(start, os, n - 1) + Lost(CursorAfter(start, os, false, n - 1), os[n - 1])
  }

  /** Block b was in the window of observation i, and its logs could not be fetched. */
  predicate LostAt(start: nat, os: seq<Observation>, i: nat, b: nat)
    requires i < |os|
  {
    os[i].latest.Some? && !os[i].logsOk && CursorAfter(start, os, false, i) <= b <= os[i].latest.value
  }

  lemma {:induction false} MissedExactly(start: nat, os: seq<Observation>, n: nat, b: nat)
    requires n <= |os|
    ensures b in Missed(start, os, n) <==> exists i: nat :: i < n && LostAt(start, os, i, b)
  {
    if n > 0 {
      MissedExactly(start, os, n - 1, b);
      assert b in Lost(CursorAfter(start, os, false, n - 1), os[n - 1]) <==> LostAt(start, os, n - 1, b);
    }
  }

  lemma {:induction false} MissedBehindCursor(start: nat, os: seq<Observation>, n: nat)
    requires n <= |os|
    ensures forall b :: b in Missed(start, os, n) ==> start <= b < CursorAfter(start, os, false, n)
  {
    if n > 0 { MissedBehindCursor(start, os, n - 1); }
  }

  /** Blocks lo to hi were gained or missed, and nothing else changed. */
  ghost predicate Extends<E>(
    blocks: seq<seq<E>>, start: nat, lo: nat, missed: set<nat>, gained: seq<E>, hi: nat, more: set<nat>)
  {
    && lo <= hi <= |blocks|
    && EventsExcept(blocks, start, lo, missed) + gained == EventsExcept(blocks, start, hi, missed + more)
  }

  lemma FetchedTurn<E>(blocks: seq<seq<E>>, start: nat, lo: nat, hi: nat, missed: set<nat>)
    requires start <= lo <= hi <= |blocks| && forall b :: b in missed ==> start <= b < lo
    ensures Extends(blocks, start, lo, missed, Between(blocks, lo, hi), hi, {})
  {
    RangesJoin(blocks, start, lo, hi, missed);
    assert missed + {} == missed;
  }

  /** A window whose logs could not be fetched: its blocks join the missed ones, and nothing is delivered. */
  lemma FailedTurn<E>(blocks: seq<seq<E>>, start: nat, lo: nat, hi: nat, missed: set<nat>)
    requires start <= lo <= hi <= |blocks| && forall b :: b in missed ==> start <= b < lo
    ensures Extends(blocks, start, lo, missed, [], hi, Range(lo, hi))
  {
    var more := missed + Range(lo, hi);
    MissedBelow(blocks, start, lo, missed, more);
    WindowMissed(blocks, start, lo, hi, more);
    NothingAdded(EventsExcept(blocks, start, lo, missed));
  }

  lemma IdleTurn<E>(blocks: seq<seq<E>>, start: nat, c: nat, missed: set<nat>, none: set<nat>)
    requires c <= |blocks| && none == {}
    ensures Extends(blocks, start, c, missed, [], c, none)
  {
    assert missed + none == missed;
    NothingAdded(EventsExcept(blocks, start, c, missed));
  }

  /** One turn, as an observation o made at cursor c with some blocks missed before. */
  lemma TurnExtends<E>(blocks: seq<seq<E>>, start: nat, o: Observation, c: nat, missed: set<nat>)
    requires o.latest.Some? ==> o.latest.value < |blocks|
    requires start <= c <= |blocks| && forall b :: b in missed ==> start <= b < c
    ensures Extends(blocks, start, c, missed, Gained(blocks, o, c), Moved(c, o, false), Lost(c, o))
  {
    if o.latest.None? || o.latest.value < c {
      IdleTurn(blocks, start, c, missed, Lost(c, o));
    } else if o.logsOk {
      FetchedTurn(blocks, start, c, o.latest.value + 1, missed);
    } else {
      FailedTurn(blocks, start, c, o.latest.value + 1, missed);
    }
  }

  /** What the watch loop has delivered after n turns. */
  ghost predicate WatchedUpTo<E>(
    blocks: seq<seq<E>>, start: nat, os: seq<Observation>, n: nat, delivered: seq<E>, cursor: nat)
    requires n <= |os|
  {
    && cursor == CursorAfter(start, os, false, n) <= |blocks|
    && delivered == EventsExcept(blocks, start, cursor, Missed(start, os, n))
  }

  lemma OneMoreTurn<E>(
    blocks: seq<seq<E>>, start: nat, os: seq<Observation>, n: nat, delivered: seq<E>, cursor: nat)
    requires n < |os| && (os[n].latest.Some? ==> os[n].latest.value < |blocks|)
    requires WatchedUpTo(blocks, start, os, n, delivered, cursor)
    ensures WatchedUpTo(blocks, start, os, n + 1, delivered + Gained(blocks, os[n], cursor),
              Moved(cursor, os[n], false))
  {
    MissedBehindCursor(start, os, n);
    TurnExtends(blocks, start, os[n], cursor, Missed(start, os, n));
  }

  lemma {:induction false} MissingShortens<E>(blocks: seq<seq<E>>, lo: nat, hi: nat, missed: set<nat>)
    requires hi <= |blocks|
    ensures |EventsExcept(blocks, lo, hi, missed)| <= |Between(blocks, lo, hi)|
    decreases hi
  {
    if hi > lo { MissingShortens(blocks, lo, hi - 1, missed); }
  }

  lemma {:induction false} MissingLoses<E>(blocks: seq<seq<E>>, lo: nat, hi: nat, missed: set<nat>, b: nat)
    requires hi <= |blocks| && lo <= b < hi && b in missed && blocks[b] != []
    ensures |EventsExcept(blocks, lo, hi, missed)| < |Between(blocks, lo, hi)|
    decreases hi
  {
    if b == hi - 1 { MissingShortens(blocks, lo, b, missed); } else { MissingLoses(blocks, lo, hi - 1, missed, b); }
  }

  lemma {:induction false} MissingNothing<E>(blocks: seq<seq<E>>, lo: nat, hi: nat, missed: set<nat>)
    requires hi <= |blocks| && forall b :: lo <= b < hi && b in missed ==> blocks[b] == []
    ensures EventsExcept(blocks, lo, hi, missed) == Between(blocks, lo, hi)
    decreases hi
  {
    if hi > lo { MissingNothing(blocks, lo, hi - 1, missed); }
  }

  /** Nothing is lost exactly when the missed blocks held no event. */
  lemma ExactlyOnceIff<E>(blocks: seq<seq<E>>, lo: nat, hi: nat, missed: set<nat>)
    requires hi <= |blocks|
    ensures EventsExcept(blocks, lo, hi, missed) == Between(blocks, lo, hi) <==>
            forall b :: lo <= b < hi && b in missed ==> blocks[b] == []
  {
    if b :| lo <= b < hi && b in missed && blocks[b] != [] {
      MissingLoses(blocks, lo, hi, missed, b);
    } else {
      MissingNothing(blocks, lo, hi, missed);
    }
  }

  /** No window whose fetch failed held an event. */
  ghost predicate NothingLost<E>(blocks: seq<seq<E>>, start: nat, os: seq<Observation>) {
    forall i: nat, b: nat :: i < |os| && b < |blocks| && LostAt(start, os, i, b) ==> blocks[b] == []
  }

  /** Over a whole run of the watch loop: every event from the start to the cursor is delivered exactly once if and
      only if no window whose fetch failed held an event; in particular when every fetch succeeds. */
  lemma WatchComplete<E>(blocks: seq<seq<E>>, start: nat, os: seq<Observation>, delivered: seq<E>, cursor: nat)
    requires WatchedUpTo(blocks, start, os, |os|, delivered, cursor)
    ensures delivered == Between(blocks, start, cursor) <==> NothingLost(blocks, start, os)
    ensures (forall o :: o in os ==> o.logsOk) ==> NothingLost(blocks, start, os)
  {
    var missed := Missed(start, os, |os|);
    ExactlyOnceIff(blocks, start, cursor, missed);
    MissedBehindCursor(start, os, |os|);
    if forall b :: start <= b < cursor && b in missed ==> blocks[b] == [] {
      forall i: nat, b: nat | i < |os| && b < |blocks| && LostAt(start, os, i, b) ensures blocks[b] == [] {
        MissedExactly(start, os, |os|, b);
      }
    } else {
      var b :| start <= b < cursor && b in missed && blocks[b] != [];
      MissedExactly(start, os, |os|, b);
    }
  }

  /** The callback, for every log of a window that parses. */
  method DeliverWindow(sig: Signatures, chain: Chain, lo: nat, hi: nat, before: seq<TEEEvent>)
    returns (delivered: seq<TEEEvent>)
    requires hi <= |chain|
    ensures delivered == before + Between(Parsed(sig, chain), lo, hi)
  {
    delivered := before;
    var logs := Between(chain, lo, hi);
    for i := 0 to |logs|
      invariant delivered == before + FilterFirst(Parser(sig), logs, i)
    {
      var event := ParseLog(sig, logs[i]);
      FilterStep(sig, logs, i, before);
      if event.Some? { delivered := delivered + [event.value]; }
    }
    WindowParsed(sig, chain, lo, hi);
  }

  lemma FilterStep(sig: Signatures, logs: seq<Log>, i: nat, before: seq<TEEEvent>)
    requires i < |logs|
    ensures before + FilterFirst(Parser(sig), logs, i + 1) ==
            before + FilterFirst(Parser(sig), logs, i) +
            match ParseLog(sig, logs[i]) case Some(e) => [e] case None => []
  {
  }

  /** One turn of the loop: the cursor moves on even when the logs could not be fetched. */
  method WatchTurn(sig: Signatures, chain: Chain, o: Observation, before: seq<TEEEvent>, from: nat)
    returns (delivered: seq<TEEEvent>, next: nat)
    requires Observes(chain, o)
    ensures delivered == before + Gained(Parsed(sig, chain), o, from) && next == Moved(from, o, false)
  {
    delivered, next := before, from;
    NothingAdded(before);
    if o.latest.Some? && from <= o.latest.value {
      if o.logsOk {
        delivered := DeliverWindow(sig, chain, from, o.latest.value + 1, before);
      }
      next := o.latest.value + 1;
    }
  }

  /** The loop until it is stopped. It starts from the latest block, or from block 0 if that is not known. The
      blocks of windows whose logs could not be fetched are missed for good. Every other block is delivered once, in
      order, so everything up to the cursor is delivered if and only if the missed blocks held nothing. */
  method Watch(sig: Signatures, chain: Chain, first: Option<nat>, os: seq<Observation>)
    returns (delivered: seq<TEEEvent>, fromBlock: nat)
    requires (first.Some? ==> first.value < |chain|) && forall o :: o in os ==> Observes(chain, o)
    ensures var start := if first.Some? then first.value else 0;
            && start <= fromBlock <= |chain|
            && WatchedUpTo(Parsed(sig, chain), start, os, |os|, delivered, fromBlock)
            && (delivered == Between(Parsed(sig, chain), start, fromBlock) <==>
                NothingLost(Parsed(sig, chain), start, os))
  {
    fromBlock := 0;
    if first.Some? { fromBlock := first.value; }
    delivered := [];
    ghost var start, blocks := fromBlock, Parsed(sig, chain);
    for i := 0 to |os|
      invariant WatchedUpTo(blocks, start, os, i, delivered, fromBlock)
    {
      assert Observes(chain, os[i]);
      OneMoreTurn(blocks, start, os, i, delivered, fromBlock);
      delivered, fromBlock := WatchTurn(sig, chain, os[i], delivered, fromBlock);
    }
    WatchComplete(blocks, start, os, delivered, fromBlock);
  }
}
