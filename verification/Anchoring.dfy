/** Scheduled anchoring: seal new entries into epochs, then ask every configured
    authority for a receipt, again after failures. The authorities' answers and
    the clock are parameters; other connections may append at any time. */
module Anchoring {
  import opened Text
  import opened Lists
  import opened Epochs
  import opened Ledger

  /** When to seal, and how long to wait before asking again. */
  datatype AnchorPolicy = AnchorPolicy(every: Option<nat>, interval: Option<nat>, retry: nat)

  datatype AnchorEvent =
    | SealedEpoch(epoch: nat, firstSeq: nat, lastSeq: nat)
    | Anchored(epoch: nat, firstSeq: nat, lastSeq: nat, kinds: seq<Kind>)
    | Failed(epoch: nat, firstSeq: nat, lastSeq: nat, kind: Kind, error: string)

  /** A scheduler's fixed parts: the gate's key, the policy, the authorities set up. */
  datatype Config = Config(env: Env, policy: AnchorPolicy, tsa: bool, rekor: bool)

  /** What an authority answers when asked about an epoch. */
  type Authority = (nat, Kind) -> Result<string, string>

  // ----- asking the authorities -----

  function Wanted(c: Config): seq<Kind> {
    (if c.rekor then [Rekor] else []) + (if c.tsa then [Rfc3161] else [])
  }

  function Got(on: bool, kind: Kind, ask: Authority, epoch: nat, have: seq<Receipt>): seq<Receipt> {
    if on && !Holds(have, kind) && ask(epoch, kind).Ok? then [Receipt(kind, ask(epoch, kind).value)] else []
  }

  function Refused(on: bool, kind: Kind, ask: Authority, epoch: nat, have: seq<Receipt>): seq<Refusal> {
    if on && !Holds(have, kind) && ask(epoch, kind).Err? then [Refusal(kind, ask(epoch, kind).error)] else []
  }

  function Receipts(c: Config, ask: Authority, epoch: nat, have: seq<Receipt>): seq<Receipt> {
    Got(c.tsa, Rfc3161, ask, epoch, have) + Got(c.rekor, Rekor, ask, epoch, have)
  }

  function Refusals(c: Config, ask: Authority, epoch: nat, have: seq<Receipt>): seq<Refusal> {
    Refused(c.tsa, Rfc3161, ask, epoch, have) + Refused(c.rekor, Rekor, ask, epoch, have)
  }

  /** Ask every configured authority there is no receipt from yet. */
  method Anchor(c: Config, ask: Authority, epoch: nat, have: seq<Receipt>)
    returns (got: seq<Receipt>, failed: seq<Refusal>)
    ensures got == Receipts(c, ask, epoch, have) && failed == Refusals(c, ask, epoch, have)
  {
    got, failed := [], [];
    if c.tsa && !Holds(have, Rfc3161) {
      match ask(epoch, Rfc3161)
      case Ok(body) => got := got + [Receipt(Rfc3161, body)];
      case Err(e) => failed := failed + [Refusal(Rfc3161, e)];
    }
    if c.rekor && !Holds(have, Rekor) {
      match ask(epoch, Rekor)
      case Ok(body) => got := got + [Receipt(Rekor, body)];
      case Err(e) => failed := failed + [Refusal(Rekor, e)];
    }
  }

  // ----- what a scheduler does -----

  /** One attempt at anchoring an epoch. */
  datatype Try = Try(epoch: nat, at: int, ok: bool)

  /** The ledger, a scheduler's memory, and what was reported and tried so far;
      `tries` are those of the current run of the scheduler. */
  datatype World = World(state: State, lastSeal: int, failedAt: map<nat, int>, events: seq<AnchorEvent>,
                         tries: seq<Try>)

  /** `saturating_duration_since` */
  function Since(now: int, earlier: int): nat {
    if now >= earlier then now - earlier else 0
  }

  predicate IsDue(policy: AnchorPolicy, unsealed: nat, now: int, lastSeal: int) {
    unsealed > 0 &&
    ((policy.every.Some? && unsealed >= (if policy.every.value < 1 then 1 else policy.every.value))
     || (policy.interval.Some? && Since(now, lastSeal) >= policy.interval.value))
  }

  function SealNow(c: Config, w: World, now: int, sealedAt: string): World {
    var s := Sealed(c.env, w.state, sealedAt);
    w.(state := s, lastSeal := now,
       events := if HasUnsealed(w.state)
                 then
                   var head := NextHead(c.env, w.state, sealedAt);
                   w.events + [SealedEpoch(head.epoch, head.firstSeq, head.lastSeq)]
                 else w.events)
  }

  predicate Misses(c: Config, e: StoredEpoch) {
    exists k :: k in Wanted(c) && k !in Kinds(e.anchors)
  }

  function MissesOf(c: Config): StoredEpoch -> bool {
    (e: StoredEpoch) => Misses(c, e)
  }

  /** The retry time has not come; without a time retry times are ignored. */
  predicate Waits(c: Config, now: Option<int>, failedAt: map<nat, int>, epoch: nat) {
    now.Some? && epoch in failedAt && Since(now.value, failedAt[epoch]) < c.policy.retry
  }

  function FailedEventOf(head: EpochHead): Refusal -> AnchorEvent {
    (r: Refusal) => Failed(head.epoch, head.firstSeq, head.lastSeq, r.kind, r.error)
  }

  datatype Clock = Clock(now: Option<int>, ask: Authority, later: nat -> int)

  function At(k: Clock, epoch: nat): int {
    if k.now.Some? then k.now.value else k.later(epoch)
  }

  function AnchorsAfter(s: State, epoch: nat): seq<Receipt> {
    var row := Row(s.epochs, epoch);
    if row.Some? && row.value < |s.epochs| then s.epochs[row.value].anchors else []
  }

  function Stored(s: State, epoch: nat, got: seq<Receipt>, error: Option<seq<Refusal>>): State {
    var row := Row(s.epochs, epoch);
    if row.Some? && row.value < |s.epochs| then WithAnchors(s, row.value, got, error) else s
  }

  function Attempt(c: Config, k: Clock, w: World, e: StoredEpoch): World {
    var epoch, head := e.head.epoch, e.head;
    var got, refused := Receipts(c, k.ask, epoch, e.anchors), Refusals(c, k.ask, epoch, e.anchors);
    var s := Stored(w.state, epoch, got, if refused == [] then None else Some(refused));
    World(
      s,
      w.lastSeal,
      if refused == [] then w.failedAt - {epoch} else w.failedAt[epoch := At(k, epoch)],
      w.events + (if refused == []
                  then [Anchored(epoch, head.firstSeq, head.lastSeq, Kinds(AnchorsAfter(s, epoch)))]
                  else Map(FailedEventOf(head), refused)),
      w.tries + [Try(epoch, At(k, epoch), refused == [])])
  }

  function Visit(c: Config, k: Clock, w: World, e: StoredEpoch): World {
    if Waits(c, k.now, w.failedAt, e.head.epoch) then w else Attempt(c, k, w, e)
  }

  function VisitAll(c: Config, k: Clock, w: World, pending: seq<StoredEpoch>): World {
    if pending == [] then w
    else Visit(c, k, VisitAll(c, k, w, pending[..|pending| - 1]), pending[|pending| - 1])
  }

  function AnchorPending(c: Config, k: Clock, w: World): World {
    VisitAll(c, k, w, Filter(MissesOf(c), w.state.epochs))
  }

  /** `late`: what other connections append between the look at the ledger and
      the sealing transaction. */
  function Ticked(c: Config, w: World, now: int, late: seq<Arrival>, sealedAt: string, ask: Authority): World {
    var due := IsDue(c.policy, Unsealed(w.state), now, w.lastSeal);
    var w' := w.(state := AllAppended(c.env, w.state, late));
    AnchorPending(c, Clock(Some(now), ask, _ => now), if due then SealNow(c, w', now, sealedAt) else w')
  }

  function Flushed(c: Config, w: World, now: int, late: seq<Arrival>, sealedAt: string, ask: Authority,
                   later: nat -> int): World {
    var w' := w.(state := AllAppended(c.env, w.state, late));
    AnchorPending(c, Clock(None, ask, later), if Unsealed(w.state) > 0 then SealNow(c, w', now, sealedAt) else w')
  }

  // ----- the scheduler -----

  class AnchorScheduler {
    const store: LedgerStore
    const config: Config
    var lastSeal: int
    var failedAt: map<nat, int>
    ghost var history: seq<AnchorEvent>
    ghost var tries: seq<Try>

    constructor (store: LedgerStore, config: Config, started: int)
      ensures this.store == store && this.config == config
      ensures Contents() == World(store.Contents(), started, map[], [], [])
    {
      this.store, this.config, lastSeal, failedAt, history, tries := store, config, started, map[], [], [];
    }

    ghost function Contents(): World
      reads this, store
    {
      World(store.Contents(), lastSeal, failedAt, history, tries)
    }

    method UnsealedCount() returns (n: nat)
      ensures n == Unsealed(store.Contents())
    {
      var next := store.NextUnsealedSeq();
      var head := store.DecisionHeadSeq();
      n := if head.Some? && head.value >= next then head.value - next + 1 else 0;
    }

    method Seal(now: int, sealedAt: string, before: seq<AnchorEvent>) returns (events: seq<AnchorEvent>)
      modifies this, store
      ensures Contents() == SealNow(config, old(Contents()), now, sealedAt)
      ensures |events| >= |before| && history == old(history) + events[|before|..] && events[..|before|] == before
    {
      hide NextHead;
      var head := store.SealEpoch(config.env, sealedAt);
      events := before;
      if head.Some? {
        events := events + [SealedEpoch(head.value.epoch, head.value.firstSeq, head.value.lastSeq)];
      }
      lastSeal := now;
      history := history + events[|before|..];
    }

    method AnchorMissing(k: Clock, before: seq<AnchorEvent>) returns (events: seq<AnchorEvent>)
      modifies this, store
      ensures Contents() == AnchorPending(config, k, old(Contents()))
      ensures |events| >= |before| && history == old(history) + events[|before|..] && events[..|before|] == before
    {
      ghost var start := Contents();
      assert start.state.epochs == store.epochs;
      hide *;
      var pending := Filter(MissesOf(config), store.epochs);
      PendingStart(config, k, start, pending);
      events := before;
      for i := 0 to |pending|
        invariant Contents() == VisitAll(config, k, start, pending[..i])
        invariant |events| >= |before| && history == old(history) + events[|before|..] && events[..|before|] == before
      {
        VisitNext(config, k, start, pending, i);
        label Before:
        var own := VisitOne(k, pending[i]);
        MoreEvents(old(history), events, own, |before|);
        events := events + own;
      }
      assert pending[..|pending|] == pending;
    }

    method VisitOne(k: Clock, e: StoredEpoch) returns (own: seq<AnchorEvent>)
      modifies this, store
      ensures Contents() == Visit(config, k, old(Contents()), e)
      ensures history == old(history) + own
    {
      hide Receipts, Refusals, Map, Kinds, Row, WithReceipts, Holds;
      own := [];
      var epoch := e.head.epoch;
      if k.now.Some? && epoch in failedAt && Since(k.now.value, failedAt[epoch]) < config.policy.retry {
        return;
      }
      var got, failed := Anchor(config, k.ask, epoch, e.anchors);
      var found := store.AddEpochAnchors(epoch, got, if failed == [] then None else Some(failed));
      if failed == [] {
        failedAt := failedAt - {epoch};
        var stored := AnchorsAfter(store.Contents(), epoch);
        own := [Anchored(epoch, e.head.firstSeq, e.head.lastSeq, Kinds(stored))];
      } else {
        failedAt := failedAt[epoch := At(k, epoch)];
        own := Map(FailedEventOf(e.head), failed);
      }
      history := history + own;
      tries := tries + [Try(epoch, At(k, epoch), failed == [])];
    }

    method Tick(now: int, late: seq<Arrival>, sealedAt: string, ask: Authority) returns (events: seq<AnchorEvent>)
      modifies this, store
      ensures Contents() == Ticked(config, old(Contents()), now, late, sealedAt, ask)
      ensures history == old(history) + events
    {
      hide AllAppended, Unsealed, SealNow, AnchorPending;
      var unsealed := UnsealedCount();
      store.AppendAll(config.env, late);
      events := [];
      if IsDue(config.policy, unsealed, now, lastSeal) {
        events := Seal(now, sealedAt, events);
      }
      events := AnchorMissing(Clock(Some(now), ask, _ => now), events);
    }

    method Flush(now: int, late: seq<Arrival>, sealedAt: string, ask: Authority, later: nat -> int)
      returns (events: seq<AnchorEvent>)
      modifies this, store
      ensures Contents() == Flushed(config, old(Contents()), now, late, sealedAt, ask, later)
      ensures history == old(history) + events
    {
      hide AllAppended, Unsealed, SealNow, AnchorPending;
      var unsealed := UnsealedCount();
      store.AppendAll(config.env, late);
      events := [];
      if unsealed > 0 {
        events := Seal(now, sealedAt, events);
      }
      events := AnchorMissing(Clock(None, ask, later), events);
    }
  }

  lemma PendingStart(c: Config, k: Clock, w: World, pending: seq<StoredEpoch>)
    ensures VisitAll(c, k, w, pending[..0]) == w
    ensures pending == Filter(MissesOf(c), w.state.epochs) ==> AnchorPending(c, k, w) == VisitAll(c, k, w, pending)
  {
    hide Visit;
  }

  lemma VisitNext(c: Config, k: Clock, w: World, pending: seq<StoredEpoch>, i: nat)
    requires i < |pending|
    ensures VisitAll(c, k, w, pending[..i + 1]) == Visit(c, k, VisitAll(c, k, w, pending[..i]), pending[i])
  {
    hide Visit;
    assert pending[..i + 1][..i] == pending[..i];
  }

  lemma MoreEvents(start: seq<AnchorEvent>, events: seq<AnchorEvent>, own: seq<AnchorEvent>, n: nat)
    requires n <= |events|
    ensures (start + events[n..]) + own == start + (events + own)[n..] && (events + own)[..n] == events[..n]
  {
  }
}
