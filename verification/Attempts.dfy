/**
 * The two clients of the attempt store. `BfStep` and `RlStep` are one request
 * against the shared map; `CellStep` is the same request against the one
 * record it concerns, with no other keys and no clean-up in sight.
 */
module Attempts {
  import opened Shm

  type Table = map<Key, Record>

  datatype Action = Block | Throttle | Log

  datatype BfConfig = BfConfig(allowed: int, window: int, action: Action, throttleMs: int)

  datatype RlConfig = RlConfig(requests: int, window: int, burst: int, action: Action)

  datatype Verdict =
    | Pass
    | Logged(attempts: int)
    | Blocked(escalate: bool)
    | Delayed(ms: int)
    | Denied
    | RetryAfter(seconds: int)

  const MAX_THROTTLE_MS: int := 30000

  // ------------------------------------------------------ operations on the map

  function Sweep(m: Table, now: int): Table {
    map k | k in m && !Expired(m[k], now) :: m[k]
  }

  /** An update fails exactly when it needs a slot and there is none. */
  function Upsert(cap: nat, m: Table, key: Key, rec: Record): Table {
    if key in m || |m| < cap then m[key := rec.(ip := key)] else m
  }

  function Fresh(key: Key, now: int): Record { Record(MAGIC, key, 1, now, 0) }

  /** The delay of a throttled request grows with every attempt past the limit. */
  function DelayFor(cfg: BfConfig, attempts: int): int {
    var excess := if attempts - cfg.allowed + 1 < 1 then 1 else attempts - cfg.allowed + 1;
    if cfg.throttleMs * excess > MAX_THROTTLE_MS then MAX_THROTTLE_MS else cfg.throttleMs * excess
  }

  /** The answer to a request past the threshold, which found `attempts` on record. */
  function OverLimit(cfg: BfConfig, attempts: int): Verdict {
    match cfg.action
    case Block => Blocked(attempts == cfg.allowed)
    case Throttle => Delayed(DelayFor(cfg, attempts))
    case Log => Logged(attempts + 1)
  }

  /** One request to a protected path; `counts` says whether it is a login attempt. */
  function BfStep(cfg: BfConfig, cap: nat, m0: Table, key: Key, now: int, counts: bool): (Table, Verdict) {
    var m := Sweep(m0, now);
    if key in m then
      var rec := m[key];
      if now - rec.first < cfg.window then
        if rec.attempts >= cfg.allowed then
          (Upsert(cap, m, key, rec.(attempts := rec.attempts + 1)), OverLimit(cfg, rec.attempts))
        else if counts then (Upsert(cap, m, key, rec.(attempts := rec.attempts + 1)), Pass)
        else (m, Pass)
      else if counts then (Upsert(cap, m, key, Fresh(key, now)), Pass)
      else (m, Pass)
    else if counts then (Upsert(cap, m, key, Fresh(key, now)), Pass)
    else (m, Pass)
  }

  function RlOver(cfg: RlConfig, first: int, now: int): Verdict {
    match cfg.action
    case Block => Denied
    case Throttle => RetryAfter(if cfg.window - (now - first) < 1 then 1 else cfg.window - (now - first))
    case Log => Pass
  }

  /** One rate-limited request. */
  function RlStep(cfg: RlConfig, cap: nat, m: Table, key: Key, now: int): (Table, Verdict) {
    if cfg.requests <= 0 then (m, Pass)
    else if key !in m then (Upsert(cap, m, key, Record(0, key, 1, now, 0)), Pass)
    else
      var rec := m[key];
      if now - rec.first > cfg.window then (Upsert(cap, m, key, rec.(attempts := 1, first := now)), Pass)
      else
        var count := rec.attempts + 1;
        (m[key := rec.(attempts := count)],
         if count > cfg.requests + cfg.burst then RlOver(cfg, rec.first, now) else Pass)
  }

  // ------------------------------------------------------ one record by itself

  datatype Cell = Absent | Present(attempts: int, first: int)

  datatype Event = BfEvent(key: Key, counts: bool) | RlEvent(key: Key) | CleanUp

  datatype Timed = Timed(now: int, event: Event)

  datatype Configs = Configs(bf: BfConfig, rl: RlConfig)

  function BfCell(cfg: BfConfig, c: Cell, now: int, counts: bool): (Cell, Verdict) {
    if c.Present? && now - c.first < cfg.window then
      if c.attempts >= cfg.allowed then (c.(attempts := c.attempts + 1), OverLimit(cfg, c.attempts))
      else if counts then (c.(attempts := c.attempts + 1), Pass)
      else (c, Pass)
    else if counts then (Present(1, now), Pass)
    else (c, Pass)
  }

  function RlCell(cfg: RlConfig, c: Cell, now: int): (Cell, Verdict) {
    if cfg.requests <= 0 then (c, Pass)
    else if c.Absent? || now - c.first > cfg.window then (Present(1, now), Pass)
    else
      (c.(attempts := c.attempts + 1),
       if c.attempts + 1 > cfg.requests + cfg.burst then RlOver(cfg, c.first, now) else Pass)
  }

  function CellStep(cfgs: Configs, c: Cell, e: Timed): (Cell, Verdict) {
    match e.event
    case BfEvent(_, counts) => BfCell(cfgs.bf, c, e.now, counts)
    case RlEvent(_) => RlCell(cfgs.rl, c, e.now)
    case CleanUp => (c, Pass)
  }

  function TableStep(cfgs: Configs, cap: nat, m: Table, e: Timed): (Table, Verdict) {
    match e.event
    case BfEvent(key, counts) => BfStep(cfgs.bf, cap, m, key, e.now, counts)
    case RlEvent(key) => RlStep(cfgs.rl, cap, m, key, e.now)
    case CleanUp => (Sweep(m, e.now), Pass)
  }

  // ----------------------------------------------------------------------- runs

  function TableRun(cfgs: Configs, cap: nat, m: Table, events: seq<Timed>): (vs: seq<Verdict>)
    ensures |vs| == |events|
    decreases |events|
  {
    if events == [] then []
    else
      var (m', v) := TableStep(cfgs, cap, m, events[0]);
      [v] + TableRun(cfgs, cap, m', events[1..])
  }

  function CellRun(cfgs: Configs, c: Cell, events: seq<Timed>): (vs: seq<Verdict>)
    ensures |vs| == |events|
    decreases |events|
  {
    if events == [] then []
    else
      var (c', v) := CellStep(cfgs, c, events[0]);
      [v] + CellRun(cfgs, c', events[1..])
  }

  predicate Concerns(e: Timed, key: Key) {
    !e.event.CleanUp? && e.event.key == key
  }

  /** The requests of a run that concern one key. */
  function EventsOf(key: Key, events: seq<Timed>): seq<Timed> {
    if events == [] then []
    else (if Concerns(events[0], key) then [events[0]] else []) + EventsOf(key, events[1..])
  }

  /** The answers those requests got. */
  function VerdictsOf(key: Key, events: seq<Timed>, vs: seq<Verdict>): seq<Verdict>
    requires |vs| == |events|
  {
    if events == [] then []
    else (if Concerns(events[0], key) then [vs[0]] else []) + VerdictsOf(key, events[1..], vs[1..])
  }

  // --------------------------------------------- a key's run is its own business

  /** Time does not run backwards, and starts no earlier than `t`. */
  predicate InOrder(t: int, events: seq<Timed>)
    decreases |events|
  {
    events != [] ==> t <= events[0].now && InOrder(events[0].now, events[1..])
  }

  /** Every key that turns up belongs to `keys`. */
  predicate KeysIn(keys: set<Key>, events: seq<Timed>) {
    forall e :: e in events ==> e.event.CleanUp? || e.event.key in keys
  }

  /** A record the clean-up drops has left its window: brute force compares with `<`, rate limiting with `<=`. */
  predicate ShortWindow(cfgs: Configs, e: Timed) {
    if e.event.BfEvent? then cfgs.bf.window <= STALE_SECONDS + 1 else cfgs.rl.window <= STALE_SECONDS
  }

  /** So for every request of a run that concerns the key. */
  predicate ShortWindows(cfgs: Configs, key: Key, events: seq<Timed>) {
    forall e :: e in events && Concerns(e, key) ==> ShortWindow(cfgs, e)
  }

  /** The cell of `key` and the table agree at time `t`: what the table has lost is stale for good. */
  predicate Agree(m: Table, key: Key, c: Cell, t: int) {
    if key in m then c == Present(m[key].attempts, m[key].first)
    else c.Present? ==> c.first > 0 && t - c.first > STALE_SECONDS
  }

  predicate NoBlocks(m: Table) {
    forall k :: k in m ==> m[k].blockedUntil == 0
  }

  lemma SweepAgrees(m: Table, key: Key, c: Cell, t: int)
    requires NoBlocks(m) && Agree(m, key, c, t)
    ensures NoBlocks(Sweep(m, t)) && Agree(Sweep(m, t), key, c, t) && Sweep(m, t).Keys <= m.Keys
  {
  }

  lemma Room(cap: nat, m: Table, keys: set<Key>, key: Key)
    requires m.Keys <= keys && |keys| <= cap && key in keys
    ensures key in m || |m| < cap
  {
    if key !in m {
      Smaller(m.Keys, keys, key);
      assert |m.Keys| == |m|;
    }
  }

  lemma Smaller(a: set<Key>, b: set<Key>, k: Key)
    requires a <= b && k in b && k !in a
    ensures |a| < |b|
  {
    assert a <= b - {k};
    Subset(a, b - {k});
  }

  lemma {:induction false} Subset(a: set<Key>, b: set<Key>)
    requires a <= b
    ensures |a| <= |b|
    decreases |a|
  {
    if k :| k in a { Subset(a - {k}, b - {k}); }
  }

  lemma BfAgrees(cfgs: Configs, cap: nat, m: Table, keys: set<Key>, key: Key, c: Cell, now: int, k: Key, counts: bool)
    requires NoBlocks(m) && Agree(m, key, c, now) && (k == key ==> cfgs.bf.window <= STALE_SECONDS + 1)
    requires m.Keys <= keys && |keys| <= cap && k in keys
    ensures var (m', v) := BfStep(cfgs.bf, cap, m, k, now, counts);
            && NoBlocks(m') && m'.Keys <= keys
            && if k == key then Agree(m', key, BfCell(cfgs.bf, c, now, counts).0, now)
                                && v == BfCell(cfgs.bf, c, now, counts).1
               else Agree(m', key, c, now)
  {
    SweepAgrees(m, key, c, now);
    Room(cap, Sweep(m, now), keys, k);
    hide Sweep, OverLimit, Expired;
  }

  lemma RlAgrees(cfgs: Configs, cap: nat, m: Table, keys: set<Key>, key: Key, c: Cell, now: int, k: Key)
    requires NoBlocks(m) && Agree(m, key, c, now) && (k == key ==> cfgs.rl.window <= STALE_SECONDS)
    requires m.Keys <= keys && |keys| <= cap && k in keys
    ensures var (m', v) := RlStep(cfgs.rl, cap, m, k, now);
            && NoBlocks(m') && m'.Keys <= keys
            && if k == key then Agree(m', key, RlCell(cfgs.rl, c, now).0, now) && v == RlCell(cfgs.rl, c, now).1
               else Agree(m', key, c, now)
  {
    Room(cap, m, keys, k);
  }

  /** A run about to go on: the table and the key's own record agree, and there is room for every key. */
  predicate Running(cfgs: Configs, cap: nat, m: Table, keys: set<Key>, key: Key, c: Cell, t: int, events: seq<Timed>) {
    && NoBlocks(m) && Agree(m, key, c, t) && m.Keys <= keys && |keys| <= cap
    && KeysIn(keys, events) && InOrder(t, events) && ShortWindows(cfgs, key, events)
  }

  /** A request that the record is needed for: it is counted, or stopped. */
  predicate Recorded(cfgs: Configs, e: Timed, v: Verdict) {
    !v.Pass? || (e.event.BfEvent? && e.event.counts) || (e.event.RlEvent? && cfgs.rl.requests > 0)
  }

  /** One step of a run: the same answer, and the same window wherever the record matters. */
  lemma Advance(cfgs: Configs, cap: nat, m: Table, keys: set<Key>, key: Key, c: Cell, t: int, events: seq<Timed>)
    returns (after: Table, own: Cell)
    requires Running(cfgs, cap, m, keys, key, c, t, events) && events != []
    ensures after == TableStep(cfgs, cap, m, events[0]).0
    ensures own == if Concerns(events[0], key) then CellStep(cfgs, c, events[0]).0 else c
    ensures Running(cfgs, cap, after, keys, key, own, events[0].now, events[1..])
    ensures Concerns(events[0], key) ==>
      var v := CellStep(cfgs, c, events[0]).1;
      && TableStep(cfgs, cap, m, events[0]).1 == v
      && (Recorded(cfgs, events[0], v) ==> own.Present? && key in after && after[key].first == own.first)
  {
    hide BfStep, RlStep, Sweep, BfCell, RlCell, NoBlocks;
    var e, rest := events[0], events[1..];
    assert Agree(m, key, c, e.now) && e in events;
    match e.event {
      case BfEvent(k, counts) => BfAgrees(cfgs, cap, m, keys, key, c, e.now, k, counts);
      case RlEvent(k) => RlAgrees(cfgs, cap, m, keys, key, c, e.now, k);
      case CleanUp => SweepAgrees(m, key, c, e.now);
    }
    after := TableStep(cfgs, cap, m, e).0;
    own := if Concerns(e, key) then CellStep(cfgs, c, e).0 else c;
    assert KeysIn(keys, rest) && ShortWindows(cfgs, key, rest);
    if Concerns(e, key) && Recorded(cfgs, e, CellStep(cfgs, c, e).1) { InWindow(cfgs, c, e); }
  }

  /** Where the record matters it is in its window afterwards, so no clean-up has dropped it. */
  lemma InWindow(cfgs: Configs, c: Cell, e: Timed)
    requires !e.event.CleanUp? && ShortWindow(cfgs, e) && Recorded(cfgs, e, CellStep(cfgs, c, e).1)
    ensures CellStep(cfgs, c, e).0.Present? && e.now - CellStep(cfgs, c, e).0.first <= STALE_SECONDS
  {
  }

  /**
   * With windows no longer than the staleness threshold and room for every key, the answers a
   * key gets depend on its own requests only: neither other keys nor clean-ups
   * can be told from the answers.
   */
  lemma {:induction false} RunIsOwnRun(cfgs: Configs, cap: nat, m: Table, keys: set<Key>, key: Key, c: Cell, t: int,
                                       events: seq<Timed>)
    requires Running(cfgs, cap, m, keys, key, c, t, events)
    ensures VerdictsOf(key, events, TableRun(cfgs, cap, m, events)) == CellRun(cfgs, c, EventsOf(key, events))
    decreases |events|
  {
    hide TableStep, CellStep, Running;
    if events != [] {
      var e, rest := events[0], events[1..];
      var m', c' := Advance(cfgs, cap, m, keys, key, c, t, events);
      RunIsOwnRun(cfgs, cap, m', keys, key, c', e.now, rest);
      assert TableRun(cfgs, cap, m, events)[1..] == TableRun(cfgs, cap, m', rest);
      if Concerns(e, key) {
        assert EventsOf(key, events) == [e] + EventsOf(key, rest);
        assert ([e] + EventsOf(key, rest))[1..] == EventsOf(key, rest);
      } else {
        assert EventsOf(key, events) == EventsOf(key, rest);
      }
    }
  }

  /** Two runs that agree on the requests for a key give that key the same answers. */
  lemma OthersUnseen(cfgs: Configs, cap: nat, keys: set<Key>, key: Key, t: int, a: seq<Timed>, b: seq<Timed>)
    requires |keys| <= cap && ShortWindows(cfgs, key, a) && ShortWindows(cfgs, key, b)
    requires KeysIn(keys, a) && KeysIn(keys, b) && InOrder(t, a) && InOrder(t, b)
    requires EventsOf(key, a) == EventsOf(key, b)
    ensures VerdictsOf(key, a, TableRun(cfgs, cap, map[], a)) == VerdictsOf(key, b, TableRun(cfgs, cap, map[], b))
  {
    RunIsOwnRun(cfgs, cap, map[], keys, key, Absent, t, a);
    RunIsOwnRun(cfgs, cap, map[], keys, key, Absent, t, b);
  }

  function Short(ip: string): string {
    if |ip| > 46 then ip[..46] else ip
  }

  /** The store key of a client: brute force and rate limiting use different first bytes. */
  function BfKey(ip: string): Key
    requires '\0' !in ip
  {
    "b:" + Short(ip)
  }

  function RlKey(ip: string): Key
    requires '\0' !in ip
  {
    "r:" + Short(ip)
  }

  lemma KeysApart(x: string, y: string)
    requires '\0' !in x && '\0' !in y
    ensures BfKey(x) != RlKey(y)
  {
    assert BfKey(x)[0] == 'b' && RlKey(y)[0] == 'r';
  }

  // ------------------------------------------------- which windows are short enough

  /** A run from the empty table in which keys carry the first byte of their feature. */
  predicate Proper(cap: nat, keys: set<Key>, t: int, events: seq<Timed>) {
    && |keys| <= cap && KeysIn(keys, events) && InOrder(t, events)
    && (forall e :: e in events && e.event.BfEvent? ==> "b:" <= e.event.key)
    && (forall e :: e in events && e.event.RlEvent? ==> "r:" <= e.event.key)
  }

  /** A key gets the answers that its own requests would get on a record of their own. */
  predicate OwnRun(cfgs: Configs, cap: nat, key: Key, events: seq<Timed>) {
    VerdictsOf(key, events, TableRun(cfgs, cap, map[], events)) == CellRun(cfgs, Absent, EventsOf(key, events))
  }

  /** Brute force records must not outlive the clean-up's patience; rate limits need not care if they stop nothing. */
  predicate Fits(cfgs: Configs) {
    && cfgs.bf.window <= 601
    && (cfgs.rl.window <= 600 || Idle(cfgs.rl))
  }

  predicate Idle(cfg: RlConfig) { cfg.requests <= 0 || cfg.action.Log? }

  /** Every key is answered by its own requests in every run exactly under these configurations. */
  lemma OwnRunExactly(cfgs: Configs)
    ensures Fits(cfgs) <==>
      forall cap: nat, keys, key, t, events :: Proper(cap, keys, t, events) ==> OwnRun(cfgs, cap, key, events)
  {
    hide OwnRun, Proper, InOrder, KeysIn;
    if Fits(cfgs) {
      forall cap: nat, keys, key, t, events | Proper(cap, keys, t, events)
        ensures OwnRun(cfgs, cap, key, events)
      {
        FittingRun(cfgs, cap, keys, key, t, events);
      }
    } else if cfgs.bf.window > STALE_SECONDS + 1 {
      var key, events := BfForgets(cfgs);
      assert Proper(1, {key}, 1, events) && !OwnRun(cfgs, 1, key, events);
    } else {
      var key, events := RlForgets(cfgs);
      assert Proper(1, {key}, 1, events) && !OwnRun(cfgs, 1, key, events);
    }
  }

  lemma FittingRun(cfgs: Configs, cap: nat, keys: set<Key>, key: Key, t: int, events: seq<Timed>)
    requires Fits(cfgs) && Proper(cap, keys, t, events)
    ensures OwnRun(cfgs, cap, key, events)
  {
    hide InOrder, KeysIn, VerdictsOf, EventsOf, TableRun, CellRun;
    if "r:" <= key && cfgs.rl.window > STALE_SECONDS {
      forall e | e in events && Concerns(e, key)
        ensures e.event.RlEvent?
      {
        assert key[0] == 'r';
        assert "b:"[0] == 'b';
      }
      IdleRun(cfgs, cap, map[], key, Absent, events);
    } else {
      RunIsOwnRun(cfgs, cap, map[], keys, key, Absent, t, events);
    }
  }

  /** A rate limit that stops nothing lets everything pass, whatever is on record. */
  lemma {:induction false} IdleRun(cfgs: Configs, cap: nat, m: Table, key: Key, c: Cell, events: seq<Timed>)
    requires Idle(cfgs.rl) && forall e :: e in events && Concerns(e, key) ==> e.event.RlEvent?
    ensures VerdictsOf(key, events, TableRun(cfgs, cap, m, events)) == CellRun(cfgs, c, EventsOf(key, events))
    decreases |events|
  {
    hide TableStep, CellStep, Idle;
    if events != [] {
      var e, rest := events[0], events[1..];
      assert e in events;
      if Concerns(e, key) { IdleStep(cfgs, cap, m, c, e); }
      var m', c' := TableStep(cfgs, cap, m, e).0, if Concerns(e, key) then CellStep(cfgs, c, e).0 else c;
      IdleRun(cfgs, cap, m', key, c', rest);
      assert TableRun(cfgs, cap, m, events)[1..] == TableRun(cfgs, cap, m', rest);
      if Concerns(e, key) {
        assert EventsOf(key, events) == [e] + EventsOf(key, rest);
        assert ([e] + EventsOf(key, rest))[1..] == EventsOf(key, rest);
      } else {
        assert EventsOf(key, events) == EventsOf(key, rest);
      }
    }
  }

  lemma IdleStep(cfgs: Configs, cap: nat, m: Table, c: Cell, e: Timed)
    requires Idle(cfgs.rl) && e.event.RlEvent?
    ensures TableStep(cfgs, cap, m, e).1 == CellStep(cfgs, c, e).1
  {
    hide Upsert;
  }

  /** `n` times the same request, and then `last`. */
  function Burst(n: nat, e: Timed, last: seq<Timed>): seq<Timed> {
    if n == 0 then last else [e] + Burst(n - 1, e, last)
  }

  function LastOf(vs: seq<Verdict>): Verdict
    requires vs != []
  {
    vs[|vs| - 1]
  }

  lemma {:induction false} BurstIs(keys: set<Key>, n: nat, e: Timed, last: seq<Timed>)
    requires !e.event.CleanUp? && e.event.key in keys && last != [] && KeysIn(keys, last) && InOrder(e.now, last)
    ensures KeysIn(keys, Burst(n, e, last)) && InOrder(e.now, Burst(n, e, last)) && Burst(n, e, last) != []
    ensures forall x :: x in Burst(n, e, last) ==> x == e || x in last
    ensures Burst(n, e, last)[|Burst(n, e, last)| - 1] == last[|last| - 1]
    ensures EventsOf(e.event.key, Burst(n, e, last)) == Burst(n, e, EventsOf(e.event.key, last))
  {
    if n > 0 {
      BurstIs(keys, n - 1, e, last);
      assert Burst(n, e, last)[1..] == Burst(n - 1, e, last);
    }
  }

  /** The last answer in a run is the last answer to the key when the last request is the key's. */
  lemma {:induction false} LastVerdict(key: Key, events: seq<Timed>, vs: seq<Verdict>)
    requires |vs| == |events| > 0 && Concerns(events[|events| - 1], key)
    ensures VerdictsOf(key, events, vs) != [] && LastOf(VerdictsOf(key, events, vs)) == LastOf(vs)
    decreases |events|
  {
    if |events| > 1 { LastVerdict(key, events[1..], vs[1..]); }
  }

  // -------------------------------------------------- runs in which a key is forgotten

  /** As many attempts as are allowed, and one more when the clean-up has just become ready to drop the record. */
  lemma BfForgets(cfgs: Configs) returns (key: Key, events: seq<Timed>)
    requires cfgs.bf.window > STALE_SECONDS + 1
    ensures Proper(1, {key}, 1, events) && !OwnRun(cfgs, 1, key, events)
  {
    hide KeysIn, VerdictsOf, TableRun, CellRun, CellStep, BfStep;
    key := "b:";
    var e, late := Timed(1, BfEvent(key, true)), Timed(STALE_SECONDS + 2, BfEvent(key, true));
    var n: nat := if cfgs.bf.allowed >= 1 then cfgs.bf.allowed else 1;
    events := Burst(n, e, [late]);
    BurstIs({key}, n, e, [late]);
    assert EventsOf(key, [late]) == [late];
    BfOwnEnd(cfgs, key, Absent, n);
    BfSharedEnd(cfgs, key, map[], n);
    LastVerdict(key, events, TableRun(cfgs, 1, map[], events));
  }

  /** On its own record the last attempt is stopped. */
  lemma {:induction false} BfOwnEnd(cfgs: Configs, key: Key, c: Cell, n: nat)
    requires cfgs.bf.window > STALE_SECONDS + 1 && (c.Present? ==> c.first == 1)
    requires (if c.Present? then c.attempts else 0) + n == if cfgs.bf.allowed >= 1 then cfgs.bf.allowed else 1
    requires c.Present? || n > 0
    ensures var e, late := Timed(1, BfEvent(key, true)), Timed(STALE_SECONDS + 2, BfEvent(key, true));
            var vs := CellRun(cfgs, c, Burst(n, e, [late]));
            vs != [] && !LastOf(vs).Pass?
    decreases n
  {
    var e, late := Timed(1, BfEvent(key, true)), Timed(STALE_SECONDS + 2, BfEvent(key, true));
    if n == 0 {
      assert [late][1..] == [];
    } else {
      BfOwnEnd(cfgs, key, CellStep(cfgs, c, e).0, n - 1);
      assert Burst(n, e, [late])[1..] == Burst(n - 1, e, [late]);
    }
  }

  /** A record that only the first second has written. */
  predicate EarlyOnly(m: Table, key: Key) {
    m.Keys <= {key} && (key in m ==> m[key].first == 1 && m[key].blockedUntil == 0)
  }

  lemma BfEarly(cfgs: Configs, key: Key, m: Table)
    requires EarlyOnly(m, key)
    ensures EarlyOnly(TableStep(cfgs, 1, m, Timed(1, BfEvent(key, true))).0, key)
  {
  }

  lemma BfLate(cfgs: Configs, key: Key, m: Table)
    requires EarlyOnly(m, key)
    ensures TableStep(cfgs, 1, m, Timed(STALE_SECONDS + 2, BfEvent(key, true))).1.Pass?
  {
  }

  /** In the table the record is gone by then. */
  lemma {:induction false} BfSharedEnd(cfgs: Configs, key: Key, m: Table, n: nat)
    requires EarlyOnly(m, key)
    ensures var e, late := Timed(1, BfEvent(key, true)), Timed(STALE_SECONDS + 2, BfEvent(key, true));
            var vs := TableRun(cfgs, 1, m, Burst(n, e, [late]));
            vs != [] && LastOf(vs).Pass?
    decreases n
  {
    hide TableStep, EarlyOnly;
    var e, late := Timed(1, BfEvent(key, true)), Timed(STALE_SECONDS + 2, BfEvent(key, true));
    if n == 0 {
      BfLate(cfgs, key, m);
      assert [late][1..] == [];
    } else {
      BfEarly(cfgs, key, m);
      BfSharedEnd(cfgs, key, TableStep(cfgs, 1, m, e).0, n - 1);
      assert Burst(n, e, [late])[1..] == Burst(n - 1, e, [late]);
    }
  }

  /** As many requests as pass, a clean-up, and one more. */
  lemma RlForgets(cfgs: Configs) returns (key: Key, events: seq<Timed>)
    requires cfgs.rl.window > STALE_SECONDS && !Idle(cfgs.rl)
    ensures Proper(1, {key}, 1, events) && !OwnRun(cfgs, 1, key, events)
  {
    key := "r:";
    var e, late := Timed(1, RlEvent(key)), Timed(STALE_SECONDS + 2, RlEvent(key));
    var end := [Timed(STALE_SECONDS + 2, CleanUp), late];
    var limit := cfgs.rl.requests + cfgs.rl.burst;
    var n: nat := if limit >= 1 then limit else 1;
    events := Burst(n, e, end);
    RlEnd(key, e, end);
    BurstIs({key}, n, e, end);
    hide KeysIn, InOrder, VerdictsOf, EventsOf, TableRun, CellRun, CellStep, RlStep, Sweep;
    RlOwnEnd(cfgs, key, Absent, n);
    RlSharedEnd(cfgs, key, map[], n);
    LastVerdict(key, events, TableRun(cfgs, 1, map[], events));
  }

  lemma RlEnd(key: Key, e: Timed, end: seq<Timed>)
    requires e.now == 1 && end == [Timed(STALE_SECONDS + 2, CleanUp), Timed(STALE_SECONDS + 2, RlEvent(key))]
    ensures KeysIn({key}, end) && InOrder(e.now, end) && EventsOf(key, end) == [end[1]]
  {
    assert end[1..] == [end[1]] && [end[1]][1..] == [];
    assert EventsOf(key, [end[1]]) == [end[1]];
  }

  lemma {:induction false} RlOwnEnd(cfgs: Configs, key: Key, c: Cell, n: nat)
    requires cfgs.rl.window > STALE_SECONDS && !Idle(cfgs.rl) && (c.Present? ==> c.first == 1)
    requires var limit := cfgs.rl.requests + cfgs.rl.burst;
             (if c.Present? then c.attempts else 0) + n == if limit >= 1 then limit else 1
    requires c.Present? || n > 0
    ensures var e, late := Timed(1, RlEvent(key)), Timed(STALE_SECONDS + 2, RlEvent(key));
            var vs := CellRun(cfgs, c, Burst(n, e, [late]));
            vs != [] && !LastOf(vs).Pass?
    decreases n
  {
    var e, late := Timed(1, RlEvent(key)), Timed(STALE_SECONDS + 2, RlEvent(key));
    if n == 0 {
      assert [late][1..] == [];
    } else {
      RlOwnEnd(cfgs, key, CellStep(cfgs, c, e).0, n - 1);
      assert Burst(n, e, [late])[1..] == Burst(n - 1, e, [late]);
    }
  }

  lemma RlEarly(cfgs: Configs, key: Key, m: Table)
    requires EarlyOnly(m, key)
    ensures EarlyOnly(TableStep(cfgs, 1, m, Timed(1, RlEvent(key))).0, key)
  {
  }

  lemma RlLate(cfgs: Configs, key: Key, m: Table)
    requires EarlyOnly(m, key)
    ensures var swept := TableStep(cfgs, 1, m, Timed(STALE_SECONDS + 2, CleanUp)).0;
            TableStep(cfgs, 1, swept, Timed(STALE_SECONDS + 2, RlEvent(key))).1.Pass?
  {
  }

  lemma {:induction false} RlSharedEnd(cfgs: Configs, key: Key, m: Table, n: nat)
    requires EarlyOnly(m, key)
    ensures var e, late := Timed(1, RlEvent(key)), Timed(STALE_SECONDS + 2, RlEvent(key));
            var vs := TableRun(cfgs, 1, m, Burst(n, e, [Timed(STALE_SECONDS + 2, CleanUp), late]));
            vs != [] && LastOf(vs).Pass?
    decreases n
  {
    hide TableStep, EarlyOnly;
    var e, late := Timed(1, RlEvent(key)), Timed(STALE_SECONDS + 2, RlEvent(key));
    var end := [Timed(STALE_SECONDS + 2, CleanUp), late];
    if n == 0 {
      RlLate(cfgs, key, m);
      assert end[1..] == [late] && [late][1..] == [];
    } else {
      RlEarly(cfgs, key, m);
      RlSharedEnd(cfgs, key, TableStep(cfgs, 1, m, e).0, n - 1);
      assert Burst(n, e, end)[1..] == Burst(n - 1, e, end);
    }
  }

  // ------------------------------------------------- bounds on one key's run

  /** The state of a key's record after a run of its requests. */
  function CellAfter(cfgs: Configs, c: Cell, events: seq<Timed>): Cell
    decreases |events|
  {
    if events == [] then c else CellAfter(cfgs, CellStep(cfgs, c, events[0]).0, events[1..])
  }

  predicate OnlyBf(events: seq<Timed>) {
    forall e :: e in events ==> e.event.BfEvent?
  }

  predicate OnlyRl(events: seq<Timed>) {
    forall e :: e in events ==> e.event.RlEvent?
  }

  /** A blocking configuration that makes sense: at least one attempt, a window of at least a second. */
  predicate BlockingBf(cfg: BfConfig) {
    cfg.action.Block? && cfg.allowed >= 1 && cfg.window >= 1
  }

  /** A login attempt that got through. */
  predicate Admitted(e: Timed, v: Verdict) {
    e.event.BfEvent? && e.event.counts && v.Pass?
  }

  function One(b: bool): nat { if b then 1 else 0 }

  /** Login attempts let through while the window that starts at `f` is the current one. */
  function AdmittedInWindow(cfgs: Configs, c: Cell, events: seq<Timed>, f: int): nat
    decreases |events|
  {
    if events == [] then 0
    else
      var (c', v) := CellStep(cfgs, c, events[0]);
      One(Admitted(events[0], v) && c'.Present? && c'.first == f) + AdmittedInWindow(cfgs, c', events[1..], f)
  }

  /** Login attempts let through at times in [lo, hi). */
  function AdmittedBetween(cfgs: Configs, c: Cell, events: seq<Timed>, lo: int, hi: int): nat
    decreases |events|
  {
    if events == [] then 0
    else
      var (c', v) := CellStep(cfgs, c, events[0]);
      One(Admitted(events[0], v) && lo <= events[0].now < hi) + AdmittedBetween(cfgs, c', events[1..], lo, hi)
  }

  function Left(cfg: BfConfig, c: Cell): nat
    requires c.Present?
  {
    if c.attempts < cfg.allowed then cfg.allowed - c.attempts else 0
  }

  /** Attempts are counted from 1, in the past. */
  predicate GoodCell(c: Cell, t: int) {
    c.Present? ==> c.attempts >= 1 && c.first <= t
  }

  lemma {:induction false} WindowAdmits(cfgs: Configs, c: Cell, t: int, events: seq<Timed>, f: int)
    requires BlockingBf(cfgs.bf) && OnlyBf(events) && InOrder(t, events) && GoodCell(c, t)
    ensures AdmittedInWindow(cfgs, c, events, f)
         <= if c.Absent? || c.first < f then cfgs.bf.allowed as nat else if c.first == f then Left(cfgs.bf, c) else 0
    decreases |events|
  {
    if events != [] {
      var e := events[0];
      assert e in events && OnlyBf(events[1..]);
      var (c', v) := CellStep(cfgs, c, e);
      WindowAdmits(cfgs, c', e.now, events[1..], f);
    }
  }

  /** Each window lets at most `allowed` login attempts through. */
  lemma WindowBound(cfgs: Configs, t: int, events: seq<Timed>, f: int)
    requires BlockingBf(cfgs.bf) && OnlyBf(events) && InOrder(t, events)
    ensures AdmittedInWindow(cfgs, Absent, events, f) <= cfgs.bf.allowed
  {
    WindowAdmits(cfgs, Absent, t, events, f);
  }

  lemma {:induction false} IntervalAdmits(cfgs: Configs, c: Cell, t: int, events: seq<Timed>, lo: int)
    requires BlockingBf(cfgs.bf) && OnlyBf(events) && InOrder(t, events) && GoodCell(c, t)
    ensures AdmittedBetween(cfgs, c, events, lo, lo + cfgs.bf.window)
         <= if c.Absent? || c.first + cfgs.bf.window <= lo then 2 * cfgs.bf.allowed - 1
            else if lo <= c.first then Left(cfgs.bf, c) as int
            else Left(cfgs.bf, c) + cfgs.bf.allowed
    decreases |events|
  {
    if events != [] {
      var e := events[0];
      assert e in events && OnlyBf(events[1..]);
      var (c', v) := CellStep(cfgs, c, e);
      IntervalAdmits(cfgs, c', e.now, events[1..], lo);
      if c.Present? && lo <= c.first && c' != c && c'.first != c.first {
        NothingLater(cfgs, c', e.now, events[1..], lo, lo + cfgs.bf.window);
      }
    }
  }

  lemma {:induction false} NothingLater(cfgs: Configs, c: Cell, t: int, events: seq<Timed>, lo: int, hi: int)
    requires InOrder(t, events) && hi <= t
    ensures AdmittedBetween(cfgs, c, events, lo, hi) == 0
    decreases |events|
  {
    if events != [] { NothingLater(cfgs, CellStep(cfgs, c, events[0]).0, events[0].now, events[1..], lo, hi); }
  }

  /** Any stretch of time as long as the window sees at most 2 * allowed - 1 login attempts let through. */
  lemma IntervalBound(cfgs: Configs, t: int, events: seq<Timed>, lo: int)
    requires BlockingBf(cfgs.bf) && OnlyBf(events) && InOrder(t, events)
    ensures AdmittedBetween(cfgs, Absent, events, lo, lo + cfgs.bf.window) <= 2 * cfgs.bf.allowed - 1
  {
    IntervalAdmits(cfgs, Absent, t, events, lo);
  }

  /** Login attempts let through at times in [lo, hi), counted on the answers. */
  function CountBetween(events: seq<Timed>, vs: seq<Verdict>, lo: int, hi: int): nat
    requires |events| == |vs|
    decreases |events|
  {
    if events == [] then 0
    else One(Admitted(events[0], vs[0]) && lo <= events[0].now < hi) + CountBetween(events[1..], vs[1..], lo, hi)
  }

  lemma {:induction false} CountsAgree(cfgs: Configs, c: Cell, events: seq<Timed>, lo: int, hi: int)
    ensures CountBetween(events, CellRun(cfgs, c, events), lo, hi) == AdmittedBetween(cfgs, c, events, lo, hi)
    decreases |events|
  {
    hide CellStep;
    if events != [] {
      var (c', v) := CellStep(cfgs, c, events[0]);
      CountsAgree(cfgs, c', events[1..], lo, hi);
      assert CellRun(cfgs, c, events)[1..] == CellRun(cfgs, c', events[1..]);
    }
  }

  lemma {:induction false} OwnEvents(key: Key, t: int, events: seq<Timed>)
    requires InOrder(t, events)
    ensures InOrder(t, EventsOf(key, events))
    ensures forall e :: e in EventsOf(key, events) ==> e in events && Concerns(e, key)
    ensures forall vs :: |vs| == |events| ==> |VerdictsOf(key, events, vs)| == |EventsOf(key, events)|
    decreases |events|
  {
    if events != [] {
      OwnEvents(key, events[0].now, events[1..]);
      var own := EventsOf(key, events[1..]);
      assert ([events[0]] + own)[1..] == own && [] + own == own;
      LaterStart(t, events[0].now, EventsOf(key, events[1..]));
      forall vs: seq<Verdict> | |vs| == |events|
        ensures |VerdictsOf(key, events, vs)| == |EventsOf(key, events)|
      {
        assert |vs[1..]| == |events[1..]|;
      }
    }
  }

  lemma LaterStart(t: int, u: int, events: seq<Timed>)
    requires t <= u && InOrder(u, events)
    ensures InOrder(t, events)
  {
  }

  /**
   * The same bound in the shared table: among the answers to all clients, any
   * stretch of time as long as the window lets at most 2 * allowed - 1 login
   * attempts of one client through.
   */
  lemma SharedIntervalBound(cfgs: Configs, cap: nat, keys: set<Key>, key: Key, t: int, events: seq<Timed>, lo: int)
    requires BlockingBf(cfgs.bf) && cfgs.bf.window <= STALE_SECONDS + 1
    requires |keys| <= cap && KeysIn(keys, events) && InOrder(t, events)
    requires forall e :: e in events && Concerns(e, key) ==> e.event.BfEvent?
    ensures var own := EventsOf(key, events);
            var vs := VerdictsOf(key, events, TableRun(cfgs, cap, map[], events));
            |own| == |vs| && CountBetween(own, vs, lo, lo + cfgs.bf.window) <= 2 * cfgs.bf.allowed - 1
  {
    hide TableRun, CellRun, AdmittedBetween, CountBetween;
    var own := EventsOf(key, events);
    OwnEvents(key, t, events);
    RunIsOwnRun(cfgs, cap, map[], keys, key, Absent, t, events);
    IntervalBound(cfgs, t, own, lo);
    CountsAgree(cfgs, Absent, own, lo, lo + cfgs.bf.window);
  }

  /** Blocked requests, and escalations to the firewall, in the window that starts at `f`. */
  function BlockedInWindow(cfgs: Configs, c: Cell, events: seq<Timed>, f: int): seq<bool>
    decreases |events|
  {
    if events == [] then []
    else
      var (c', v) := CellStep(cfgs, c, events[0]);
      (if v.Blocked? && c'.Present? && c'.first == f then [v.escalate] else [])
      + BlockedInWindow(cfgs, c', events[1..], f)
  }

  /** Only the first blocked request of a window escalates. */
  predicate FirstOnly(escalations: seq<bool>) {
    forall i :: 0 <= i < |escalations| ==> (escalations[i] <==> i == 0)
  }

  predicate NoneOf(escalations: seq<bool>) {
    forall i :: 0 <= i < |escalations| ==> !escalations[i]
  }

  lemma {:induction false} EscalatesFirst(cfgs: Configs, c: Cell, t: int, events: seq<Timed>, f: int)
    requires BlockingBf(cfgs.bf) && OnlyBf(events) && InOrder(t, events) && GoodCell(c, t)
    ensures var b := BlockedInWindow(cfgs, c, events, f);
            if c.Absent? || c.first < f || (c.first == f && c.attempts <= cfgs.bf.allowed) then FirstOnly(b)
            else if c.first == f then NoneOf(b)
            else b == []
    decreases |events|
  {
    if events != [] {
      var e := events[0];
      assert e in events && OnlyBf(events[1..]);
      var (c', v) := CellStep(cfgs, c, e);
      EscalatesFirst(cfgs, c', e.now, events[1..], f);
      var rest := BlockedInWindow(cfgs, c', events[1..], f);
      assert [] + rest == rest;
    }
  }

  /** Each window escalates on its first blocked request and on no other. */
  lemma EscalationBound(cfgs: Configs, t: int, events: seq<Timed>, f: int)
    requires BlockingBf(cfgs.bf) && OnlyBf(events) && InOrder(t, events)
    ensures FirstOnly(BlockedInWindow(cfgs, Absent, events, f))
  {
    EscalatesFirst(cfgs, Absent, t, events, f);
  }

  // ------------------------------------------------------------ rate limiting

  predicate LimitingRl(cfg: RlConfig) {
    !cfg.action.Log? && cfg.requests >= 1 && cfg.burst >= 0 && cfg.window >= 0
  }

  function PassedInWindow(cfgs: Configs, c: Cell, events: seq<Timed>, f: int): nat
    decreases |events|
  {
    if events == [] then 0
    else
      var (c', v) := CellStep(cfgs, c, events[0]);
      One(v.Pass? && c'.Present? && c'.first == f) + PassedInWindow(cfgs, c', events[1..], f)
  }

  lemma {:induction false} RlWindowPasses(cfgs: Configs, c: Cell, t: int, events: seq<Timed>, f: int)
    requires LimitingRl(cfgs.rl) && OnlyRl(events) && InOrder(t, events) && GoodCell(c, t)
    ensures var limit := cfgs.rl.requests + cfgs.rl.burst;
            PassedInWindow(cfgs, c, events, f)
            <= if c.Absent? || c.first < f then limit
               else if c.first == f then (if c.attempts < limit then limit - c.attempts else 0)
               else 0
    decreases |events|
  {
    if events != [] {
      var e := events[0];
      assert e in events && OnlyRl(events[1..]);
      var (c', v) := CellStep(cfgs, c, e);
      RlWindowPasses(cfgs, c', e.now, events[1..], f);
    }
  }

  /** Each rate-limit window lets at most requests + burst requests through. */
  lemma RlWindowBound(cfgs: Configs, t: int, events: seq<Timed>, f: int)
    requires LimitingRl(cfgs.rl) && OnlyRl(events) && InOrder(t, events)
    ensures PassedInWindow(cfgs, Absent, events, f) <= cfgs.rl.requests + cfgs.rl.burst
  {
    RlWindowPasses(cfgs, Absent, t, events, f);
  }

  // -------------------------------------------- the same bounds in the shared table

  /** Whether a step is the key's and leaves its record in the window that starts at `f`. */
  predicate InTheWindow(e: Timed, key: Key, after: Table, f: int) {
    Concerns(e, key) && key in after && after[key].first == f
  }

  /** A key's login attempts that all of them together let through in the window that starts at `f`. */
  function SharedAdmitted(cfgs: Configs, cap: nat, m: Table, key: Key, events: seq<Timed>, f: int): nat
    decreases |events|
  {
    if events == [] then 0
    else
      var (m', v) := TableStep(cfgs, cap, m, events[0]);
      One(Admitted(events[0], v) && InTheWindow(events[0], key, m', f))
      + SharedAdmitted(cfgs, cap, m', key, events[1..], f)
  }

  /** A key's blocked requests in that window, and which of them escalated. */
  function SharedBlocked(cfgs: Configs, cap: nat, m: Table, key: Key, events: seq<Timed>, f: int): seq<bool>
    decreases |events|
  {
    if events == [] then []
    else
      var (m', v) := TableStep(cfgs, cap, m, events[0]);
      (if v.Blocked? && InTheWindow(events[0], key, m', f) then [v.escalate] else [])
      + SharedBlocked(cfgs, cap, m', key, events[1..], f)
  }

  /** A key's rate-limited requests that pass in that window. */
  function SharedPassed(cfgs: Configs, cap: nat, m: Table, key: Key, events: seq<Timed>, f: int): nat
    decreases |events|
  {
    if events == [] then 0
    else
      var (m', v) := TableStep(cfgs, cap, m, events[0]);
      One(v.Pass? && InTheWindow(events[0], key, m', f)) + SharedPassed(cfgs, cap, m', key, events[1..], f)
  }

  /** What happens in a key's windows in the shared table is what happens on its own record. */
  lemma {:induction false} SharedAdmittedIs(cfgs: Configs, cap: nat, m: Table, keys: set<Key>, key: Key, c: Cell,
                                             t: int, events: seq<Timed>, f: int)
    requires Running(cfgs, cap, m, keys, key, c, t, events)
    ensures SharedAdmitted(cfgs, cap, m, key, events, f) == AdmittedInWindow(cfgs, c, EventsOf(key, events), f)
    decreases |events|
  {
    hide TableStep, CellStep, Running;
    if events != [] {
      var e, rest := events[0], events[1..];
      var m', c' := Advance(cfgs, cap, m, keys, key, c, t, events);
      SharedAdmittedIs(cfgs, cap, m', keys, key, c', e.now, rest, f);
      var own := EventsOf(key, rest);
      assert [] + own == own && ([e] + own)[1..] == own;
    }
  }

  lemma {:induction false} SharedBlockedIs(cfgs: Configs, cap: nat, m: Table, keys: set<Key>, key: Key, c: Cell, t: int,
                                          events: seq<Timed>, f: int)
    requires Running(cfgs, cap, m, keys, key, c, t, events)
    ensures SharedBlocked(cfgs, cap, m, key, events, f) == BlockedInWindow(cfgs, c, EventsOf(key, events), f)
    decreases |events|
  {
    hide TableStep, CellStep, Running;
    if events != [] {
      var e, rest := events[0], events[1..];
      var m', c' := Advance(cfgs, cap, m, keys, key, c, t, events);
      SharedBlockedIs(cfgs, cap, m', keys, key, c', e.now, rest, f);
      var own := EventsOf(key, rest);
      var blocked := SharedBlocked(cfgs, cap, m', key, rest, f);
      assert [] + blocked == blocked;
      assert [] + own == own && ([e] + own)[1..] == own;
    }
  }

  lemma {:induction false} SharedPassedIs(cfgs: Configs, cap: nat, m: Table, keys: set<Key>, key: Key, c: Cell, t: int,
                                          events: seq<Timed>, f: int)
    requires Running(cfgs, cap, m, keys, key, c, t, events)
    requires cfgs.rl.requests > 0 && forall e :: e in events && Concerns(e, key) ==> e.event.RlEvent?
    ensures SharedPassed(cfgs, cap, m, key, events, f) == PassedInWindow(cfgs, c, EventsOf(key, events), f)
    decreases |events|
  {
    hide TableStep, CellStep, Running;
    if events != [] {
      var e, rest := events[0], events[1..];
      var m', c' := Advance(cfgs, cap, m, keys, key, c, t, events);
      assert e in events && forall x :: x in rest ==> x in events;
      SharedPassedIs(cfgs, cap, m', keys, key, c', e.now, rest, f);
      var own := EventsOf(key, rest);
      assert [] + own == own && ([e] + own)[1..] == own;
    }
  }

  /** In the shared table, each window of a client admits at most `allowed` login attempts. */
  lemma SharedWindowBound(cfgs: Configs, cap: nat, keys: set<Key>, key: Key, t: int, events: seq<Timed>, f: int)
    requires BlockingBf(cfgs.bf) && cfgs.bf.window <= STALE_SECONDS + 1
    requires |keys| <= cap && KeysIn(keys, events) && InOrder(t, events)
    requires forall e :: e in events && Concerns(e, key) ==> e.event.BfEvent?
    ensures SharedAdmitted(cfgs, cap, map[], key, events, f) <= cfgs.bf.allowed
    ensures FirstOnly(SharedBlocked(cfgs, cap, map[], key, events, f))
  {
    hide TableStep, CellStep, SharedAdmitted, SharedBlocked, SharedPassed;
    OwnEvents(key, t, events);
    SharedAdmittedIs(cfgs, cap, map[], keys, key, Absent, t, events, f);
    SharedBlockedIs(cfgs, cap, map[], keys, key, Absent, t, events, f);
    WindowBound(cfgs, t, EventsOf(key, events), f);
    EscalationBound(cfgs, t, EventsOf(key, events), f);
  }

  /** In the shared table, each rate-limit window of a client passes at most requests + burst requests. */
  lemma SharedRlWindowBound(cfgs: Configs, cap: nat, keys: set<Key>, key: Key, t: int, events: seq<Timed>, f: int)
    requires LimitingRl(cfgs.rl) && cfgs.rl.window <= STALE_SECONDS
    requires |keys| <= cap && KeysIn(keys, events) && InOrder(t, events)
    requires forall e :: e in events && Concerns(e, key) ==> e.event.RlEvent?
    ensures SharedPassed(cfgs, cap, map[], key, events, f) <= cfgs.rl.requests + cfgs.rl.burst
  {
    hide TableStep, CellStep, SharedAdmitted, SharedBlocked, SharedPassed;
    OwnEvents(key, t, events);
    SharedPassedIs(cfgs, cap, map[], keys, key, Absent, t, events, f);
    RlWindowBound(cfgs, t, EventsOf(key, events), f);
  }
}
