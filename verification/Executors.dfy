/**
 * The brute-force and rate-limit executors against the store itself: each
 * request reads and overwrites the stored record as the map step says.
 */
module Executors {
  import opened Text
  import opened Shm
  import opened Attempts

  /** exec_brute_force from the clean-up on, once configuration and client are known. */
  method ExecBruteForce(store: Store, cfg: BfConfig, key: Key, now: int, counts: bool) returns (v: Verdict)
    requires store.Valid()
    modifies store`count, store`slots, store.records, store.occupied
    ensures store.Valid()
    ensures (store.Model(), v) == BfStep(cfg, store.capacity, old(store.Model()), key, now, counts)
  {
    hide Expired, Inv, Contents, DelayFor;
    var cleaned := store.Cleanup(now);
    ghost var m := store.Model();
    assert m == Sweep(old(store.Model()), now);
    v := Pass;
    var rec := store.Get(key);
    if rec.Some? {
      if now - rec.value.first < cfg.window {
        if rec.value.attempts >= cfg.allowed {
          var cur := rec.value.attempts;
          var ok := store.Update(key, rec.value.(attempts := cur + 1));
          match cfg.action {
            case Block =>
              // One message to the firewall per window, on the request that crosses the threshold.
              v := Blocked(cur == cfg.allowed);
            case Throttle => v := ThrottleVerdict(cfg, cur);
            case Log => v := Logged(cur + 1);
          }
        } else if counts {
          var ok := store.Update(key, rec.value.(attempts := rec.value.attempts + 1));
        }
      } else if counts {
        var ok := store.Update(key, Record(MAGIC, key, 1, now, 0));
      }
    } else if counts {
      var ok := store.Update(key, Record(MAGIC, key, 1, now, 0));
    }
  }

  /** The progressive delay, with its two caps. */
  method ThrottleVerdict(cfg: BfConfig, cur: int) returns (v: Verdict)
    requires cfg.action.Throttle?
    ensures v == OverLimit(cfg, cur)
  {
    var excess := cur - cfg.allowed + 1;
    if excess < 1 {
      excess := 1;
    }
    var delay := cfg.throttleMs * excess;
    if delay > 30000 {
      delay := 30000;
    }
    if delay > MAX_THROTTLE_MS {
      delay := MAX_THROTTLE_MS;
    }
    v := Delayed(delay);
  }

  /** exec_ratelimit, once configuration and client are known. */
  method ExecRateLimit(store: Store, cfg: RlConfig, key: Key, now: int) returns (v: Verdict)
    requires store.Valid()
    modifies store`count, store`slots, store.records, store.occupied
    ensures store.Valid()
    ensures (store.Model(), v) == RlStep(cfg, store.capacity, old(store.Model()), key, now)
  {
    hide Inv, Contents;
    if cfg.requests <= 0 {
      return Pass;
    }
    var rec := store.Get(key);
    if rec.None? {
      var ok := store.Update(key, Record(0, key, 1, now, 0));
      return Pass;
    }
    if now - rec.value.first > cfg.window {
      var ok := store.Update(key, rec.value.(attempts := 1, first := now));
      return Pass;
    }
    var ok, out := store.AtomicIncrement(key, now);
    if out.attempts > cfg.requests + cfg.burst {
      if cfg.action.Block? {
        return Denied;
      } else if cfg.action.Throttle? {
        var retry := cfg.window - (now - out.first);
        return RetryAfter(if retry < 1 then 1 else retry);
      }
    }
    return Pass;
  }

  /** A run of requests and clean-ups against one table gives the answers of `TableRun`. */
  method ServeAll(store: Store, cfgs: Configs, events: seq<Timed>) returns (vs: seq<Verdict>)
    requires store.Valid()
    modifies store`count, store`slots, store.records, store.occupied
    ensures store.Valid()
    ensures vs == TableRun(cfgs, store.capacity, old(store.Model()), events)
  {
    hide Inv, Contents, BfStep, RlStep, Expired;
    vs := [];
    assert events[0..] == events;
    ghost var all := TableRun(cfgs, store.capacity, store.Model(), events);
    assert [] + all == all;
    var i := 0;
    while i < |events|
      invariant i <= |events| && store.Valid()
      invariant all == vs + TableRun(cfgs, store.capacity, store.Model(), events[i..])
    {
      var e := events[i];
      ghost var m := store.Model();
      var v;
      match e.event {
        case BfEvent(key, counts) => v := ExecBruteForce(store, cfgs.bf, key, e.now, counts);
        case RlEvent(key) => v := ExecRateLimit(store, cfgs.rl, key, e.now);
        case CleanUp =>
          var cleaned := store.Cleanup(e.now);
          v := Pass;
          assert store.Model() == Sweep(m, e.now);
      }
      assert (store.Model(), v) == TableStep(cfgs, store.capacity, m, e);
      TableRunStep(cfgs, store.capacity, m, events[i..], vs);
      assert events[i..][1..] == events[i + 1..];
      vs := vs + [v];
      i := i + 1;
    }
    assert events[i..] == [] && vs + [] == vs;
  }

  lemma TableRunStep(cfgs: Configs, cap: nat, m: Table, events: seq<Timed>, vs: seq<Verdict>)
    requires events != []
    ensures var (m', v) := TableStep(cfgs, cap, m, events[0]);
            vs + TableRun(cfgs, cap, m, events) == vs + [v] + TableRun(cfgs, cap, m', events[1..])
  {
    hide TableStep;
  }

  // ------------------------------------------------------- sequences of operations

  datatype Op = GetOp(key: Key) | UpdateOp(key: Key, rec: Record) | IncrementOp(key: Key, now: int) | CleanOp(now: int)

  function OpStep(cap: nat, m: Table, op: Op): Table {
    match op
    case GetOp(_) => m
    case UpdateOp(key, rec) => Upsert(cap, m, key, rec)
    case IncrementOp(key, now) =>
      Upsert(cap, m, key, if key in m then m[key].(attempts := m[key].attempts + 1) else Fresh(key, now))
    case CleanOp(now) => Sweep(m, now)
  }

  function OpsRun(cap: nat, m: Table, ops: seq<Op>): Table
    decreases |ops|
  {
    if ops == [] then m else OpsRun(cap, OpStep(cap, m, ops[0]), ops[1..])
  }

  method ApplyOp(store: Store, op: Op)
    requires store.Valid()
    modifies store`count, store`slots, store.records, store.occupied
    ensures store.Valid() && store.Model() == OpStep(store.capacity, old(store.Model()), op)
  {
    hide Inv, Contents, Expired;
    ghost var m := store.Model();
    store.ModelKeyed();
    match op {
      case GetOp(key) => var r := store.Get(key);
      case UpdateOp(key, rec) => var ok := store.Update(key, rec);
      case IncrementOp(key, now) => var ok, out := store.AtomicIncrement(key, now);
      case CleanOp(now) =>
        var cleaned := store.Cleanup(now);
        assert store.Model() == Sweep(m, now);
    }
  }

  /** After any sequence of operations the table is the map those operations make. */
  method RunOps(store: Store, ops: seq<Op>)
    requires store.Valid()
    modifies store`count, store`slots, store.records, store.occupied
    ensures store.Valid()
    ensures store.Model() == OpsRun(store.capacity, old(store.Model()), ops)
  {
    hide Inv, Contents, OpStep;
    assert ops[0..] == ops;
    ghost var all := OpsRun(store.capacity, store.Model(), ops);
    var i := 0;
    while i < |ops|
      invariant i <= |ops| && store.Valid()
      invariant OpsRun(store.capacity, store.Model(), ops[i..]) == all
    {
      assert ops[i..][1..] == ops[i + 1..];
      ApplyOp(store, ops[i]);
      i := i + 1;
    }
    assert ops[i..] == [];
  }
}
