/**
 * Rate limiting by several workers over the shared record of one client. Each
 * worker looks the record up, then either writes a new window or takes the
 * locked increment; any worker may move at any time.
 */
module Workers {
  import opened Attempts

  datatype Phase = Idle | Looked(seen: Cell, now: int)

  datatype Move = Look(worker: nat, now: int) | Act(worker: nat)

  /** An increment's result: the count it was handed, in the window it was handed it. */
  datatype Handed = Handed(epoch: nat, count: int)

  /** `epoch` counts the windows written so far; `log` lists the counts handed out, oldest first. */
  datatype World = World(rec: Cell, phases: map<nat, Phase>, epoch: nat, log: seq<Handed>)

  function PhaseOf(w: World, worker: nat): Phase {
    if worker in w.phases then w.phases[worker] else Idle
  }

  /** A new window: the record as it was looked up is overwritten, whatever has happened since. */
  function WriteWindow(w: World, worker: nat, now: int): World {
    w.(rec := Present(1, now), phases := w.phases[worker := Idle], epoch := w.epoch + 1)
  }

  /** native_shm_atomic_increment: the whole read-modify-write under one lock. */
  function LockedIncrement(w: World, worker: nat, now: int): World {
    var rec := if w.rec.Present? then Present(w.rec.attempts + 1, w.rec.first) else Present(1, now);
    w.(rec := rec, phases := w.phases[worker := Idle], log := w.log + [Handed(w.epoch, rec.attempts)])
  }

  /** One move; a move that is not the worker's turn changes nothing. */
  function Step(cfg: RlConfig, w: World, move: Move): World {
    match move
    case Look(i, now) => if PhaseOf(w, i).Idle? then w.(phases := w.phases[i := Looked(w.rec, now)]) else w
    case Act(i) =>
      match PhaseOf(w, i)
      case Idle => w
      case Looked(seen, now) =>
        if seen.Absent? || now - seen.first > cfg.window then WriteWindow(w, i, now) else LockedIncrement(w, i, now)
  }

  function Run(cfg: RlConfig, w: World, moves: seq<Move>): World {
    if moves == [] then w else Step(cfg, Run(cfg, w, moves[..|moves| - 1]), moves[|moves| - 1])
  }

  /** The counts handed out in one window, in order. */
  function CountsIn(log: seq<Handed>, epoch: nat): seq<int> {
    if log == [] then []
    else
      var last := log[|log| - 1];
      CountsIn(log[..|log| - 1], epoch) + if last.epoch == epoch then [last.count] else []
  }

  /** What the record holds when a window begins. */
  function Base(start: Cell, epoch: nat): int {
    if epoch == 0 then (if start.Present? then start.attempts else 0) else 1
  }

  predicate Consecutive(counts: seq<int>, base: int) {
    forall i :: 0 <= i < |counts| ==> counts[i] == base + 1 + i
  }

  /** Counts are consecutive in every window, and the record is where the current window has got to. */
  ghost predicate Orderly(start: Cell, w: World) {
    && (forall e: nat :: Consecutive(CountsIn(w.log, e), Base(start, e)))
    && (forall e: nat :: w.epoch < e ==> CountsIn(w.log, e) == [])
    && (w.rec.Present? ==> w.rec.attempts == Base(start, w.epoch) + |CountsIn(w.log, w.epoch)|)
    && (w.rec.Absent? ==> start.Absent? && w.epoch == 0 && w.log == []
                          && forall i :: i in w.phases && w.phases[i].Looked? ==> w.phases[i].seen.Absent?)
  }

  lemma StepOrderly(cfg: RlConfig, start: Cell, w: World, move: Move)
    requires Orderly(start, w)
    ensures Orderly(start, Step(cfg, w, move))
  {
    hide CountsIn, Consecutive;
    var w' := Step(cfg, w, move);
    if w'.log != w.log {
      forall e: nat
        ensures Consecutive(CountsIn(w'.log, e), Base(start, e))
        ensures CountsIn(w'.log, e) == CountsIn(w.log, e) || e == w.epoch
      {
        CountsSnoc(w.log, Handed(w.epoch, w'.rec.attempts), e, Base(start, e));
      }
      CountsSnoc(w.log, Handed(w.epoch, w'.rec.attempts), w.epoch, Base(start, w.epoch));
    }
  }

  /** One more count, the next one, in its own window. */
  lemma CountsSnoc(log: seq<Handed>, h: Handed, epoch: nat, base: int)
    requires Consecutive(CountsIn(log, epoch), base)
    requires h.epoch == epoch ==> h.count == base + |CountsIn(log, epoch)| + 1
    ensures Consecutive(CountsIn(log + [h], epoch), base)
    ensures |CountsIn(log + [h], epoch)| == |CountsIn(log, epoch)| + One(h.epoch == epoch)
    ensures h.epoch != epoch ==> CountsIn(log + [h], epoch) == CountsIn(log, epoch)
  {
    assert (log + [h])[..|log|] == log;
    assert CountsIn(log, epoch) + [] == CountsIn(log, epoch);
  }

  lemma {:induction false} RunOrderly(cfg: RlConfig, start: Cell, moves: seq<Move>)
    ensures Orderly(start, Run(cfg, World(start, map[], 0, []), moves))
    decreases |moves|
  {
    if moves != [] {
      RunOrderly(cfg, start, moves[..|moves| - 1]);
      StepOrderly(cfg, start, Run(cfg, World(start, map[], 0, []), moves[..|moves| - 1]), moves[|moves| - 1]);
    }
  }

  /**
   * However the workers interleave, the counts handed out between two resets
   * are consecutive: none is lost and none is given twice.
   */
  lemma NoCountLostOrShared(cfg: RlConfig, start: Cell, moves: seq<Move>, epoch: nat)
    ensures var w := Run(cfg, World(start, map[], 0, []), moves);
            Consecutive(CountsIn(w.log, epoch), Base(start, epoch))
    ensures var w := Run(cfg, World(start, map[], 0, []), moves);
            w.rec.Present? ==> w.rec.attempts == Base(start, w.epoch) + |CountsIn(w.log, w.epoch)|
  {
    RunOrderly(cfg, start, moves);
  }

  function Passing(counts: seq<int>, limit: int): nat {
    if counts == [] then 0
    else Passing(counts[..|counts| - 1], limit) + One(counts[|counts| - 1] <= limit)
  }

  lemma {:induction false} PassingBound(counts: seq<int>, base: int, limit: int)
    requires Consecutive(counts, base)
    ensures Passing(counts, limit) == if base + |counts| <= limit then |counts|
        else if base <= limit then limit - base else 0
    decreases |counts|
  {
    if counts != [] { PassingBound(counts[..|counts| - 1], base, limit); }
  }

  /** Under any interleaving a window lets through no more than the limit, its first write included. */
  lemma WindowLimit(cfg: RlConfig, start: Cell, moves: seq<Move>, epoch: nat)
    requires LimitingRl(cfg) && epoch > 0
    ensures var w := Run(cfg, World(start, map[], 0, []), moves);
            1 + Passing(CountsIn(w.log, epoch), cfg.requests + cfg.burst) <= cfg.requests + cfg.burst
  {
    NoCountLostOrShared(cfg, start, moves, epoch);
    var w := Run(cfg, World(start, map[], 0, []), moves);
    PassingBound(CountsIn(w.log, epoch), 1, cfg.requests + cfg.burst);
  }
}
