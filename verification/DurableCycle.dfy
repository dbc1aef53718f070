/** One full clean validation cycle of a candidate begun at the scheduler's current shape. */
module DurableCycle {
  import opened Prelude
  import opened DurableStore
  import opened DurableCertification
  import ReplayShapes

  // Every rank of the world reports the same opinion.
  function Unanimous(world: nat, o: Opinion): seq<Opinion> { seq(world, _ => o) }

  lemma {:induction false} UnanimousReason(world: nat, o: Opinion)
    ensures FirstReason(Unanimous(world, o)) == if world == 0 then None else o.reason
  {
    if world > 0 && o.reason.None? {
      assert Unanimous(world, o)[1..] == Unanimous(world - 1, o);
      UnanimousReason(world - 1, o);
    }
  }

  /** The shape the scheduler offers after k advances from `position`. */
  function ShapeAt(shapes: seq<string>, position: nat, k: nat): string
    requires position < |shapes|
  {
    var r := ReplayShapes.AdvancedBy(|shapes|, ReplayShapes.Rotation(position, 0), k);
    if r.position < |shapes| then shapes[r.position] else ""
  }

  /** One clean check of one shape, seen by rank `me`. */
  function CleanCheck(r: Rank, shape: string, world: nat, me: nat, step: int): (Rank, Event)
    requires me < world
  {
    if r.pending.None? then (r, NoCandidate)
    else AfterObserve(r, Decide(Unanimous(world, OpinionOf(r.pending.value, Checked([shape]))), me), step)
  }

  /** The rank after the first k clean checks of the scheduler's rotation. */
  function AfterChecks(r: Rank, position: nat, world: nat, me: nat, steps: seq<int>, k: nat): Rank
    requires position < |r.config.shapes| && me < world && k <= |steps|
  {
    if k == 0 then r
    else CleanCheck(AfterChecks(r, position, world, me, steps, k - 1),
                    ShapeAt(r.config.shapes, position, k - 1), world, me, steps[k - 1]).0
  }

  lemma ShapeIsExpected(shapes: seq<string>, position: nat, k: nat)
    requires Distinct(shapes) && position < |shapes| && k < |shapes|
    ensures |RotateTo(shapes, shapes[position])| == |shapes|
    ensures ShapeAt(shapes, position, k) == RotateTo(shapes, shapes[position])[k]
  {
    ReplayShapes.AdvancedPosition(|shapes|, ReplayShapes.Rotation(position, 0), k);
    RotationAt(shapes, shapes[position], k);
  }

  /** A check of the next expected shape is accepted and extends the candidate by that shape. */
  lemma CleanCheckAccepted(p: Record, shape: string, world: nat, me: nat)
    requires me < world && |p.checked| < |p.expected| && shape == p.expected[|p.checked|]
    ensures Decide(Unanimous(world, OpinionOf(p, Checked([shape]))), me) == Accept([shape])
  {
    var o := OpinionOf(p, Checked([shape]));
    assert [shape] == Slice(p.expected, |p.checked|, 1);
    UnanimousReason(world, o);
  }

  // The rank's candidate has passed the first k shapes of its rotation.
  ghost predicate Passed(r: Rank, first: string, epoch: nat, k: nat)
  {
    && ValidConfig(r.config) && r.pending.Some? && first in r.config.shapes
    && var p := r.pending.value;
       && p.epoch == epoch && p.expected == RotateTo(r.config.shapes, first)
       && |p.checked| == k < |p.expected| && CheckedIds(p.checked) == p.expected[..k]
  }

  // The rank has certified the candidate: every shape once, in rotation order.
  ghost predicate CertifiedRotation(r: Rank, first: string, epoch: nat, step: int)
  {
    && r.pending.None? && r.latest.Some? && first in r.config.shapes
    && var c := r.latest.value;
       && Certified(c) && c.epoch == epoch && c.completed == Some(step)
       && CheckedIds(c.checked) == RotateTo(r.config.shapes, first)
  }

  lemma OneCheck(r: Rank, first: string, epoch: nat, k: nat, shape: string, world: nat, me: nat, step: int)
    requires Passed(r, first, epoch, k) && me < world && shape == r.pending.value.expected[k]
    ensures var (next, event) := CleanCheck(r, shape, world, me, step);
            && next.config == r.config
            && if k + 1 < |r.config.shapes| then event == Progress && Passed(next, first, epoch, k + 1)
               else event == Committed && CertifiedRotation(next, first, epoch, step)
  {
    var p := r.pending.value;
    CleanCheckAccepted(p, shape, world, me);
    assert [shape] == Slice(p.expected, k, 1);
    ExtendPrefix(p, [shape], step);
    RotationTheorem(r.config.shapes, first);
    RotationDistinct(r.config.shapes, first);
  }

  lemma NextCheckPassed(r: Rank, first: string, epoch: nat, position: nat, world: nat, me: nat, step: int, k: nat)
    requires Passed(r, first, epoch, k) && position < |r.config.shapes| && first == r.config.shapes[position]
    requires me < world && k + 1 < |r.config.shapes|
    ensures var next := CleanCheck(r, ShapeAt(r.config.shapes, position, k), world, me, step).0;
            next.config == r.config && Passed(next, first, epoch, k + 1)
  {
    ShapeIsExpected(r.config.shapes, position, k);
    OneCheck(r, first, epoch, k, ShapeAt(r.config.shapes, position, k), world, me, step);
  }

  lemma {:induction false} ChecksPassed(begun: Rank, first: string, epoch: nat, position: nat,
                                        world: nat, me: nat, steps: seq<int>, k: nat)
    requires Passed(begun, first, epoch, 0) && position < |begun.config.shapes|
    requires first == begun.config.shapes[position]
    requires me < world && |steps| == |begun.config.shapes| && k < |steps|
    ensures var now := AfterChecks(begun, position, world, me, steps, k);
            now.config == begun.config && Passed(now, first, epoch, k)
  {
    if k == 0 {
    } else {
      ChecksPassed(begun, first, epoch, position, world, me, steps, k - 1);
      var before := AfterChecks(begun, position, world, me, steps, k - 1);
      NextCheckPassed(before, first, epoch, position, world, me, steps[k - 1], k - 1);
    }
  }

  /**
   A candidate begun at the scheduler's current shape, from any position and on any rank of
   any world, answers n - 1 clean one-shape checks with PROGRESS and the n-th with COMMITTED,
   having checked every shape of the plan once, in rotation order.
   */
  lemma CycleTheorem(r: Rank, begin: int, end: SaveEnd, writer: bool,
                     position: nat, world: nat, me: nat, steps: seq<int>, k: nat)
    requires ValidConfig(r.config) && Begins(end) && position < |r.config.shapes|
    requires me < world && |steps| == |r.config.shapes| && k < |steps|
    ensures var first := r.config.shapes[position];
            var now := AfterChecks(AfterBegin(r, first, begin, end, writer), position, world, me, steps, k);
            var (next, event) := CleanCheck(now, ShapeAt(r.config.shapes, position, k), world, me, steps[k]);
            if k + 1 < |steps| then event == Progress
            else event == Committed && CertifiedRotation(next, first, r.nextEpoch, steps[k])
  {
    var first := r.config.shapes[position];
    var begun := AfterBegin(r, first, begin, end, writer);
    ChecksPassed(begun, first, r.nextEpoch, position, world, me, steps, k);
    ShapeIsExpected(r.config.shapes, position, k);
    OneCheck(AfterChecks(begun, position, world, me, steps, k), first, r.nextEpoch, k,
             ShapeAt(r.config.shapes, position, k), world, me, steps[k]);
  }
}
