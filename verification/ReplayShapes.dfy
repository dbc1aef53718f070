/** The ordered shape plan and the scheduler that rotates it once per clean replay check. */
module ReplayShapes {
  import opened Prelude

  datatype Rotation = Rotation(position: nat, cycle: nat)

  datatype SavedState = SavedState(planId: string, position: int, cycle: int)

  datatype RestoreError = DifferentPlan | InvalidState

  function Advanced(size: nat, r: Rotation): Rotation {
    if r.position + 1 == size then Rotation(0, r.cycle + 1) else Rotation(r.position + 1, r.cycle)
  }

  function AdvancedBy(size: nat, r: Rotation, k: nat): Rotation {
    if k == 0 then r else Advanced(size, AdvancedBy(size, r, k - 1))
  }

  /** From any position, `size` advances complete exactly one cycle and visit every position once, in order. */
  lemma {:induction false} AdvancedPosition(size: nat, r: Rotation, k: nat)
    requires r.position < size && k <= size
    ensures AdvancedBy(size, r, k) ==
            if r.position + k < size then Rotation(r.position + k, r.cycle)
            else Rotation(r.position + k - size, r.cycle + 1)
  {
    if k == 0 {
    } else {
      AdvancedPosition(size, r, k - 1);
    }
  }

  class Scheduler {
    const planId: string
    const shapes: seq<string>
    var position: nat
    var cycle: nat

    ghost predicate Valid()
      reads this
    {
      position < |shapes|
    }

    ghost function View(): Rotation
      reads this
    {
      Rotation(position, cycle)
    }

    constructor (planId: string, shapes: seq<string>)
      requires shapes != []
      ensures Valid() && this.planId == planId && this.shapes == shapes && View() == Rotation(0, 0)
    {
      this.planId, this.shapes := planId, shapes;
      position, cycle := 0, 0;
    }

    method Advance()
      requires Valid()
      modifies this
      ensures Valid() && View() == Advanced(|shapes|, old(View()))
    {
      position := position + 1;
      if position == |shapes| {
        position := 0;
        cycle := cycle + 1;
      }
    }

    method StateDict() returns (s: SavedState)
      ensures s == SavedState(planId, position, cycle)
    {
      s := SavedState(planId, position, cycle);
    }

    /** Restores a saved rotation; without one, or with one of another plan or outside the plan, nothing changes. */
    method LoadStateDict(saved: Option<SavedState>) returns (r: Result<(), RestoreError>)
      requires Valid()
      modifies this
      ensures Valid()
      ensures saved.None? ==> r.Ok? && View() == old(View())
      ensures saved.Some? ==>
                var s := saved.value;
                && (r.Ok? <==> s.planId == planId && 0 <= s.position < |shapes| && s.cycle >= 0)
                && (r.Ok? ==> s == SavedState(planId, position, cycle))
                && (r.Err? ==> View() == old(View()) && (r.error.DifferentPlan? <==> s.planId != planId))
    {
      if saved.None? {
        return Ok(());
      }
      var s := saved.value;
      if s.planId != planId {
        return Err(DifferentPlan);
      }
      if !(0 <= s.position < |shapes|) || s.cycle < 0 {
        return Err(InvalidState);
      }
      position, cycle := s.position, s.cycle;
      r := Ok(());
    }
  }
}
