/**
 * SavingsGoal and SavingsGoalServiceImpl: goals with a target, deposits that
 * complete them once, and the per-user progress summary.
 */
module SavingsGoals {
  import opened Errors
  import opened Money

  /** The SavingsGoal document (description, dates, icon and colour play no part here). */
  datatype SavingsGoal = SavingsGoal(
    id: string, userId: string, name: string,
    targetAmount: int, currentAmount: int, completed: bool)

  /**
   * SavingsGoal.getProgress: currentAmount * 100 / targetAmount at scale 2,
   * HALF_UP, in hundredths of a percent; 0 for a zero target. Not capped at 100.
   */
  function Progress(g: SavingsGoal): (p: int)
    ensures g.targetAmount == 0 ==> p == 0
    ensures g.targetAmount != 0 ==>
      2 * Abs(g.currentAmount * 10000) - Abs(g.targetAmount) < 2 * Abs(p) * Abs(g.targetAmount)
                                                            <= 2 * Abs(g.currentAmount * 10000) + Abs(g.targetAmount)
    ensures ((0 <= g.currentAmount && 0 < g.targetAmount) || (g.currentAmount <= 0 && g.targetAmount < 0)) ==> p >= 0
    ensures ((g.currentAmount <= 0 && 0 < g.targetAmount) || (0 <= g.currentAmount && g.targetAmount < 0)) ==> p <= 0
  {
    if g.targetAmount == 0 then 0 else Percent(g.currentAmount, g.targetAmount)
  }

  /** Reaching the target is exactly 100.00 percent, passing it is more, and nothing caps the figure. */
  lemma ProgressMilestones(g: SavingsGoal)
    requires g.targetAmount > 0
    ensures g.currentAmount == g.targetAmount ==> Progress(g) == 10000
    ensures g.currentAmount >= g.targetAmount ==> Progress(g) >= 10000
    ensures 0 <= g.currentAmount <= g.targetAmount ==> 0 <= Progress(g) <= 10000
    ensures g.currentAmount >= 2 * g.targetAmount ==> Progress(g) >= 20000
  {
    var t := g.targetAmount;
    DivHalfUpExact(10000, t);
    DivHalfUpExact(20000, t);
    if g.currentAmount >= t {
      DivHalfUpMonotone(10000 * t, g.currentAmount * 10000, t);
    }
    if 0 <= g.currentAmount <= t {
      DivHalfUpMonotone(g.currentAmount * 10000, 10000 * t, t);
    }
    if g.currentAmount >= 2 * t {
      DivHalfUpMonotone(20000 * t, g.currentAmount * 10000, t);
    }
  }

  /** The completed flag says whether the saved amount has reached the target. */
  predicate CompletionTracksTarget(g: SavingsGoal) {
    g.completed <==> g.currentAmount >= g.targetAmount
  }

  /**
   * The effect of deposit on one goal: a completed goal refuses it with
   * BadRequest; otherwise the amount is added and the goal becomes completed
   * when the new amount reaches the target. Nothing else changes.
   */
  function ApplyDeposit(g: SavingsGoal, amount: int): (r: Result<SavingsGoal>)
    ensures r.Err? <==> g.completed
    ensures r.Err? ==> r.error == BadRequest
    ensures r.Ok? ==> r.value.currentAmount == g.currentAmount + amount
    ensures r.Ok? ==> CompletionTracksTarget(r.value)
    ensures r.Ok? ==> r.value == g.(currentAmount := r.value.currentAmount, completed := r.value.completed)
  {
    if g.completed then Err(BadRequest)
    else
      var newAmount := g.currentAmount + amount;
      Ok(g.(currentAmount := newAmount, completed := g.completed || newAmount >= g.targetAmount))
  }

  /** A run of deposit calls on one goal; a refused deposit leaves the goal as it was. */
  function DepositAll(g: SavingsGoal, amounts: seq<int>): SavingsGoal
    decreases |amounts|
  {
    if amounts == [] then g
    else
      var r := ApplyDeposit(g, amounts[0]);
      DepositAll(if r.Ok? then r.value else g, amounts[1..])
  }

  function Sum(xs: seq<int>): int {
    if xs == [] then 0 else xs[0] + Sum(xs[1..])
  }

  /** Once completed, a goal never changes again through deposits. */
  lemma {:induction false} CompletedIsFinal(g: SavingsGoal, amounts: seq<int>)
    requires g.completed
    ensures DepositAll(g, amounts) == g
    decreases |amounts|
  {
    if amounts != [] {
      CompletedIsFinal(g, amounts[1..]);
    }
  }

  /** Deposits keep the completed flag in step with the saved amount. */
  lemma {:induction false} DepositsKeepCompletionTracking(g: SavingsGoal, amounts: seq<int>)
    requires CompletionTracksTarget(g)
    ensures CompletionTracksTarget(DepositAll(g, amounts))
    decreases |amounts|
  {
    if amounts != [] {
      var r := ApplyDeposit(g, amounts[0]);
      DepositsKeepCompletionTracking(if r.Ok? then r.value else g, amounts[1..]);
    }
  }

  /** A goal still open after a run of deposits accepted every one of them. */
  lemma {:induction false} OpenGoalSavedEveryDeposit(g: SavingsGoal, amounts: seq<int>)
    requires !DepositAll(g, amounts).completed
    ensures DepositAll(g, amounts).currentAmount == g.currentAmount + Sum(amounts)
    ensures DepositAll(g, amounts).targetAmount == g.targetAmount
    decreases |amounts|
  {
    if amounts != [] {
      if g.completed {
        CompletedIsFinal(g, amounts);
        assert false;
      }
      var next := ApplyDeposit(g, amounts[0]).value;
      if next.completed {
        CompletedIsFinal(next, amounts[1..]);
        assert false;
      }
      OpenGoalSavedEveryDeposit(next, amounts[1..]);
    }
  }

  /**
   * A goal at 900.00 of 1000.00 takes a 150.00 deposit: it holds 1050.00,
   * is completed at 105.00 percent, and refuses the next deposit.
   */
  lemma DepositCompletesGoal(g: SavingsGoal)
    requires g.targetAmount == 100000 && g.currentAmount == 90000 && !g.completed
    ensures ApplyDeposit(g, 15000) == Ok(g.(currentAmount := 105000, completed := true))
    ensures Progress(g.(currentAmount := 105000, completed := true)) == 10500
    ensures ApplyDeposit(g.(currentAmount := 105000, completed := true), 100) == Err(BadRequest)
  {
    DivHalfUpExact(10500, 100000);
  }

  /** findByUserId. */
  function OwnedGoals(goals: seq<SavingsGoal>, userId: string): (r: seq<SavingsGoal>)
    ensures |r| <= |goals|
    ensures forall g :: g in r <==> g in goals && g.userId == userId
  {
    if goals == [] then []
    else (if goals[0].userId == userId then [goals[0]] else []) + OwnedGoals(goals[1..], userId)
  }

  /**
   * The targets of some goals added up. Every target is at least 0.01 when
   * written through a validated DTO, and then the sum is positive as soon as
   * there is a goal.
   */
  function SumTargets(gs: seq<SavingsGoal>): (total: int)
    ensures (forall g :: g in gs ==> g.targetAmount >= 1) ==> total >= |gs|
  {
    if gs == [] then 0
    else
      assert forall g :: g in gs[1..] ==> g in gs;
      gs[0].targetAmount + SumTargets(gs[1..])
  }

  /** The saved amounts of some goals added up; never negative while no balance is. */
  function SumSaved(gs: seq<SavingsGoal>): (total: int)
    ensures (forall g :: g in gs ==> g.currentAmount >= 0) ==> total >= 0
  {
    if gs == [] then 0
    else
      assert forall g :: g in gs[1..] ==> g in gs;
      gs[0].currentAmount + SumSaved(gs[1..])
  }

  /** `filter(SavingsGoal::isCompleted).count()`. */
  function CountCompleted(gs: seq<SavingsGoal>): (n: int)
    ensures 0 <= n <= |gs|
  {
    if gs == [] then 0 else (if gs[0].completed then 1 else 0) + CountCompleted(gs[1..])
  }

  /** The goals not completed: `filter(g -> !g.isCompleted()).count()`. */
  function CountActive(gs: seq<SavingsGoal>): (n: int)
    ensures 0 <= n <= |gs|
  {
    if gs == [] then 0 else (if gs[0].completed then 0 else 1) + CountActive(gs[1..])
  }

  /** Every goal is either completed or active. */
  lemma {:induction false} CompletedPlusActive(gs: seq<SavingsGoal>)
    ensures CountCompleted(gs) + CountActive(gs) == |gs|
  {
    if gs != [] {
      CompletedPlusActive(gs[1..]);
    }
  }

  /** When every goal has reached its target, together they have too. */
  lemma {:induction false} SavedCoversTargets(gs: seq<SavingsGoal>)
    requires forall g :: g in gs ==> g.currentAmount >= g.targetAmount
    ensures SumSaved(gs) >= SumTargets(gs)
  {
    if gs != [] {
      assert gs[0] in gs;
      SavedCoversTargets(gs[1..]);
    }
  }

  /** SavingsProgressDto. */
  datatype SavingsProgress = SavingsProgress(
    totalTargetAmount: int, totalSavedAmount: int, overallProgress: int,
    totalGoals: int, completedGoals: int, activeGoals: int)

  /**
   * getProgress over the caller's goals: summed targets and savings, their
   * HALF_UP percentage (0 unless the target sum is positive), and how many
   * goals are completed and how many are still active.
   */
  function GetProgress(goals: seq<SavingsGoal>, userId: string): (p: SavingsProgress)
    ensures var owned := OwnedGoals(goals, userId);
      && p.totalGoals == |owned|
      && p.totalTargetAmount == SumTargets(owned)
      && p.totalSavedAmount == SumSaved(owned)
      && p.completedGoals == CountCompleted(owned)
      && p.activeGoals == CountActive(owned)
    ensures p.completedGoals + p.activeGoals == p.totalGoals
    ensures p.totalTargetAmount <= 0 ==> p.overallProgress == 0
    ensures p.totalTargetAmount > 0 ==>
      2 * Abs(p.totalSavedAmount * 10000) - p.totalTargetAmount < 2 * Abs(p.overallProgress) * p.totalTargetAmount
                                                                <= 2 * Abs(p.totalSavedAmount * 10000) + p.totalTargetAmount
    ensures p.totalTargetAmount > 0 && p.totalSavedAmount >= 0 ==> p.overallProgress >= 0
    ensures p.totalTargetAmount > 0 && p.totalSavedAmount <= 0 ==> p.overallProgress <= 0
  {
    var owned := OwnedGoals(goals, userId);
    var totalTarget := SumTargets(owned);
    var totalSaved := SumSaved(owned);
    var overall := if totalTarget > 0 then Percent(totalSaved, totalTarget) else 0;
    var completed := CountCompleted(owned);
    CompletedPlusActive(owned);
    SavingsProgress(totalTarget, totalSaved, overall, |owned|, completed, |owned| - completed)
  }

  /** When all of the caller's goals are completed deposits-wise, overall progress is at least 100.00 percent. */
  lemma OverallProgressWhenAllReached(goals: seq<SavingsGoal>, userId: string)
    requires forall g :: g in goals && g.userId == userId ==> CompletionTracksTarget(g) && g.completed
    requires SumTargets(OwnedGoals(goals, userId)) > 0
    ensures GetProgress(goals, userId).overallProgress >= 10000
    ensures GetProgress(goals, userId).activeGoals == 0
  {
    var owned := OwnedGoals(goals, userId);
    SavedCoversTargets(owned);
    var t := SumTargets(owned);
    DivHalfUpExact(10000, t);
    DivHalfUpMonotone(10000 * t, SumSaved(owned) * 10000, t);
    AllCompletedNoneActive(owned);
  }

  lemma {:induction false} AllCompletedNoneActive(gs: seq<SavingsGoal>)
    requires forall g :: g in gs ==> g.completed
    ensures CountActive(gs) == 0
  {
    if gs != [] {
      assert gs[0] in gs;
      AllCompletedNoneActive(gs[1..]);
    }
  }

  /** findByIdAndUserId, as the position of the goal. */
  function FindGoal(goals: seq<SavingsGoal>, id: string, userId: string): (k: Option<nat>)
    ensures k.Some? ==> k.value < |goals| && goals[k.value].id == id && goals[k.value].userId == userId
    ensures k.None? <==> forall g :: g in goals ==> !(g.id == id && g.userId == userId)
  {
    if goals == [] then None
    else if goals[|goals| - 1].id == id && goals[|goals| - 1].userId == userId then Some(|goals| - 1)
    else FindGoal(goals[..|goals| - 1], id, userId)
  }

  /** The savings_goals collection, as the service sees it through SavingsGoalRepository. */
  class GoalStore {
    var goals: seq<SavingsGoal>

    /**
     * Unique ids. The completed flag is not part of the invariant: updateGoal
     * copies the request onto the goal, completed, target and saved amount
     * included, so nothing keeps the flag in step with the amounts.
     */
    ghost predicate Valid()
      reads this
    {
      forall i, j :: 0 <= i < j < |goals| ==> goals[i].id != goals[j].id
    }

    constructor ()
      ensures Valid() && goals == []
    {
      goals := [];
    }

    /**
     * createGoal: the DTO's name and target (at least 0.01) under the caller's
     * id, with nothing saved and not completed; newId is the id the store assigns.
     */
    method CreateGoal(userId: string, name: string, targetAmount: int, newId: string) returns (g: SavingsGoal)
      requires Valid()
      requires targetAmount >= 1
      requires forall x :: x in goals ==> x.id != newId
      modifies this
      ensures Valid()
      ensures g == SavingsGoal(newId, userId, name, targetAmount, 0, false)
      ensures goals == old(goals) + [g]
      ensures Progress(g) == 0
    {
      g := SavingsGoal(newId, userId, name, targetAmount, 0, false);
      goals := goals + [g];
    }

    /**
     * deposit: NotFound unless the caller owns the goal; BadRequest, with
     * nothing stored, when it is already completed; otherwise the goal is
     * stored with the amount added and completed once it reaches its target.
     */
    method Deposit(id: string, userId: string, amount: int) returns (r: Result<SavingsGoal>)
      requires Valid()
      modifies this
      ensures Valid()
      ensures FindGoal(old(goals), id, userId).None? ==> r == Err(NotFound) && goals == old(goals)
      ensures FindGoal(old(goals), id, userId).Some? ==>
        var k := FindGoal(old(goals), id, userId).value;
        && r == ApplyDeposit(old(goals)[k], amount)
        && goals == (if r.Ok? then old(goals)[k := r.value] else old(goals))
    {
      var found := FindGoal(goals, id, userId);
      if found.None? {
        return Err(NotFound);
      }
      var k := found.value;
      var goal := goals[k];
      if goal.completed {
        return Err(BadRequest);
      }
      var newAmount := goal.currentAmount + amount;
      goal := goal.(currentAmount := newAmount);
      if newAmount >= goal.targetAmount {
        goal := goal.(completed := true);
      }
      goals := goals[k := goal];
      r := Ok(goal);
    }
  }
}
