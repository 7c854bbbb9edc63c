/**
 * The blocking detector of an autonomous task: the task's checkpoint keeps a list of
 * blocked items, and an ordered set of rules decides when the task should stop and be
 * queued for human review. Times are nanoseconds; costs are whole cents.
 */
module Blocking {
  import opened Results
  import Seqs

  /** Thirty minutes, in nanoseconds. */
  const ReviewAfter: int := 30 * 60 * 1000000000

  /** An item the task could not make progress on, why, and since when. */
  datatype BlockedItem = BlockedItem(item: string, reason: string, blockedAt: int)

  /** The parts of a task checkpoint the detector reads and changes. */
  class TaskCheckpoint {
    var iterationCount: int
    var maxIterations: int
    var costBudget: Option<int>
    var estimatedCost: int
    var blockedItems: seq<BlockedItem>

    /** `NewTaskCheckpoint`: no iterations, no cost and no blocked items yet. */
    constructor (maxIterations: int, costBudget: Option<int>)
      ensures this.maxIterations == maxIterations && this.costBudget == costBudget
      ensures iterationCount == 0 && estimatedCost == 0 && blockedItems == []
    {
      this.maxIterations := maxIterations;
      this.costBudget := costBudget;
      iterationCount := 0;
      estimatedCost := 0;
      blockedItems := [];
    }
  }

  // ---------------------------------------------------------------- removing items

  /** Whether a blocked entry is for some other item than `name`. */
  predicate OtherThan(b: BlockedItem, name: string) {
    b.item != name
  }

  /** The list without the entries for `name`, the others in their order. */
  function Remaining(items: seq<BlockedItem>, name: string): seq<BlockedItem> {
    Seqs.Filter(items, (b: BlockedItem) => OtherThan(b, name))
  }

  /** What removal keeps: exactly the entries for other items. */
  lemma RemainingMembers(items: seq<BlockedItem>, name: string)
    ensures forall b :: b in Remaining(items, name) <==> b in items && b.item != name
  {
    forall b | b in items && b.item != name ensures b in Remaining(items, name) {
      Seqs.FilterKeeps(items, (b: BlockedItem) => OtherThan(b, name), b);
    }
  }

  /** Nothing remains exactly when every entry was for `name`. */
  lemma RemainingEmpty(items: seq<BlockedItem>, name: string)
    ensures Remaining(items, name) == [] <==> forall b :: b in items ==> b.item == name
  {
    var r := Remaining(items, name);
    RemainingMembers(items, name);
    if r != [] {
      assert r[0] in r;
    }
    if !forall b :: b in items ==> b.item == name {
      var b :| b in items && b.item != name;
      assert b in r;
    }
  }

  /** Removing an item that is not blocked changes nothing. */
  lemma {:induction false} RemainingAbsent(items: seq<BlockedItem>, name: string)
    requires forall b :: b in items ==> b.item != name
    ensures Remaining(items, name) == items
    decreases |items|
  {
    if items != [] {
      var init := items[..|items| - 1];
      assert forall b :: b in init ==> b in items;
      RemainingAbsent(init, name);
      assert init + [items[|items| - 1]] == items;
    }
  }

  /** Removing an item just blocked undoes its blocking, and removing twice is removing once. */
  lemma RemainingAfterAdd(items: seq<BlockedItem>, name: string, reason: string, at: int)
    ensures Remaining(items + [BlockedItem(name, reason, at)], name) == Remaining(items, name)
    ensures Remaining(Remaining(items, name), name) == Remaining(items, name)
  {
    var p := (b: BlockedItem) => OtherThan(b, name);
    Seqs.FilterAppend(items, [BlockedItem(name, reason, at)], p);
    assert Seqs.Filter([BlockedItem(name, reason, at)], p) == [] by {
      assert [BlockedItem(name, reason, at)][..0] == [];
    }
    RemainingAbsent(Remaining(items, name), name);
  }

  // ---------------------------------------------------------------- review rules

  /** Blocked for strictly longer than thirty minutes at `now`. */
  predicate LongBlocked(b: BlockedItem, now: int) {
    now - b.blockedAt > ReviewAfter
  }

  /** The index of the first entry from `i` on that has been blocked too long, if any. */
  function FirstLongBlocked(items: seq<BlockedItem>, now: int, i: nat): (r: Option<nat>)
    requires i <= |items|
    ensures r.Some? ==> i <= r.value < |items| && LongBlocked(items[r.value], now)
    ensures r.Some? ==> forall j :: i <= j < r.value ==> !LongBlocked(items[j], now)
    ensures r.None? ==> forall j :: i <= j < |items| ==> !LongBlocked(items[j], now)
    decreases |items| - i
  {
    if i == |items| then None
    else if LongBlocked(items[i], now) then Some(i)
    else FirstLongBlocked(items, now, i + 1)
  }

  function BlockedTooLong(item: string): string {
    "Blocked item for >30 minutes: " + item
  }

  function MaxIterationsReached(): string {
    "Reached maximum iterations"
  }

  function CostBudgetReached(): string {
    "Reached cost budget"
  }

  /**
   * The review rules in their order: the first item blocked for more than thirty minutes,
   * then the iteration budget, then the cost budget when one is set. The task is queued
   * exactly when one of them fires, with the reason of the first that does; otherwise the
   * reason is empty.
   */
  function ReviewDecision(items: seq<BlockedItem>, now: int, iterationCount: int, maxIterations: int,
                          costBudget: Option<int>, estimatedCost: int): (r: (bool, string))
    ensures !r.0 <==> (forall b :: b in items ==> !LongBlocked(b, now)) && iterationCount < maxIterations
                      && (costBudget.None? || estimatedCost < costBudget.value)
    ensures r.0 <==> r.1 != ""
    ensures forall k :: 0 <= k < |items| && LongBlocked(items[k], now) && (forall j :: 0 <= j < k ==> !LongBlocked(items[j], now))
              ==> r.1 == BlockedTooLong(items[k].item)
    ensures (forall b :: b in items ==> !LongBlocked(b, now)) && iterationCount >= maxIterations ==> r.1 == MaxIterationsReached()
    ensures ((forall b :: b in items ==> !LongBlocked(b, now)) && iterationCount < maxIterations
              && costBudget.Some? && estimatedCost >= costBudget.value) ==> r.1 == CostBudgetReached()
  {
    match FirstLongBlocked(items, now, 0)
    case Some(k) =>
      assert |BlockedTooLong(items[k].item)| > 0;
      (true, BlockedTooLong(items[k].item))
    case None =>
      if iterationCount >= maxIterations then (true, MaxIterationsReached())
      else if costBudget.Some? && estimatedCost >= costBudget.value then (true, CostBudgetReached())
      else (false, "")
  }

  /** Without a cost budget, the cost spent never decides anything. */
  lemma NoBudgetIgnoresCost(items: seq<BlockedItem>, now: int, iterationCount: int, maxIterations: int, cost1: int, cost2: int)
    ensures ReviewDecision(items, now, iterationCount, maxIterations, None, cost1)
         == ReviewDecision(items, now, iterationCount, maxIterations, None, cost2)
  {
  }

  /**
   * The decision reads no progress history: with nothing blocked for long, iterations left
   * and no cost budget, the task is never queued, however long it has gone without progress.
   */
  lemma NoProgressRuleAbsent(items: seq<BlockedItem>, now: int, iterationCount: int, maxIterations: int, estimatedCost: int)
    requires forall b :: b in items ==> !LongBlocked(b, now)
    requires iterationCount < maxIterations
    ensures ReviewDecision(items, now, iterationCount, maxIterations, None, estimatedCost) == (false, "")
  {
  }

  /** The detector, which works on the checkpoint it was given (shared, not copied). */
  class BlockingDetector {
    const checkpoint: TaskCheckpoint

    /** `NewBlockingDetector`. */
    constructor (checkpoint: TaskCheckpoint)
      ensures this.checkpoint == checkpoint
    {
      this.checkpoint := checkpoint;
    }

    /** `HasBlockedItems`: whether any item is blocked. */
    predicate HasBlockedItems()
      reads this, checkpoint
    {
      |checkpoint.blockedItems| > 0
    }

    /** `AddBlockedItem`: one entry appended, blocked since `now`; nothing else changes. */
    method AddBlockedItem(item: string, reason: string, now: int)
      modifies checkpoint
      ensures checkpoint.blockedItems == old(checkpoint.blockedItems) + [BlockedItem(item, reason, now)]
      ensures checkpoint.iterationCount == old(checkpoint.iterationCount) && checkpoint.maxIterations == old(checkpoint.maxIterations)
      ensures checkpoint.costBudget == old(checkpoint.costBudget) && checkpoint.estimatedCost == old(checkpoint.estimatedCost)
      ensures HasBlockedItems()
    {
      checkpoint.blockedItems := checkpoint.blockedItems + [BlockedItem(item, reason, now)];
    }

    /**
     * `RemoveBlockedItem`: the list rebuilt from the entries for other items, in order;
     * nothing is left blocked exactly when every entry was for `item`.
     */
    method RemoveBlockedItem(item: string)
      modifies checkpoint
      ensures checkpoint.blockedItems == Remaining(old(checkpoint.blockedItems), item)
      ensures checkpoint.iterationCount == old(checkpoint.iterationCount) && checkpoint.maxIterations == old(checkpoint.maxIterations)
      ensures checkpoint.costBudget == old(checkpoint.costBudget) && checkpoint.estimatedCost == old(checkpoint.estimatedCost)
      ensures !HasBlockedItems() <==> forall b :: b in old(checkpoint.blockedItems) ==> b.item == item
    {
      var items := checkpoint.blockedItems;
      var remaining: seq<BlockedItem> := [];
      var i := 0;
      while i < |items|
        invariant 0 <= i <= |items|
        invariant remaining == Remaining(items[..i], item)
      {
        assert items[..i + 1][..i] == items[..i];
        if items[i].item != item {
          remaining := remaining + [items[i]];
        }
        i := i + 1;
      }
      assert items[..i] == items;
      RemainingEmpty(items, item);
      checkpoint.blockedItems := remaining;
    }

    /**
     * `ShouldQueueForReview` at clock reading `now`: the blocked items scanned in order for
     * one blocked too long, then the two budgets checked.
     */
    method ShouldQueueForReview(now: int) returns (queue: bool, reason: string)
      ensures (queue, reason) == ReviewDecision(checkpoint.blockedItems, now, checkpoint.iterationCount,
                                                checkpoint.maxIterations, checkpoint.costBudget, checkpoint.estimatedCost)
    {
      var items := checkpoint.blockedItems;
      var i := 0;
      while i < |items|
        invariant 0 <= i <= |items|
        invariant FirstLongBlocked(items, now, i) == FirstLongBlocked(items, now, 0)
      {
        if now - items[i].blockedAt > ReviewAfter {
          return true, BlockedTooLong(items[i].item);
        }
        i := i + 1;
      }
      if checkpoint.iterationCount >= checkpoint.maxIterations {
        return true, MaxIterationsReached();
      }
      if checkpoint.costBudget.Some? {
        if checkpoint.estimatedCost >= checkpoint.costBudget.value {
          return true, CostBudgetReached();
        }
      }
      return false, "";
    }
  }
}
