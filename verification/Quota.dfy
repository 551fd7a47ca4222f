/** The daily call budget. A day is an integer; a clock reading is a parameter of each call. */
module Quota {
  import opened Prelude

  datatype Budget = Budget(day: Option<int>, count: nat)

  /** The budget as it stands when today begins to be counted. */
  function Rolled(q: Budget, today: int): (q': Budget) {
    if q.day != Some(today) then Budget(Some(today), 0) else q
  }

  predicate WithinBudget(limit: int, q: Budget, today: int) {
    limit <= 0 || Rolled(q, today).count < limit
  }

  /** The budget after one check; a refused check still rolls the day over. */
  function Charged(limit: int, q: Budget, today: int): (q': Budget) {
    if limit <= 0 then q
    else if WithinBudget(limit, q, today) then Budget(Some(today), Rolled(q, today).count + 1)
    else Rolled(q, today)
  }

  function RemainingOn(limit: int, q: Budget, today: int): (r: Option<int>) {
    if limit <= 0 then None
    else if q.day != Some(today) then Some(limit)
    else Some(if limit - q.count > 0 then limit - q.count else 0)
  }

  class DailyQuota {
    const limit: int
    var day: Option<int>
    var count: nat

    ghost function State(): (q: Budget)
      reads this
    {
      Budget(day, count)
    }

    constructor (dailyLimit: int)
      ensures limit == dailyLimit && State() == Budget(None, 0)
    {
      this.limit := dailyLimit;
      this.day := None;
      this.count := 0;
    }

    /** False stands for QuotaExceeded. */
    method Check(today: int) returns (ok: bool)
      modifies this
      ensures ok == WithinBudget(limit, old(State()), today)
      ensures State() == Charged(limit, old(State()), today)
    {
      if limit <= 0 {
        return true;
      }
      if Some(today) != day {
        day := Some(today);
        count := 0;
      }
      if count >= limit {
        return false;
      }
      count := count + 1;
      return true;
    }

    /** What is left is positive exactly when a check on that day would pass. */
    method Remaining(today: int) returns (r: Option<int>)
      ensures r.None? <==> limit <= 0
      ensures r.Some? ==> 0 <= r.value <= limit && (r.value > 0 <==> WithinBudget(limit, State(), today))
      ensures r == RemainingOn(limit, State(), today)
    {
      if limit <= 0 {
        return None;
      }
      if Some(today) != day {
        return Some(limit);
      }
      return Some(if limit - count > 0 then limit - count else 0);
    }
  }
}
