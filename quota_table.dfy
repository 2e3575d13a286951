/**
 * The quota table as the page holds it: a dictionary loaded once per run and
 * updated in place, first by the daily reset of the caller's record and then
 * by the gated increment on a button press. Each method is proved against
 * the functions of module QuotaSpec.
 */
module QuotaStore {
  import opened QuotaSpec

  class QuotaTable {
    /** The records, keyed by user id. */
    var data: Table

    /** Every record holds a count within the daily quota. */
    ghost predicate Valid()
      reads this
    {
      WellFormed(data)
    }

    /** A table as loaded from the quota file, which is taken to be well formed. */
    constructor (loaded: Table)
      requires WellFormed(loaded)
      ensures Valid()
      ensures data == loaded
    {
      data := loaded;
    }

    /**
     * Brings the caller's record up to `today`: replaces it with a fresh
     * record when it is missing or dated any other day.
     */
    method EnsureToday(user: string, today: string)
      requires Valid()
      modifies this
      ensures Valid()
      ensures data == Initialized(old(data), user, today)
    {
      if user !in data || data[user].date != today {
        data := data[user := Record(today, 0)];
      }
    }

    /** The number of calls the caller has left today. */
    function RemainingFor(user: string): (n: int)
      reads this
      requires Valid()
      requires user in data
      ensures 0 <= n <= MAX_QUOTA
      ensures n == 0 <==> data[user].count >= MAX_QUOTA
    {
      Remaining(data[user])
    }

    /**
     * A button press: refused when the caller has used up the quota;
     * otherwise the upstream call is made and counted only when it answered 200.
     */
    method Press(user: string, upstreamOk: bool) returns (outcome: Outcome)
      requires Valid()
      requires user in data
      modifies this
      ensures Valid()
      ensures (data, outcome) == QuotaSpec.Press(old(data), user, upstreamOk)
    {
      if data[user].count >= MAX_QUOTA {
        outcome := Refused;
        assert data[user := data[user]] == data;
      } else if upstreamOk {
        data := data[user := data[user].(count := data[user].count + 1)];
        outcome := Succeeded;
      } else {
        outcome := UpstreamFailed;
        assert data[user := data[user]] == data;
      }
    }

    /**
     * One run of the page for `v.user` on `v.today`: the daily reset, the
     * remaining count shown, and the press if the button was clicked.
     */
    method HandleVisit(v: Visit) returns (remaining: int, outcome: Option<Outcome>)
      requires Valid()
      modifies this
      ensures Valid()
      ensures RunResult(data, remaining, outcome) == Run(old(data), v)
    {
      EnsureToday(v.user, v.today);
      remaining := RemainingFor(v.user);
      match v.press {
        case None =>
          outcome := None;
        case Some(ok) =>
          var o := Press(v.user, ok);
          outcome := Some(o);
      }
    }
  }
}
