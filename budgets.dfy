/**
 * The budget manager: one bucket row per configured category in the `budgets`
 * table, and income credited to the buckets by the waterfall distributor.
 */
module Budgets {

  import opened Dicts
  import opened Store
  import opened Waterfall

  /** Balances after `INSERT OR IGNORE` of a zero-balance row for each of `cats`. */
  function WithBuckets(budgets: map<string, real>, cats: seq<string>): map<string, real>
  {
    map c | c in budgets.Keys + (set c | c in cats) :: if c in budgets then budgets[c] else 0.0
  }

  /** What the final write credits to `c`: its allocation when that is positive, else nothing. */
  function Credit(alloc: map<string, real>, c: string): real
  {
    if c in alloc && alloc[c] > 0.0 then alloc[c] else 0.0
  }

  class BudgetManager {
    const db: Database
    /** `allocation_map` (with its key order) and `limit_map`. */
    const policy: Policy

    /** The budgets table exists and holds a bucket for every configured category. */
    ghost predicate Valid()
      reads db
    {
      db.Valid() && db.budgetsTable && ValidPolicy(policy) && forall c :: c in policy.cats ==> c in db.budgets
    }

    constructor (db: Database, policy: Policy)
      requires db.Valid() && ValidPolicy(policy)
      modifies db
      ensures this.db == db && this.policy == policy && Valid()
      ensures db.budgets == WithBuckets(old(db.budgets), policy.cats)
      ensures db.expensesTable == old(db.expensesTable) && db.expenses == old(db.expenses) && db.lastId == old(db.lastId)
    {
      this.db := db;
      this.policy := policy;
      new;
      InitDb();
    }

    /**
     * Creates the budgets table if it is missing, then inserts a zero balance
     * for every configured category that has no row yet; existing balances
     * are kept.
     */
    method InitDb()
      requires db.Valid() && ValidPolicy(policy)
      modifies db
      ensures Valid()
      ensures db.budgets == WithBuckets(old(db.budgets), policy.cats)
      ensures db.expensesTable == old(db.expensesTable) && db.expenses == old(db.expenses) && db.lastId == old(db.lastId)
    {
      db.budgetsTable := true;
      var budgets := db.budgets;
      for i := 0 to |policy.cats|
        invariant budgets == WithBuckets(old(db.budgets), policy.cats[..i])
        modifies {}
      {
        var c := policy.cats[i];
        assert policy.cats[..i + 1] == policy.cats[..i] + [c];
        WithBucketsSnoc(old(db.budgets), policy.cats[..i], c);
        if c !in budgets {
          budgets := budgets[c := 0.0];
        }
      }
      assert policy.cats[..|policy.cats|] == policy.cats;
      db.budgets := budgets;
    }

    method GetBalances() returns (balances: map<string, real>)
      requires Valid()
      ensures balances == db.budgets
    {
      balances := db.budgets;
    }

    /**
     * The distribution loop of allocate_income: rounds over a frozen balance
     * snapshot, computing the allocation breakdown without writing anything.
     */
    static method ComputeAllocations(p: Policy, balances: map<string, real>, income: real) returns (allocations: map<string, real>)
      requires ValidPolicy(p)
      ensures allocations == Allocation(p, balances, income)
    {
      allocations := Zeros(p.cats);
      var remaining := income;
      ghost var goal := Allocation(p, balances, income);
      while remaining > Epsilon
        invariant allocations.Keys == set c | c in p.cats
        invariant Rounds(p, balances, allocations, remaining) == goal
        decreases (remaining * 100.0).Floor
      {
        var outcome := Round(p, balances, allocations, remaining);
        RoundsOn(p, balances, allocations, remaining, outcome, goal);
        match outcome {
          case Last(a) =>
            return a;
          case Again(a, distributed) =>
            allocations, remaining := a, remaining - distributed;
        }
      }
      RoundsDone(p, balances, allocations, remaining, goal);
    }

    /**
     * One pass of the loop body of allocate_income. It ends in `Last` where
     * the source breaks out of the loop: nowhere left to put money, no active
     * weight, or less than a cent given out (the stall guard).
     */
    static method Round(p: Policy, balances: map<string, real>, allocations: map<string, real>, remaining: real)
      returns (outcome: Outcome)
      requires ValidPolicy(p)
      requires allocations.Keys == set c | c in p.cats
      ensures outcome == Step(p, balances, allocations, remaining)
      ensures outcome.alloc.Keys == allocations.Keys
    {
      // 1. The categories that are not full yet.
      var active := ActiveCategories(p, balances, allocations);
      if active == [] {
        return Last(allocations);
      }
      // 2. Renormalise the weights over the active categories.
      var total := ActiveWeight(p, active);
      if total == 0.0 {
        return Last(allocations);
      }
      // 3. Distribute.
      var next, distributed := DistributeRound(p, balances, allocations, active, remaining, total);
      // Stall guard.
      RoundCredits(p, balances, allocations, remaining);
      if distributed < Epsilon {
        return Last(next);
      }
      return Again(next, distributed);
    }

    /** The categories with a positive weight that are uncapped or still below their cap. */
    static method ActiveCategories(p: Policy, balances: map<string, real>, allocations: map<string, real>) returns (active: seq<string>)
      requires allocations.Keys == set c | c in p.cats
      ensures active == ActiveIn(p, balances, allocations, p.cats)
    {
      active := [];
      for i := 0 to |p.cats|
        invariant active == ActiveIn(p, balances, allocations, p.cats[..i])
      {
        var c := p.cats[i];
        assert p.cats[..i + 1] == p.cats[..i] + [c];
        if Get(p.weights, c) <= 0.0 {
          continue;
        }
        var limit := Get(p.limits, c);
        var current := Get(balances, c) + allocations[c];
        if limit == 0.0 || current < limit {
          active := active + [c];
        }
      }
      assert p.cats[..|p.cats|] == p.cats;
    }

    /** `sum(allocation_map[c] for c in active_cats)`. */
    static method ActiveWeight(p: Policy, active: seq<string>) returns (total: real)
      ensures total == WeightSum(p, active)
    {
      total := 0.0;
      for j := 0 to |active|
        invariant total == WeightSum(p, active[..j])
      {
        assert active[..j + 1][..j] == active[..j];
        total := total + Get(p.weights, active[j]);
      }
      assert active[..|active|] == active;
    }

    /** The `for cat in active_cats` loop: each active category gets its share, clipped to the space below its cap. */
    static method DistributeRound(p: Policy, balances: map<string, real>, allocations: map<string, real>,
                                  active: seq<string>, remaining: real, total: real)
      returns (next: map<string, real>, distributed: real)
      requires total != 0.0
      ensures (next, distributed) == Distribute(p, balances, allocations, active, remaining, total)
    {
      next, distributed := allocations, 0.0;
      for j := 0 to |active|
        invariant (next, distributed) == Distribute(p, balances, allocations, active[..j], remaining, total)
      {
        var c := active[j];
        assert active[..j + 1][..j] == active[..j];
        var share := Share(p, c, remaining, total);
        var limit := Get(p.limits, c);
        var current := Get(balances, c) + Get(next, c);
        // An uncapped category has infinite space, so min(share, space) is the share.
        var actualAdd := if limit > 0.0 then Min(share, limit - current) else share;
        next := next[c := Get(next, c) + actualAdd];
        distributed := distributed + actualAdd;
      }
      assert active[..|active|] == active;
    }

    /**
     * allocate_income: distributes `income` over the buckets against one
     * balance snapshot, then credits every positive allocation to its bucket
     * in one transaction and returns the whole breakdown.
     */
    method AllocateIncome(income: real) returns (allocations: map<string, real>)
      requires Valid()
      modifies db
      ensures Valid()
      ensures allocations == Allocation(policy, old(db.budgets), income)
      ensures db.budgets.Keys == old(db.budgets).Keys
      ensures forall c :: c in db.budgets ==> db.budgets[c] == old(db.budgets)[c] + Credit(allocations, c)
      ensures db.expensesTable == old(db.expensesTable) && db.expenses == old(db.expenses) && db.lastId == old(db.lastId)
    {
      var snapshot := GetBalances();
      allocations := ComputeAllocations(policy, snapshot, income);
      AllocationKeys(policy, snapshot, income);

      // 4. Save: one UPDATE per positive allocation, committed together.
      var budgets := CreditAll(db.budgets, policy.cats, allocations);
      db.budgets := budgets;
    }

    /**
     * The write step of allocate_income: `current_balance += amount` for every
     * category whose allocation is positive; a category without a bucket row
     * matches no row and changes nothing.
     */
    static method CreditAll(budgets: map<string, real>, cats: seq<string>, allocations: map<string, real>)
      returns (updated: map<string, real>)
      requires Distinct(cats) && allocations.Keys == set c | c in cats
      ensures updated.Keys == budgets.Keys
      ensures forall c :: c in updated ==> updated[c] == budgets[c] + Credit(allocations, c)
    {
      updated := budgets;
      for i := 0 to |cats|
        invariant updated.Keys == budgets.Keys
        invariant forall c :: c in updated ==>
          updated[c] == budgets[c] + (if c in cats[..i] then Credit(allocations, c) else 0.0)
      {
        var c := cats[i];
        assert cats[..i + 1] == cats[..i] + [c];
        assert c !in cats[..i];
        if allocations[c] > 0.0 && c in updated {
          updated := updated[c := updated[c] + allocations[c]];
        }
      }
      assert cats[..|cats|] == cats;
    }
  }

  // ---------------------------------------------------------------------------
  // Lemmas

  /** `INSERT OR IGNORE` of one more category. */
  lemma WithBucketsSnoc(budgets: map<string, real>, cats: seq<string>, c: string)
    ensures var b := WithBuckets(budgets, cats);
      WithBuckets(budgets, cats + [c]) == if c in b then b else b[c := 0.0]
  {
    var b := WithBuckets(budgets, cats);
    assert (set x | x in cats + [c]) == (set x | x in cats) + {c};
  }

  /**
   * Initialisation gives every configured category a bucket, starts new
   * buckets at zero, never resets or drops an existing one, and is idempotent.
   */
  lemma WithBucketsSpec(budgets: map<string, real>, cats: seq<string>)
    ensures var b := WithBuckets(budgets, cats);
      && (forall i :: 0 <= i < |cats| ==> cats[i] in b)
      && (forall c :: c in budgets ==> c in b && b[c] == budgets[c])
      && (forall c :: c in b && c !in budgets ==> b[c] == 0.0)
      && (forall c :: c in b ==> c in budgets || c in cats)
      && WithBuckets(b, cats) == b
  {
    var b := WithBuckets(budgets, cats);
    assert forall i :: 0 <= i < |cats| ==> cats[i] in b;
  }

  /**
   * The credit step at the level of balances: a capped bucket that starts at
   * or below its cap ends at or below it, a bucket whose weight is not
   * positive is left as it was, and no bucket loses money.
   */
  lemma CreditRespectsPolicy(p: Policy, bal: map<string, real>, income: real, c: string)
    requires Distinct(p.cats) && c in bal
    ensures var credit := Credit(Allocation(p, bal, income), c);
      && credit >= 0.0
      && (Get(p.weights, c) <= 0.0 ==> credit == 0.0)
      && (0.0 < Get(p.limits, c) && bal[c] <= Get(p.limits, c) ==> bal[c] + credit <= Get(p.limits, c))
  {
    AllocationBounds(p, bal, income);
  }
}
