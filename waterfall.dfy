/**
 * The waterfall income distributor of the budget manager, as pure functions.
 *
 * A round renormalises the weights over the categories that are still
 * "active" (positive weight, and either uncapped or below their cap), gives
 * each active category the smaller of its share and its remaining space, and
 * takes what was given out off the remainder. Rounds repeat until the
 * remainder is at most `Epsilon`, no category is active, the active weight is
 * zero, or a round gives out less than `Epsilon`.
 */
module Waterfall {

  import opened Dicts

  /** Precision floor of the distributor (0.01 currency units). */
  const Epsilon: real := 0.01

  /**
   * The configured policy: `cats` is the key order of the weight map, `weights`
   * the weight map itself and `limits` the cap map (a cap of 0 means uncapped).
   */
  datatype Policy = Policy(cats: seq<string>, weights: map<string, real>, limits: map<string, real>)

  /** A weight map is a dictionary: its keys, in order, without repetition. */
  predicate ValidPolicy(p: Policy)
  {
    Distinct(p.cats) && p.weights.Keys == set c | c in p.cats
  }

  function Min(a: real, b: real): real
  {
    if a <= b then a else b
  }

  /** Balance of `c` as if this run's allocations had already been credited. */
  function Current(bal: map<string, real>, alloc: map<string, real>, c: string): real
  {
    Get(bal, c) + Get(alloc, c)
  }

  predicate Active(p: Policy, bal: map<string, real>, alloc: map<string, real>, c: string)
  {
    Get(p.weights, c) > 0.0 && (Get(p.limits, c) == 0.0 || Current(bal, alloc, c) < Get(p.limits, c))
  }

  /** The active categories among `cs`, in the order of `cs`. */
  function ActiveIn(p: Policy, bal: map<string, real>, alloc: map<string, real>, cs: seq<string>): seq<string>
  {
    if cs == [] then []
    else
      var init := ActiveIn(p, bal, alloc, cs[..|cs| - 1]);
      if Active(p, bal, alloc, cs[|cs| - 1]) then init + [cs[|cs| - 1]] else init
  }

  /** Sum of the weights of `cs`, added left to right. */
  function WeightSum(p: Policy, cs: seq<string>): real
  {
    if cs == [] then 0.0 else WeightSum(p, cs[..|cs| - 1]) + Get(p.weights, cs[|cs| - 1])
  }

  /** The renormalised share of `c` in a round that has `remaining` to give out. */
  function Share(p: Policy, c: string, remaining: real, total: real): real
    requires total != 0.0
  {
    remaining * (Get(p.weights, c) / total)
  }

  /** What `c` actually receives: its share, clipped to the space below a positive cap. */
  function Add(p: Policy, bal: map<string, real>, alloc: map<string, real>, c: string, remaining: real, total: real): real
    requires total != 0.0
  {
    var share := Share(p, c, remaining, total);
    var limit := Get(p.limits, c);
    if limit > 0.0 then Min(share, limit - Current(bal, alloc, c)) else share
  }

  /** Total given out to the categories `cs` in one round. */
  function SumAdds(p: Policy, bal: map<string, real>, alloc: map<string, real>, cs: seq<string>, remaining: real, total: real): real
    requires total != 0.0
  {
    if cs == [] then 0.0
    else SumAdds(p, bal, alloc, cs[..|cs| - 1], remaining, total) + Add(p, bal, alloc, cs[|cs| - 1], remaining, total)
  }

  /**
   * The distribution loop of one round: the categories `cs` take their turn in
   * order, each credited with its `Add` computed from the allocations as they
   * stand at its turn. Yields the new allocations and the total given out.
   */
  function Distribute(p: Policy, bal: map<string, real>, alloc: map<string, real>, cs: seq<string>,
                      remaining: real, total: real): (map<string, real>, real)
    requires total != 0.0
  {
    if cs == [] then (alloc, 0.0)
    else
      var (m, given) := Distribute(p, bal, alloc, cs[..|cs| - 1], remaining, total);
      var c := cs[|cs| - 1];
      var add := Add(p, bal, m, c, remaining, total);
      (m[c := Get(m, c) + add], given + add)
  }

  /**
   * How a round ends: the loop stops after it (`Last`), or goes round again
   * with `given` less left to give out (`Again`).
   */
  datatype Outcome = Last(alloc: map<string, real>) | Again(alloc: map<string, real>, given: real)

  /**
   * One pass of the loop body: no active category, or an active weight of
   * zero, stops with the allocations as they are; otherwise the round is
   * distributed, and it is the last one when it gave out less than `Epsilon`.
   */
  function Step(p: Policy, bal: map<string, real>, alloc: map<string, real>, remaining: real): (o: Outcome)
    ensures o.Again? ==> o.given >= Epsilon
  {
    var active := ActiveIn(p, bal, alloc, p.cats);
    if active == [] then Last(alloc)
    else
      var total := WeightSum(p, active);
      if total == 0.0 then Last(alloc)
      else
        var (next, given) := Distribute(p, bal, alloc, active, remaining, total);
        if given < Epsilon then Last(next) else Again(next, given)
  }

  /** Rounds until the remainder is at most `Epsilon` or a round is the last one. */
  function Rounds(p: Policy, bal: map<string, real>, alloc: map<string, real>, remaining: real): map<string, real>
    decreases (remaining * 100.0).Floor, 1
  {
    if remaining <= Epsilon then alloc else After(p, bal, Step(p, bal, alloc, remaining), remaining)
  }

  /** The run after a round: a last round ends it, any other goes on with `given` less to give out. */
  function After(p: Policy, bal: map<string, real>, o: Outcome, remaining: real): map<string, real>
    requires remaining > Epsilon && (o.Again? ==> o.given >= Epsilon)
    decreases (remaining * 100.0).Floor, 0
  {
    match o
    case Last(a) => a
    case Again(a, given) => Rounds(p, bal, a, remaining - given)
  }

  function Zeros(cats: seq<string>): map<string, real>
  {
    map c | c in cats :: 0.0
  }

  /** The allocation breakdown for `income` against the balance snapshot `bal`. */
  function Allocation(p: Policy, bal: map<string, real>, income: real): map<string, real>
  {
    Rounds(p, bal, Zeros(p.cats), income)
  }

  /** Sum of the uncapped shares of `cs` in one round. */
  function SumShares(p: Policy, cs: seq<string>, remaining: real, total: real): real
    requires total != 0.0
  {
    if cs == [] then 0.0 else SumShares(p, cs[..|cs| - 1], remaining, total) + Share(p, cs[|cs| - 1], remaining, total)
  }

  /**
   * The bounds every allocation keeps: never negative, nothing for a category
   * whose weight is not positive, and never past a positive cap.
   */
  predicate Sound(p: Policy, bal: map<string, real>, alloc: map<string, real>)
  {
    forall c :: c in alloc ==>
      && alloc[c] >= 0.0
      && (Get(p.weights, c) <= 0.0 ==> alloc[c] == 0.0)
      && (Get(p.limits, c) > 0.0 && alloc[c] > 0.0 ==> Get(bal, c) + alloc[c] <= Get(p.limits, c))
  }

  // ---------------------------------------------------------------------------
  // The active set

  lemma {:induction false} ActiveInMember(p: Policy, bal: map<string, real>, alloc: map<string, real>, cs: seq<string>, c: string)
    ensures c in ActiveIn(p, bal, alloc, cs) <==> c in cs && Active(p, bal, alloc, c)
  {
    if cs != [] {
      ActiveInMember(p, bal, alloc, cs[..|cs| - 1], c);
      assert cs == cs[..|cs| - 1] + [cs[|cs| - 1]];
    }
  }

  lemma {:induction false} ActiveInDistinct(p: Policy, bal: map<string, real>, alloc: map<string, real>, cs: seq<string>)
    requires Distinct(cs)
    ensures Distinct(ActiveIn(p, bal, alloc, cs))
  {
    if cs != [] {
      var init := cs[..|cs| - 1];
      ActiveInDistinct(p, bal, alloc, init);
      ActiveInMember(p, bal, alloc, init, cs[|cs| - 1]);
    }
  }

  /** Every active category has a positive weight, so a non-empty active set has a positive total. */
  lemma {:induction false} ActiveWeightPositive(p: Policy, bal: map<string, real>, alloc: map<string, real>, cs: seq<string>)
    ensures ActiveIn(p, bal, alloc, cs) != [] ==> WeightSum(p, ActiveIn(p, bal, alloc, cs)) > 0.0
    ensures WeightSum(p, ActiveIn(p, bal, alloc, cs)) >= 0.0
  {
    if cs != [] {
      var init := cs[..|cs| - 1];
      var a := ActiveIn(p, bal, alloc, init);
      ActiveWeightPositive(p, bal, alloc, init);
      if Active(p, bal, alloc, cs[|cs| - 1]) {
        assert (a + [cs[|cs| - 1]])[..|a|] == a;
      }
    }
  }

  /** What the distribution step relies on: the active set lists each active category of the breakdown once. */
  lemma ActiveSetFacts(p: Policy, bal: map<string, real>, alloc: map<string, real>)
    requires Distinct(p.cats) && alloc.Keys == set c | c in p.cats
    ensures var active := ActiveIn(p, bal, alloc, p.cats);
      && Distinct(active)
      && (forall c :: c in alloc ==> (c in active <==> Active(p, bal, alloc, c)))
      && (forall i :: 0 <= i < |active| ==> active[i] in alloc)
  {
    var active := ActiveIn(p, bal, alloc, p.cats);
    ActiveInDistinct(p, bal, alloc, p.cats);
    forall c | c in alloc
      ensures c in active <==> Active(p, bal, alloc, c)
    {
      ActiveInMember(p, bal, alloc, p.cats, c);
    }
    forall i | 0 <= i < |active|
      ensures active[i] in alloc
    {
      ActiveInMember(p, bal, alloc, p.cats, active[i]);
    }
  }

  // ---------------------------------------------------------------------------
  // One round

  /** An active category never receives a negative amount. */
  lemma AddNonnegative(p: Policy, bal: map<string, real>, alloc: map<string, real>, c: string, remaining: real, total: real)
    requires remaining >= 0.0 && total > 0.0
    requires Active(p, bal, alloc, c)
    ensures 0.0 <= Add(p, bal, alloc, c, remaining, total) <= Share(p, c, remaining, total)
  {
    var w := Get(p.weights, c);
    assert w / total > 0.0;
    assert remaining * (w / total) >= 0.0;
  }

  lemma {:induction false} SumSharesIs(p: Policy, cs: seq<string>, remaining: real, total: real)
    requires total != 0.0
    ensures SumShares(p, cs, remaining, total) == remaining * (WeightSum(p, cs) / total)
  {
    if cs != [] {
      var init := cs[..|cs| - 1];
      SumSharesIs(p, init, remaining, total);
      var w, ws := Get(p.weights, cs[|cs| - 1]), WeightSum(p, init);
      calc {
        remaining * (ws / total) + remaining * (w / total);
        remaining * (ws / total + w / total);
        { assert ws / total + w / total == (ws + w) / total; }
        remaining * ((ws + w) / total);
      }
    }
  }

  /** Within one round each active category gets between nothing and its share. */
  lemma {:induction false} SumAddsBounds(p: Policy, bal: map<string, real>, alloc: map<string, real>, cs: seq<string>, remaining: real, total: real)
    requires remaining >= 0.0 && total > 0.0
    requires forall i :: 0 <= i < |cs| ==> Active(p, bal, alloc, cs[i])
    ensures 0.0 <= SumAdds(p, bal, alloc, cs, remaining, total) <= SumShares(p, cs, remaining, total)
  {
    if cs != [] {
      var init := cs[..|cs| - 1];
      assert forall i :: 0 <= i < |init| ==> init[i] == cs[i];
      SumAddsBounds(p, bal, alloc, init, remaining, total);
      AddNonnegative(p, bal, alloc, cs[|cs| - 1], remaining, total);
    }
  }

  /** A round over uncapped categories gives every one of them its full share. */
  lemma {:induction false} SumAddsUncapped(p: Policy, bal: map<string, real>, alloc: map<string, real>, cs: seq<string>, remaining: real, total: real)
    requires total != 0.0
    requires forall i :: 0 <= i < |cs| ==> Get(p.limits, cs[i]) == 0.0
    ensures SumAdds(p, bal, alloc, cs, remaining, total) == SumShares(p, cs, remaining, total)
  {
    if cs != [] {
      var init := cs[..|cs| - 1];
      assert forall i :: 0 <= i < |init| ==> init[i] == cs[i];
      SumAddsUncapped(p, bal, alloc, init, remaining, total);
    }
  }

  /** Every category the active set lists is active. */
  lemma {:induction false} ActiveInAllActive(p: Policy, bal: map<string, real>, alloc: map<string, real>, cs: seq<string>)
    ensures forall i :: 0 <= i < |ActiveIn(p, bal, alloc, cs)| ==> Active(p, bal, alloc, ActiveIn(p, bal, alloc, cs)[i])
  {
    if cs != [] {
      ActiveInAllActive(p, bal, alloc, cs[..|cs| - 1]);
    }
  }

  lemma ScaleByOne(r: real, t: real)
    requires t != 0.0
    ensures r * (t / t) == r
  {
  }

  /** What a round gives out is at most what remains, so the remainder never goes negative. */
  lemma RoundGivesAtMostRemaining(p: Policy, bal: map<string, real>, alloc: map<string, real>, remaining: real)
    requires remaining >= 0.0
    requires ActiveIn(p, bal, alloc, p.cats) != []
    ensures WeightSum(p, ActiveIn(p, bal, alloc, p.cats)) > 0.0
    ensures 0.0 <= SumAdds(p, bal, alloc, ActiveIn(p, bal, alloc, p.cats), remaining, WeightSum(p, ActiveIn(p, bal, alloc, p.cats))) <= remaining
  {
    var active := ActiveIn(p, bal, alloc, p.cats);
    ActiveWeightPositive(p, bal, alloc, p.cats);
    var total := WeightSum(p, active);
    ActiveInAllActive(p, bal, alloc, p.cats);
    SumAddsBounds(p, bal, alloc, active, remaining, total);
    SumSharesIs(p, active, remaining, total);
    ScaleByOne(remaining, total);
  }

  /**
   * The allocations after a round, category by category: an active category
   * gains its `Add`, every other one keeps what it had.
   */
  predicate Credits(p: Policy, bal: map<string, real>, alloc: map<string, real>, next: map<string, real>,
                    remaining: real, total: real)
    requires total != 0.0
  {
    && next.Keys == alloc.Keys
    && forall c :: c in alloc ==>
         next[c] == if Active(p, bal, alloc, c) then alloc[c] + Add(p, bal, alloc, c, remaining, total) else alloc[c]
  }

  /**
   * Over categories listed once each, the in-order distribution credits every
   * listed category with its `Add` against the allocations the round started
   * from, leaves the others alone, and gives out `SumAdds` in total.
   */
  lemma {:induction false} DistributeAt(p: Policy, bal: map<string, real>, alloc: map<string, real>, cs: seq<string>,
                                        remaining: real, total: real)
    requires total != 0.0 && Distinct(cs)
    requires forall i :: 0 <= i < |cs| ==> cs[i] in alloc
    ensures var r := Distribute(p, bal, alloc, cs, remaining, total);
      && r.0.Keys == alloc.Keys
      && (forall c :: c in alloc ==> r.0[c] == if c in cs then alloc[c] + Add(p, bal, alloc, c, remaining, total) else alloc[c])
      && r.1 == SumAdds(p, bal, alloc, cs, remaining, total)
  {
    if cs != [] {
      var init := cs[..|cs| - 1];
      var c := cs[|cs| - 1];
      assert forall i :: 0 <= i < |init| ==> init[i] == cs[i];
      DistributeAt(p, bal, alloc, init, remaining, total);
      assert c !in init by {
        forall i | 0 <= i < |init| ensures init[i] != c {
          assert cs[i] != cs[|cs| - 1];
        }
      }
      AddSameCurrent(p, bal, Distribute(p, bal, alloc, init, remaining, total).0, alloc, c, remaining, total);
      assert cs == init + [c];
    }
  }

  /** `Add` looks at the allocations only through the category's own entry. */
  lemma AddSameCurrent(p: Policy, bal: map<string, real>, m: map<string, real>, alloc: map<string, real>, c: string,
                       remaining: real, total: real)
    requires total != 0.0 && Get(m, c) == Get(alloc, c)
    ensures Add(p, bal, m, c, remaining, total) == Add(p, bal, alloc, c, remaining, total)
  {
  }

  /**
   * What one step of the run does to the allocations: nothing when no
   * category is active; otherwise every active category gains its `Add`, and
   * the round is the last one exactly when it gave out less than `Epsilon`.
   */
  lemma RoundCredits(p: Policy, bal: map<string, real>, alloc: map<string, real>, remaining: real)
    requires Distinct(p.cats) && alloc.Keys == set c | c in p.cats
    ensures var active := ActiveIn(p, bal, alloc, p.cats);
      var o := Step(p, bal, alloc, remaining);
      && o.alloc.Keys == alloc.Keys
      && (active == [] ==> o.Last? && o.alloc == alloc)
      && (active != [] ==>
            var total := WeightSum(p, active);
            && total > 0.0
            && Credits(p, bal, alloc, o.alloc, remaining, total)
            && (o.Again? <==> SumAdds(p, bal, alloc, active, remaining, total) >= Epsilon)
            && (o.Again? ==> o.given == SumAdds(p, bal, alloc, active, remaining, total)))
  {
    if ActiveIn(p, bal, alloc, p.cats) != [] {
      RoundDistributes(p, bal, alloc, remaining);
    }
  }

  /** A round with active categories credits each of them its `Add` and gives out `SumAdds`. */
  lemma RoundDistributes(p: Policy, bal: map<string, real>, alloc: map<string, real>, remaining: real)
    requires Distinct(p.cats) && alloc.Keys == set c | c in p.cats
    requires ActiveIn(p, bal, alloc, p.cats) != []
    ensures var active := ActiveIn(p, bal, alloc, p.cats);
      var total := WeightSum(p, active);
      && total > 0.0
      && var r := Distribute(p, bal, alloc, active, remaining, total);
      && Credits(p, bal, alloc, r.0, remaining, total)
      && r.1 == SumAdds(p, bal, alloc, active, remaining, total)
  {
    var active := ActiveIn(p, bal, alloc, p.cats);
    ActiveWeightPositive(p, bal, alloc, p.cats);
    ActiveSetFacts(p, bal, alloc);
    DistributeAt(p, bal, alloc, active, remaining, WeightSum(p, active));
  }

  /** A round keeps the allocation bounds. */
  lemma CreditsSound(p: Policy, bal: map<string, real>, alloc: map<string, real>, next: map<string, real>, remaining: real, total: real)
    requires Sound(p, bal, alloc)
    requires remaining >= 0.0 && total > 0.0
    requires Credits(p, bal, alloc, next, remaining, total)
    ensures Sound(p, bal, next)
  {
    forall c | c in next
      ensures next[c] >= 0.0
      ensures Get(p.weights, c) <= 0.0 ==> next[c] == 0.0
      ensures Get(p.limits, c) > 0.0 && next[c] > 0.0 ==> Get(bal, c) + next[c] <= Get(p.limits, c)
    {
      if Active(p, bal, alloc, c) {
        AddNonnegative(p, bal, alloc, c, remaining, total);
      }
    }
  }

  /** The total over `cs` grows by exactly what the round gave out to the active ones among them. */
  lemma {:induction false} CreditsTotal(p: Policy, bal: map<string, real>, alloc: map<string, real>, next: map<string, real>,
                                     cs: seq<string>, remaining: real, total: real)
    requires total != 0.0
    requires Credits(p, bal, alloc, next, remaining, total)
    requires forall i :: 0 <= i < |cs| ==> cs[i] in alloc
    ensures SumOver(cs, next) == SumOver(cs, alloc) + SumAdds(p, bal, alloc, ActiveIn(p, bal, alloc, cs), remaining, total)
  {
    if cs != [] {
      var init := cs[..|cs| - 1];
      var c := cs[|cs| - 1];
      assert forall i :: 0 <= i < |init| ==> init[i] == cs[i];
      CreditsTotal(p, bal, alloc, next, init, remaining, total);
      var a := ActiveIn(p, bal, alloc, init);
      if Active(p, bal, alloc, c) {
        assert (a + [c])[..|a|] == a;
      }
    }
  }

  // ---------------------------------------------------------------------------
  // The whole run

  lemma {:induction false} RoundsKeys(p: Policy, bal: map<string, real>, alloc: map<string, real>, remaining: real)
    requires Distinct(p.cats) && alloc.Keys == set c | c in p.cats
    ensures Rounds(p, bal, alloc, remaining).Keys == alloc.Keys
    decreases (remaining * 100.0).Floor
  {
    if remaining > Epsilon {
      RoundCredits(p, bal, alloc, remaining);
      var o := Step(p, bal, alloc, remaining);
      if o.Again? {
        RoundsKeys(p, bal, o.alloc, remaining - o.given);
      }
    }
  }

  lemma AllocationKeys(p: Policy, bal: map<string, real>, income: real)
    requires Distinct(p.cats)
    ensures Allocation(p, bal, income).Keys == set c | c in p.cats
  {
    RoundsKeys(p, bal, Zeros(p.cats), income);
  }

  /** One round keeps the allocation bounds. */
  lemma StepSound(p: Policy, bal: map<string, real>, alloc: map<string, real>, remaining: real)
    requires Distinct(p.cats) && alloc.Keys == set c | c in p.cats
    requires Sound(p, bal, alloc) && remaining >= 0.0
    ensures Sound(p, bal, Step(p, bal, alloc, remaining).alloc)
  {
    RoundCredits(p, bal, alloc, remaining);
    var active := ActiveIn(p, bal, alloc, p.cats);
    if active != [] {
      CreditsSound(p, bal, alloc, Step(p, bal, alloc, remaining).alloc, remaining, WeightSum(p, active));
    }
  }

  lemma {:induction false} RoundsSound(p: Policy, bal: map<string, real>, alloc: map<string, real>, remaining: real)
    requires Distinct(p.cats) && alloc.Keys == set c | c in p.cats
    requires Sound(p, bal, alloc)
    ensures Sound(p, bal, Rounds(p, bal, alloc, remaining))
    decreases (remaining * 100.0).Floor
  {
    if remaining > Epsilon {
      StepSound(p, bal, alloc, remaining);
      RoundCredits(p, bal, alloc, remaining);
      var o := Step(p, bal, alloc, remaining);
      if o.Again? {
        RoundsSound(p, bal, o.alloc, remaining - o.given);
      }
    }
  }

  /** One round adds to the total exactly what it gave out, which is at most what remained. */
  lemma StepTotal(p: Policy, bal: map<string, real>, alloc: map<string, real>, remaining: real)
    requires Distinct(p.cats) && alloc.Keys == set c | c in p.cats
    requires remaining >= 0.0
    ensures var o := Step(p, bal, alloc, remaining);
      && SumOver(p.cats, alloc) <= SumOver(p.cats, o.alloc) <= SumOver(p.cats, alloc) + remaining
      && (o.Again? ==> SumOver(p.cats, o.alloc) == SumOver(p.cats, alloc) + o.given && o.given <= remaining)
  {
    RoundCredits(p, bal, alloc, remaining);
    var active := ActiveIn(p, bal, alloc, p.cats);
    if active != [] {
      RoundGivesAtMostRemaining(p, bal, alloc, remaining);
      CreditsTotal(p, bal, alloc, Step(p, bal, alloc, remaining).alloc, p.cats, remaining, WeightSum(p, active));
    }
  }

  lemma {:induction false} RoundsTotal(p: Policy, bal: map<string, real>, alloc: map<string, real>, remaining: real)
    requires Distinct(p.cats) && alloc.Keys == set c | c in p.cats
    requires remaining >= 0.0
    ensures SumOver(p.cats, alloc) <= SumOver(p.cats, Rounds(p, bal, alloc, remaining)) <= SumOver(p.cats, alloc) + remaining
    decreases (remaining * 100.0).Floor
  {
    if remaining > Epsilon {
      StepTotal(p, bal, alloc, remaining);
      RoundCredits(p, bal, alloc, remaining);
      var o := Step(p, bal, alloc, remaining);
      if o.Again? {
        RoundsTotal(p, bal, o.alloc, remaining - o.given);
      }
    }
  }

  /** The loop of allocate_income follows the run: a last round ends it, any other hands the rest on. */
  lemma RoundsOn(p: Policy, bal: map<string, real>, alloc: map<string, real>, remaining: real, o: Outcome, goal: map<string, real>)
    requires remaining > Epsilon && o == Step(p, bal, alloc, remaining)
    requires Rounds(p, bal, alloc, remaining) == goal
    ensures o.Last? ==> o.alloc == goal
    ensures o.Again? ==> Rounds(p, bal, o.alloc, remaining - o.given) == goal
  {
  }

  /** The loop's exit: with at most `Epsilon` left, the run has ended. */
  lemma RoundsDone(p: Policy, bal: map<string, real>, alloc: map<string, real>, remaining: real, goal: map<string, real>)
    requires remaining <= Epsilon
    requires Rounds(p, bal, alloc, remaining) == goal
    ensures alloc == goal
  {
  }

  lemma {:induction false} TotalZeros(cs: seq<string>, cats: seq<string>)
    ensures SumOver(cs, Zeros(cats)) == 0.0
  {
    if cs != [] {
      TotalZeros(cs[..|cs| - 1], cats);
    }
  }

  /**
   * What allocate_income promises: one entry per configured category, none
   * negative, nothing for a category whose weight is not positive, no capped
   * category pushed past its cap (one that started at or below it ends at or
   * below it), and never more handed out than the income. An income of at
   * most `Epsilon` hands out nothing.
   */
  lemma AllocationBounds(p: Policy, bal: map<string, real>, income: real)
    requires Distinct(p.cats)
    ensures var r := Allocation(p, bal, income);
      && r.Keys == set c | c in p.cats
      && (forall c :: c in r ==> r[c] >= 0.0)
      && (forall c :: c in r && Get(p.weights, c) <= 0.0 ==> r[c] == 0.0)
      && (forall c :: c in r && Get(p.limits, c) > 0.0 && r[c] > 0.0 ==> Get(bal, c) + r[c] <= Get(p.limits, c))
      && (forall c :: c in r && 0.0 < Get(p.limits, c) && Get(bal, c) <= Get(p.limits, c) ==> Get(bal, c) + r[c] <= Get(p.limits, c))
      && 0.0 <= SumOver(p.cats, r)
      && (income >= 0.0 ==> SumOver(p.cats, r) <= income)
      && (income <= Epsilon ==> r == Zeros(p.cats))
  {
    var z := Zeros(p.cats);
    AllocationKeys(p, bal, income);
    RoundsSound(p, bal, z, income);
    TotalZeros(p.cats, p.cats);
    if income >= 0.0 {
      RoundsTotal(p, bal, z, income);
    } else {
      assert Allocation(p, bal, income) == z;
    }
  }

  /**
   * When every category that has a positive weight is uncapped, a single round
   * places the whole income (above `Epsilon`): the allocations add up to it exactly.
   */
  lemma AllocationExactWhenUncapped(p: Policy, bal: map<string, real>, income: real)
    requires Distinct(p.cats)
    requires income > Epsilon
    requires exists i :: 0 <= i < |p.cats| && Get(p.weights, p.cats[i]) > 0.0
    requires forall i :: 0 <= i < |p.cats| && Get(p.weights, p.cats[i]) > 0.0 ==> Get(p.limits, p.cats[i]) == 0.0
    ensures SumOver(p.cats, Allocation(p, bal, income)) == income
  {
    var z := Zeros(p.cats);
    var active := ActiveIn(p, bal, z, p.cats);
    var k :| 0 <= k < |p.cats| && Get(p.weights, p.cats[k]) > 0.0;
    ActiveInMember(p, bal, z, p.cats, p.cats[k]);
    UncappedRoundGivesAll(p, bal, z, income);
    RoundCredits(p, bal, z, income);
    var o := Step(p, bal, z, income);
    assert o.Again? && o.given == income;
    assert After(p, bal, o, income) == Rounds(p, bal, o.alloc, 0.0) == o.alloc;
    assert Allocation(p, bal, income) == o.alloc;
    CreditsTotal(p, bal, z, o.alloc, p.cats, income, WeightSum(p, active));
    TotalZeros(p.cats, p.cats);
  }

  /**
   * When no capped category reaches its cap in the first round (each share
   * fits in the space left below the cap), the income (above `Epsilon`) is
   * placed in full in that round: the allocations add up to it exactly.
   */
  lemma AllocationExactWhenRoomLeft(p: Policy, bal: map<string, real>, income: real)
    requires Distinct(p.cats)
    requires income > Epsilon
    requires ActiveIn(p, bal, Zeros(p.cats), p.cats) != []
    requires var active := ActiveIn(p, bal, Zeros(p.cats), p.cats);
      var total := WeightSum(p, active);
      total != 0.0 &&
      forall i :: 0 <= i < |active| && Get(p.limits, active[i]) > 0.0 ==>
        Share(p, active[i], income, total) <= Get(p.limits, active[i]) - Get(bal, active[i])
    ensures SumOver(p.cats, Allocation(p, bal, income)) == income
  {
    var z := Zeros(p.cats);
    var active := ActiveIn(p, bal, z, p.cats);
    var total := WeightSum(p, active);
    ActiveWeightPositive(p, bal, z, p.cats);
    forall i | 0 <= i < |active| ensures Add(p, bal, z, active[i], income, total) == Share(p, active[i], income, total) {
      assert Get(z, active[i]) == 0.0;
    }
    SumAddsEqShares(p, bal, z, active, income, total);
    SumSharesIs(p, active, income, total);
    ScaleByOne(income, total);
    RoundCredits(p, bal, z, income);
    var o := Step(p, bal, z, income);
    assert o.Again? && o.given == income;
    assert After(p, bal, o, income) == Rounds(p, bal, o.alloc, 0.0) == o.alloc;
    assert Allocation(p, bal, income) == o.alloc;
    CreditsTotal(p, bal, z, o.alloc, p.cats, income, total);
    TotalZeros(p.cats, p.cats);
  }

  /** Where every category of `cs` takes its whole share, the round gives out the sum of the shares. */
  lemma {:induction false} SumAddsEqShares(p: Policy, bal: map<string, real>, alloc: map<string, real>, cs: seq<string>, remaining: real, total: real)
    requires total != 0.0
    requires forall i :: 0 <= i < |cs| ==> Add(p, bal, alloc, cs[i], remaining, total) == Share(p, cs[i], remaining, total)
    ensures SumAdds(p, bal, alloc, cs, remaining, total) == SumShares(p, cs, remaining, total)
  {
    if cs != [] {
      var init := cs[..|cs| - 1];
      assert forall i :: 0 <= i < |init| ==> init[i] == cs[i];
      SumAddsEqShares(p, bal, alloc, init, remaining, total);
    }
  }

  /** A round in which every active category is uncapped gives out all that remains. */
  lemma UncappedRoundGivesAll(p: Policy, bal: map<string, real>, alloc: map<string, real>, remaining: real)
    requires ActiveIn(p, bal, alloc, p.cats) != []
    requires forall i :: 0 <= i < |p.cats| && Get(p.weights, p.cats[i]) > 0.0 ==> Get(p.limits, p.cats[i]) == 0.0
    ensures WeightSum(p, ActiveIn(p, bal, alloc, p.cats)) > 0.0
    ensures SumAdds(p, bal, alloc, ActiveIn(p, bal, alloc, p.cats), remaining, WeightSum(p, ActiveIn(p, bal, alloc, p.cats))) == remaining
  {
    var active := ActiveIn(p, bal, alloc, p.cats);
    ActiveWeightPositive(p, bal, alloc, p.cats);
    var total := WeightSum(p, active);
    forall i | 0 <= i < |active| ensures Get(p.limits, active[i]) == 0.0 {
      ActiveInMember(p, bal, alloc, p.cats, active[i]);
    }
    SumAddsUncapped(p, bal, alloc, active, remaining, total);
    SumSharesIs(p, active, remaining, total);
    ScaleByOne(remaining, total);
  }


  // ---------------------------------------------------------------------------
  // Worked examples

  /**
   * Overflow: A (weight 0.5, cap 100, balance 90) and B (weight 0.5, uncapped,
   * balance 0) sharing an income of 100. A fills to its cap with 10 and the 40
   * it could not take flows on to B, which ends with 90 rather than 50.
   */
  lemma OverflowExample()
    ensures Allocation(OverflowPolicy(), map["A" := 90.0, "B" := 0.0], 100.0) == map["A" := 10.0, "B" := 90.0]
  {
    OverflowFirstRound();
    OverflowSecondRound();
  }

  function OverflowPolicy(): Policy
  {
    Policy(["A", "B"], map["A" := 0.5, "B" := 0.5], map["A" := 100.0, "B" := 0.0])
  }

  /** First round: both active, shares of 50 each; A is clipped to its space of 10. */
  lemma OverflowFirstRound()
    ensures Allocation(OverflowPolicy(), map["A" := 90.0, "B" := 0.0], 100.0)
         == Rounds(OverflowPolicy(), map["A" := 90.0, "B" := 0.0], map["A" := 10.0, "B" := 50.0], 40.0)
  {
    var p := OverflowPolicy();
    var bal := map["A" := 90.0, "B" := 0.0];
    var z := Zeros(p.cats);
    OverflowFirstActive();
    OverflowFirstDistribute();
    assert Step(p, bal, z, 100.0) == Again(map["A" := 10.0, "B" := 50.0], 60.0);
  }

  lemma OverflowFirstActive()
    ensures var p := OverflowPolicy();
            ActiveIn(p, map["A" := 90.0, "B" := 0.0], Zeros(p.cats), p.cats) == ["A", "B"]
  {
    var p := OverflowPolicy();
    var bal := map["A" := 90.0, "B" := 0.0];
    var z := Zeros(p.cats);
    assert z == map["A" := 0.0, "B" := 0.0];
    assert ["A", "B"][..1] == ["A"];
    assert Active(p, bal, z, "A") && Active(p, bal, z, "B");
    assert ActiveIn(p, bal, z, ["A"]) == ["A"];
  }

  lemma OverflowFirstDistribute()
    ensures var p := OverflowPolicy();
            && WeightSum(p, ["A", "B"]) == 1.0
            && Distribute(p, map["A" := 90.0, "B" := 0.0], Zeros(p.cats), ["A", "B"], 100.0, 1.0)
               == (map["A" := 10.0, "B" := 50.0], 60.0)
  {
    var p := OverflowPolicy();
    var bal := map["A" := 90.0, "B" := 0.0];
    var z := Zeros(p.cats);
    assert z == map["A" := 0.0, "B" := 0.0];
    assert ["A", "B"][..1] == ["A"];
    assert WeightSum(p, ["A"]) == 0.5;
    assert Add(p, bal, z, "A", 100.0, 1.0) == 10.0;
    var m := z["A" := 10.0];
    assert Distribute(p, bal, z, ["A"], 100.0, 1.0) == (m, 10.0);
    assert Add(p, bal, m, "B", 100.0, 1.0) == 50.0;
    assert m["B" := 50.0] == map["A" := 10.0, "B" := 50.0];
  }

  /** Second round: A sits at its cap and drops out; B takes all of the remaining 40. */
  lemma OverflowSecondRound()
    ensures Rounds(OverflowPolicy(), map["A" := 90.0, "B" := 0.0], map["A" := 10.0, "B" := 50.0], 40.0)
         == map["A" := 10.0, "B" := 90.0]
  {
    var p := OverflowPolicy();
    var bal := map["A" := 90.0, "B" := 0.0];
    var first := map["A" := 10.0, "B" := 50.0];
    var next := map["A" := 10.0, "B" := 90.0];
    assert ["A", "B"][..1] == ["A"];
    assert ActiveIn(p, bal, first, ["A"]) == [];
    assert ActiveIn(p, bal, first, p.cats) == ["B"];
    assert WeightSum(p, ["B"]) == 0.5;
    assert Add(p, bal, first, "B", 40.0, 0.5) == 40.0;
    assert ["B"][..0] == [];
    assert first["B" := 90.0] == next;
    assert Distribute(p, bal, first, ["B"], 40.0, 0.5) == (next, 40.0);
    assert Step(p, bal, first, 40.0) == Again(next, 40.0);
    assert Rounds(p, bal, next, 0.0) == next;
  }

  function StallPolicy(): Policy
  {
    Policy(["A", "B"], map["A" := 0.001, "B" := 1.0], map["A" := 0.0, "B" := 100.0])
  }

  /**
   * The stall guard stops on exact amounts too: with an uncapped category of
   * tiny weight next to one that is 0.001 below its cap, the first round gives
   * out less than `Epsilon` and the run ends with most of the income unplaced.
   */
  lemma StallGuardExample()
    ensures var r := Allocation(StallPolicy(), map["B" := 99.999], 1.0);
            SumOver(StallPolicy().cats, r) < Epsilon
  {
    var p := StallPolicy();
    var bal := map["B" := 99.999];
    var z := Zeros(p.cats);
    var first := map["A" := 1.0 / 1001.0, "B" := 0.001];
    StallGuardRound();
    assert Allocation(p, bal, 1.0) == first;
    assert ["A", "B"][..1] == ["A"];
    assert SumOver(p.cats, first) == 1.0 / 1001.0 + 0.001;
  }

  /** The one round of the stall example: 1/1001 to A, 0.001 to B, less than `Epsilon` in all. */
  lemma StallGuardRound()
    ensures Step(StallPolicy(), map["B" := 99.999], Zeros(StallPolicy().cats), 1.0)
         == Last(map["A" := 1.0 / 1001.0, "B" := 0.001])
  {
    var p := StallPolicy();
    var bal := map["B" := 99.999];
    var z := Zeros(p.cats);
    assert z == map["A" := 0.0, "B" := 0.0];
    assert ["A", "B"][..1] == ["A"];
    assert ActiveIn(p, bal, z, ["A"]) == ["A"];
    assert ActiveIn(p, bal, z, p.cats) == ["A", "B"];
    assert WeightSum(p, ["A", "B"]) == 1.001;
    assert Add(p, bal, z, "A", 1.0, 1.001) == 1.0 / 1001.0;
    var m := z["A" := 1.0 / 1001.0];
    assert Distribute(p, bal, z, ["A"], 1.0, 1.001) == (m, 1.0 / 1001.0);
    assert Add(p, bal, m, "B", 1.0, 1.001) == 0.001;
    assert m["B" := 0.001] == map["A" := 1.0 / 1001.0, "B" := 0.001];
  }
}
