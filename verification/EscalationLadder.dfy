/** The real ladder: where it leads, and that it ends. */
module EscalationLadder {
  import opened Common
  import opened Escalation
  import opened EscalationLaws

  // ---- one decision ----

  predicate NoneAbove(steps: seq<Rung>, n: nat, level: int)
    requires n <= |steps|
  {
    forall j :: 0 <= j < n ==> steps[j].level <= level
  }

  lemma {:induction false} FirstAboveMeaning(steps: seq<Rung>, level: int) returns (i: nat)
    ensures i <= |steps| && NoneAbove(steps, i, level) && (i < |steps| ==> steps[i].level > level)
    ensures FirstAbove(steps, level) == if i < |steps| then Some(steps[i]) else None
  {
    i := 0;
    if steps != [] && steps[0].level <= level {
      var k := FirstAboveMeaning(steps[1..], level);
      i := k + 1;
    }
  }

  /** The next page is the first step above the current level, in the same round; above
      the last step it wraps to the first one and the next round while rounds are left;
      otherwise the policy is exhausted. */
  lemma NextStepMeaning(policy: Policy, level: int, round: int)
    ensures forall i :: 0 <= i < |policy.steps| && policy.steps[i].level > level && NoneAbove(policy.steps, i, level)
                        ==> NextStep(policy, level, round)
                            == Page(policy.steps[i].level, round, policy.steps[i].delaySecs)
    ensures policy.steps != [] && NoneAbove(policy.steps, |policy.steps|, level) && round < policy.repeatCount
            ==> NextStep(policy, level, round)
                == Page(policy.steps[0].level, round + 1, policy.steps[0].delaySecs)
    ensures NextStep(policy, level, round) == Exhausted
       <==> policy.steps == [] || (NoneAbove(policy.steps, |policy.steps|, level) && round >= policy.repeatCount)
  {
    var k := FirstAboveMeaning(policy.steps, level);
    forall i | 0 <= i < |policy.steps| && policy.steps[i].level > level && NoneAbove(policy.steps, i, level)
      ensures i == k
    {
    }
  }

  // ---- the real ladder ends ----

  function Above(steps: seq<Rung>, level: int): nat {
    if steps == [] then 0 else Above(steps[1..], level) + (if steps[0].level > level then 1 else 0)
  }

  lemma {:induction false} AboveBounds(steps: seq<Rung>, level: int)
    ensures Above(steps, level) <= |steps|
    ensures steps != [] && level >= steps[0].level ==> Above(steps, level) < |steps|
  {
    if steps != [] {
      AboveBounds(steps[1..], level);
    }
  }

  lemma {:induction false} AboveShrinks(steps: seq<Rung>, level: int, higher: int)
    requires level <= higher
    ensures Above(steps, higher) <= Above(steps, level)
    ensures FirstAbove(steps, level).Some? && FirstAbove(steps, level).value.level <= higher
            ==> Above(steps, higher) < Above(steps, level)
    ensures FirstAbove(steps, level).Some? ==>
              HasLevel(steps, FirstAbove(steps, level).value.level) && FirstAbove(steps, level).value.level > level
  {
    if steps != [] {
      AboveShrinks(steps[1..], level, higher);
      assert steps[0] in steps && forall s :: s in steps[1..] ==> s in steps;
      if FirstAbove(steps[1..], level).Some? {
        assert HasLevel(steps[1..], FirstAbove(steps[1..], level).value.level);
      }
    }
  }

  // Pages a policy can still produce from a position on its ladder.
  function Remaining(policy: Policy, level: int, round: int): nat {
    Above(policy.steps, level) + |policy.steps| * Max0(policy.repeatCount - round)
  }

  lemma NextStepDescends(policy: Policy, level: int, round: int)
    requires NextStep(policy, level, round).Page?
    ensures var d := NextStep(policy, level, round);
            Remaining(policy, d.level, d.round) < Remaining(policy, level, round) && HasLevel(policy.steps, d.level)
  {
    var d := NextStep(policy, level, round);
    if FirstAbove(policy.steps, level).Some? {
      AboveShrinks(policy.steps, level, level);
      AboveShrinks(policy.steps, level, d.level);
    } else {
      AboveBounds(policy.steps, d.level);
      assert policy.steps[0] in policy.steps;
      var n, left := |policy.steps|, policy.repeatCount - round;
      assert n * left == n * (left - 1) + n;
    }
  }

  function Budget(policy: Policy): nat { |policy.steps| * (1 + Max0(policy.repeatCount)) }

  // The policy, if any, with which an incident was opened; none before that.
  function OpenedWith(es: seq<Event>, id: nat): Option<Option<nat>> {
    if es == [] then None
    else var before, e := OpenedWith(es[..|es| - 1], id), es[|es| - 1];
         if before.None? && e.Open? && e.id == id then Some(e.policy) else before
  }

  function Allowance(origin: Option<Option<nat>>, policies: map<nat, Policy>): nat {
    if origin.Some? && origin.value.Some? && origin.value.value in policies
    then Budget(policies[origin.value.value]) else 0
  }

  function Outlook(s: Engine, policies: map<nat, Policy>, id: nat): nat {
    var held := Held(s, id);
    if held.Some? && held.value.policy in policies
    then Remaining(policies[held.value.policy], held.value.level, held.value.round) else 0
  }

  ghost predicate WithinBudget(s: Engine, origin: Option<Option<nat>>, policies: map<nat, Policy>, id: nat) {
    && Coherent(s, id) && (id in s.ended <==> origin.Some?)
    && (Held(s, id).Some? ==> origin == Some(Some(Held(s, id).value.policy)))
    && |PagesFor(s.log, id)| + Outlook(s, policies, id) <= Allowance(origin, policies)
  }

  lemma StartBudget(policy: Policy)
    ensures Remaining(policy, 0, 0) <= Budget(policy)
  {
    AboveBounds(policy.steps, 0);
    var n, m := |policy.steps|, Max0(policy.repeatCount);
    assert n * (1 + m) == n + n * m;
  }

  lemma PageWithinBudget(s: Engine, e: Event, origin: Option<Option<nat>>, policies: map<nat, Policy>, id: nat)
    requires WithinBudget(s, origin, policies, id) && Pages(s, e, id, policies, NextStep)
    ensures WithinBudget(Step(s, e, policies, NextStep), origin, policies, id)
  {
    StepPages(s, e, policies, NextStep, id);
    StepKeepsCoherent(s, e, policies, NextStep, id);
    assert Step(s, e, policies, NextStep).ended == s.ended;
    hide PagesFor, Remaining, NextStep, Step;
    NextStepDescends(policies[s.batch[id].policy], s.batch[id].level, s.batch[id].round);
  }

  lemma StepOpening(s: Engine, e: Event, policies: map<nat, Policy>, ladder: Ladder, id: nat)
    requires Coherent(s, id)
    ensures var t := Step(s, e, policies, ladder);
            && (id in t.ended <==> id in s.ended || (e.Open? && e.id == id))
            && (id !in s.ended && Held(t, id).Some? ==>
                  && e.Open? && e.id == id && e.policy == Some(Held(t, id).value.policy)
                  && Held(t, id).value.level == 0 && Held(t, id).value.round == 0
                  && Held(t, id).value.lastPagedAt == e.now && !Held(t, id).value.acked
                  && Held(t, id).value.nextCheckAt == e.now + FirstDelay(policies, e.policy.value))
  {
  }

  lemma StepKeepsBudget(s: Engine, e: Event, origin: Option<Option<nat>>, policies: map<nat, Policy>, id: nat)
    requires WithinBudget(s, origin, policies, id)
    ensures WithinBudget(Step(s, e, policies, NextStep),
                         if origin.None? && e.Open? && e.id == id then Some(e.policy) else origin, policies, id)
  {
    hide Step, PagesFor, Remaining, Budget, NextStep;
    StepOpening(s, e, policies, NextStep, id);
    if Pages(s, e, id, policies, NextStep) {
      PageWithinBudget(s, e, origin, policies, id);
    } else {
      StepPages(s, e, policies, NextStep, id);
      StepSchedule(s, e, policies, NextStep, id);
      StepKeepsCoherent(s, e, policies, NextStep, id);
      if e.Open? && e.policy.Some? && e.policy.value in policies {
        StartBudget(policies[e.policy.value]);
      }
    }
  }

  lemma {:induction false} BudgetIsKept(es: seq<Event>, policies: map<nat, Policy>, id: nat)
    ensures WithinBudget(After(es, policies, NextStep), OpenedWith(es, id), policies, id)
  {
    if es != [] {
      hide Step, WithinBudget;
      var pre := es[..|es| - 1];
      BudgetIsKept(pre, policies, id);
      StepKeepsBudget(After(pre, policies, NextStep), es[|es| - 1], OpenedWith(pre, id), policies, id);
    }
  }

  /** Paging ends: an incident is paged at most once per rung and round of the policy
      it was opened with, whatever the levels and delays in it, and never if it was
      opened without one. */
  lemma PagesAreBounded(es: seq<Event>, policies: map<nat, Policy>, id: nat)
    ensures |PagesFor(After(es, policies, NextStep).log, id)| <= Allowance(OpenedWith(es, id), policies)
  {
    BudgetIsKept(es, policies, id);
  }

  // ---- the order of pages ----

  predicate Ascending(steps: seq<Rung>) {
    && steps != [] && steps[0].level > 0
    && forall i, j :: 0 <= i < j < |steps| ==> steps[i].level < steps[j].level
  }

  // The k-th page of an incident, counted from zero, is the k-th rung met when the
  // ladder is climbed again and again.
  predicate IsRung(p: PageSent, steps: seq<Rung>, k: nat)
    requires steps != []
  {
    p.level == steps[k % |steps|].level && p.round == k / |steps| && p.delaySecs == steps[k % |steps|].delaySecs
  }

  lemma NextRung(m: nat, n: nat)
    requires m > 0 && n > 0
    ensures if (m - 1) % n < n - 1 then m % n == (m - 1) % n + 1 && m / n == (m - 1) / n
            else m % n == 0 && m / n == (m - 1) / n + 1
  {
    var q, r := (m - 1) / n, (m - 1) % n;
    assert m == q * n + (r + 1);
    if r < n - 1 {
      Quotient(m, n, q, r + 1);
    } else {
      assert m == (q + 1) * n + 0;
      Quotient(m, n, q + 1, 0);
    }
  }

  lemma Quotient(m: nat, n: nat, q: nat, r: nat)
    requires n > 0 && r < n && m == q * n + r
    ensures m / n == q && m % n == r
  {
    var q', r' := m / n, m % n;
    assert m == q' * n + r';
    Difference(q, q', n);
    NoMultiple(q - q', n, r' - r);
  }

  lemma Difference(a: int, b: int, n: int)
    ensures (a - b) * n == a * n - b * n
  {
  }

  lemma NoMultiple(d: int, n: nat, x: int)
    requires d * n == x && 0 < x + n && x < n
    ensures d == 0
  {
    if d >= 1 {
      Difference(d, 1, n);
      Product(d - 1, n);
    } else if d <= -1 {
      Difference(d, -1, n);
      Product(-1 - d, n);
      Difference(-1, d, n);
    }
  }

  lemma Product(a: nat, n: nat)
    ensures a * n >= 0
  {
  }

  // Where the incident stands after m pages.
  predicate StandsAt(st: State, steps: seq<Rung>, m: nat)
    requires steps != []
  {
    if m == 0 then st.level == 0 && st.round == 0
    else st.level == steps[(m - 1) % |steps|].level && st.round == (m - 1) / |steps|
  }

  // From there the ladder leads to the m-th rung.
  lemma ClimbOn(policy: Policy, st: State, m: nat)
    requires Ascending(policy.steps) && StandsAt(st, policy.steps, m)
    requires NextStep(policy, st.level, st.round).Page?
    ensures var d, n := NextStep(policy, st.level, st.round), |policy.steps|;
            d == Page(policy.steps[m % n].level, m / n, policy.steps[m % n].delaySecs)
  {
    hide NextStep;
    var steps, n := policy.steps, |policy.steps|;
    NextStepMeaning(policy, st.level, st.round);
    if m == 0 {
      Quotient(0, n, 0, 0);
      assert NoneAbove(steps, 0, 0);
    } else {
      NextRung(m, n);
      var j := (m - 1) % n;
      if j < n - 1 {
        assert NoneAbove(steps, j + 1, st.level);
      } else {
        assert NoneAbove(steps, n, st.level);
      }
    }
  }

  ghost predicate OnLadder(s: Engine, id: nat, steps: seq<Rung>)
    requires steps != []
  {
    var pages := PagesFor(s.log, id);
    && (forall k :: 0 <= k < |pages| ==> IsRung(pages[k], steps, k))
    && (Held(s, id).Some? ==> StandsAt(Held(s, id).value, steps, |pages|))
  }

  lemma StepKeepsLadder(s: Engine, e: Event, origin: Option<Option<nat>>, p: nat, policies: map<nat, Policy>, id: nat)
    requires WithinBudget(s, origin, policies, id) && p in policies && Ascending(policies[p].steps)
    requires origin.None? || origin == Some(Some(p))
    requires OnLadder(s, id, policies[p].steps)
    ensures OnLadder(Step(s, e, policies, NextStep), id, policies[p].steps)
  {
    hide Step, PagesFor, NextStep, IsRung, Ascending;
    StepPages(s, e, policies, NextStep, id);
    var steps, m := policies[p].steps, |PagesFor(s.log, id)|;
    if Pages(s, e, id, policies, NextStep) {
      ClimbOn(policies[p], s.batch[id], m);
      PageIsRung(id, e.at, DecisionFor(s, id, policies, NextStep), steps, m);
    } else {
      StepSchedule(s, e, policies, NextStep, id);
      StepOpening(s, e, policies, NextStep, id);
    }
  }

  lemma PageIsRung(id: nat, at: int, d: Decision, steps: seq<Rung>, m: nat)
    requires steps != [] && d == Page(steps[m % |steps|].level, m / |steps|, steps[m % |steps|].delaySecs)
    ensures IsRung(PageSent(id, at, d.level, d.round, d.delaySecs), steps, m)
  {
  }

  /** The pages of an incident climb the ladder of the policy it was opened with, rung by
      rung and round by round, whatever happens in between. */
  lemma {:induction false} PagesClimbTheLadder(es: seq<Event>, p: nat, policies: map<nat, Policy>, id: nat)
    requires p in policies && Ascending(policies[p].steps)
    requires OpenedWith(es, id).None? || OpenedWith(es, id) == Some(Some(p))
    ensures OnLadder(After(es, policies, NextStep), id, policies[p].steps)
  {
    if es != [] {
      hide Step, OnLadder, WithinBudget, Ascending;
      var pre := es[..|es| - 1];
      PagesClimbTheLadder(pre, p, policies, id);
      BudgetIsKept(pre, policies, id);
      StepKeepsLadder(After(pre, policies, NextStep), es[|es| - 1], OpenedWith(pre, id), p, policies, id);
    }
  }

  // ---- the first page ----

  // The moment before which an incident is not paged: its opening plus the delay of the
  // first step, if that is positive.
  function FirstDue(es: seq<Event>, policies: map<nat, Policy>, id: nat): Option<int> {
    if es == [] then None
    else var before, e := FirstDue(es[..|es| - 1], policies, id), es[|es| - 1];
         if before.None? && e.Open? && e.id == id then Some(e.now + OpeningDelay(e.policy, policies)) else before
  }

  function OpeningDelay(policy: Option<nat>, policies: map<nat, Policy>): nat {
    if policy.Some? && policy.value in policies && policies[policy.value].steps != []
       && policies[policy.value].steps[0].delaySecs > 0
    then policies[policy.value].steps[0].delaySecs else 0
  }

  ghost predicate Waits(s: Engine, id: nat, first: Option<int>) {
    var pages := PagesFor(s.log, id);
    && Coherent(s, id) && (id in s.ended <==> first.Some?)
    && (pages == [] && Held(s, id).Some? && first.Some? ==> Held(s, id).value.nextCheckAt == first.value)
    && (pages != [] ==> first.Some? && pages[0].at >= first.value)
  }

  lemma StepKeepsWaiting(s: Engine, e: Event, first: Option<int>, policies: map<nat, Policy>, ladder: Ladder, id: nat)
    requires Waits(s, id, first) && (Pages(s, e, id, policies, ladder) ==> s.batchAt <= e.at)
    ensures Waits(Step(s, e, policies, ladder), id,
                  if first.None? && e.Open? && e.id == id
                  then Some(e.now + OpeningDelay(e.policy, policies)) else first)
  {
    hide Step, PagesFor;
    StepPages(s, e, policies, ladder, id);
    StepOpening(s, e, policies, ladder, id);
    StepKeepsCoherent(s, e, policies, ladder, id);
    if !Pages(s, e, id, policies, ladder) {
      StepSchedule(s, e, policies, ladder, id);
    }
  }

  /** No page goes out before the opening time plus the first step's delay. */
  lemma {:induction false} FirstPageWaits(es: seq<Event>, policies: map<nat, Policy>, ladder: Ladder, id: nat)
    requires ClockOrdered(es)
    ensures Waits(After(es, policies, ladder), id, FirstDue(es, policies, id))
  {
    if es != [] {
      hide Step, Waits;
      var pre, e := es[..|es| - 1], es[|es| - 1];
      FirstPageWaits(pre, policies, ladder, id);
      ListedBeforeWrite(es, policies, ladder, id);
      StepKeepsWaiting(After(pre, policies, ladder), e, FirstDue(pre, policies, id), policies, ladder, id);
    }
  }
}
