/** The escalation engine: who gets paged, when, and what stops it. */
module Escalation {
  import opened Common

  datatype Rung = Rung(level: int, delaySecs: int)

  datatype Policy = Policy(steps: seq<Rung>, repeatCount: int)

  datatype Decision = Page(level: int, round: int, delaySecs: int) | Exhausted

  // Times count seconds.
  datatype State = State(policy: nat, level: int, round: int, lastPagedAt: int, nextCheckAt: int, acked: bool)

  datatype PageSent = PageSent(incident: nat, at: int, level: int, round: int, delaySecs: int)

  // `ended` holds for each known incident whether it is resolved; `log` lists the pages
  // sent, oldest first. The engine's sweep listed `batch` at `batchAt` and has not dealt
  // with it yet; `turn` is the incident it has looked up and is about to page.
  datatype Engine = Engine(
    ended: map<nat, bool>,
    states: map<nat, State>,
    log: seq<PageSent>,
    batch: map<nat, State>,
    batchAt: int,
    turn: Option<nat>)

  type Ladder = (Policy, int, int) -> Decision

  // ---- the ladder ----

  function FirstAbove(steps: seq<Rung>, level: int): Option<Rung> {
    if steps == [] then None
    else if steps[0].level > level then Some(steps[0])
    else FirstAbove(steps[1..], level)
  }

  function NextStep(policy: Policy, level: int, round: int): Decision {
    if policy.steps == [] then Exhausted
    else var next := FirstAbove(policy.steps, level);
         if next.Some? then Page(next.value.level, round, next.value.delaySecs)
         else if round < policy.repeatCount
         then Page(policy.steps[0].level, round + 1, policy.steps[0].delaySecs)
         else Exhausted
  }

  predicate HasLevel(steps: seq<Rung>, level: int) { exists s :: s in steps && s.level == level }

  function Max0(x: int): nat { if x > 0 then x else 0 }

  // ---- the engine ----

  predicate Due(s: Engine, id: nat, now: int) {
    id in s.states && !s.states[id].acked && s.states[id].nextCheckAt <= now
  }

  function Paged(s: Engine, id: nat, st: State, d: Decision, at: int): Engine
    requires d.Page?
  {
    s.(states := s.states[id := st.(level := d.level, round := d.round, lastPagedAt := at,
                                    nextCheckAt := at + Max0(d.delaySecs))],
       log := s.log + [PageSent(id, at, d.level, d.round, d.delaySecs)])
  }

  function Dropped(s: Engine, id: nat): Engine { s.(states := s.states - {id}) }

  function Listed(s: Engine, now: int): Engine {
    s.(batch := map id | id in s.states && Due(s, id, now) :: s.states[id], batchAt := now)
  }

  // A turn that ends without a page.
  function Passed(s: Engine, id: nat): Engine { s.(batch := s.batch - {id}, turn := None) }

  // The incident of a listed state is read: a missing or resolved one ends the turn.
  function Looked(s: Engine, id: nat): Engine {
    if id !in s.ended || s.ended[id] then Passed(Dropped(s, id), id) else s.(turn := Some(id))
  }

  // The rest of the turn: decide with the state as it was listed, page, and write the
  // state back at clock `at`.
  function Written(s: Engine, id: nat, at: int, policies: map<nat, Policy>, ladder: Ladder): Engine
    requires id in s.batch
  {
    var st, t := s.batch[id], Passed(s, id);
    if st.policy !in policies then t  // the policy cannot be read; try again next time
    else var policy := policies[st.policy];
         var d := ladder(policy, st.level, st.round);
         if d.Exhausted? then Dropped(t, id)
         else if !HasLevel(policy.steps, d.level) then Dropped(t, id)
         else Paged(t, id, st, d, at)
  }

  function FirstDelay(policies: map<nat, Policy>, policy: nat): nat {
    if policy in policies && policies[policy].steps != [] then Max0(policies[policy].steps[0].delaySecs) else 0
  }

  datatype Event =
    | Open(id: nat, policy: Option<nat>, now: int)   // a fresh incident and its seed
    | List(now: int)                                 // the engine starts a sweep
    | Look(id: nat)                                  // it reads the incident of a listed state
    | Write(at: int)                                 // it pages and writes the state back
    | Ack(id: nat)                                   // through the ops endpoint
    | AckShortcut(id: nat)                           // through POST /incidents/{id}/acknowledge
    | Resolve(id: nat)                               // ops endpoint or automatic close
    | ResolveShortcut(id: nat)                       // through POST /incidents/{id}/resolve
    | Reopen(id: nat)

  function Step(s: Engine, e: Event, policies: map<nat, Policy>, ladder: Ladder): Engine {
    match e
    case Open(id, policy, now) =>
      if id in s.ended then s  // identifiers are fresh
      else var t := s.(ended := s.ended[id := false]);
           if policy.None? then t
           else var due := now + FirstDelay(policies, policy.value);
                t.(states := s.states[id := State(policy.value, 0, 0, now, due, false)])
    case List(now) =>
      if s.turn.Some? then s else Listed(s, now)
    case Look(id) => if s.turn.None? && id in s.batch then Looked(s, id) else s
    case Write(at) =>
      if s.turn.Some? && s.turn.value in s.batch then Written(s, s.turn.value, at, policies, ladder) else s
    case Ack(id) =>
      if id in s.ended && !s.ended[id] && id in s.states
      then s.(states := s.states[id := s.states[id].(acked := true)]) else s
    case AckShortcut(_) => s
    case Resolve(id) => if id in s.ended then Dropped(s.(ended := s.ended[id := true]), id) else s
    case ResolveShortcut(id) => if id in s.ended then s.(ended := s.ended[id := true]) else s
    case Reopen(id) => if id in s.ended then s.(ended := s.ended[id := false]) else s
  }

  const START := Engine(map[], map[], [], map[], 0, None)

  function After(es: seq<Event>, policies: map<nat, Policy>, ladder: Ladder): Engine {
    if es == [] then START else Step(After(es[..|es| - 1], policies, ladder), es[|es| - 1], policies, ladder)
  }

  // A whole turn with nothing in between.
  function Advance(s: Engine, id: nat, at: int, policies: map<nat, Policy>, ladder: Ladder): Engine {
    Step(Step(s, Look(id), policies, ladder), Write(at), policies, ladder)
  }

  // One turn per listed incident, in order.
  function Turns(s: Engine, order: seq<nat>, ats: seq<int>, policies: map<nat, Policy>, ladder: Ladder): Engine
    requires |ats| == |order|
  {
    if order == [] then s
    else var n := |order| - 1;
         Advance(Turns(s, order[..n], ats[..n], policies, ladder), order[n], ats[n], policies, ladder)
  }

  /** The engine object: one sweep advances, one after another, the states that were
      due when it started. */
  class Store {
    var ended: map<nat, bool>
    var states: map<nat, State>
    var log: seq<PageSent>
    var batch: map<nat, State>
    var batchAt: int

    // Between turns.
    ghost function View(): Engine reads this { Engine(ended, states, log, batch, batchAt, None) }

    constructor ()
      ensures View() == START
    {
      ended, states, log, batch, batchAt := map[], map[], [], map[], 0;
    }

    method ListDue(now: int)
      modifies this`batch, this`batchAt
      ensures View() == Listed(old(View()), now)
    {
      batch := map id | id in states && !states[id].acked && states[id].nextCheckAt <= now :: states[id];
      batchAt := now;
    }

    method AdvanceState(id: nat, at: int, policies: map<nat, Policy>, ladder: Ladder)
      requires id in batch
      modifies this`states, this`log, this`batch
      ensures View() == Advance(old(View()), id, at, policies, ladder)
    {
      var state := batch[id];
      batch := batch - {id};
      if id !in ended {
        states := states - {id};
        return;
      }
      if ended[id] {
        states := states - {id};
        return;
      }
      if state.policy !in policies {
        return;
      }
      var policy := policies[state.policy];
      var decision := ladder(policy, state.level, state.round);
      if decision.Exhausted? {
        states := states - {id};
        return;
      }
      if !HasLevel(policy.steps, decision.level) {
        states := states - {id};
        return;
      }
      log := log + [PageSent(id, at, decision.level, decision.round, decision.delaySecs)];
      states := states[id := state.(level := decision.level, round := decision.round, lastPagedAt := at,
                                    nextCheckAt := at + Max0(decision.delaySecs))];
    }

    // `order` lists the incidents due at `now`; the k-th of them is written at `ats[k]`.
    method Sweep(order: seq<nat>, now: int, ats: seq<int>, policies: map<nat, Policy>, ladder: Ladder)
      requires |ats| == |order|
      requires forall i :: 0 <= i < |order| ==> Due(View(), order[i], now)
      requires forall i, j :: 0 <= i < j < |order| ==> order[i] != order[j]
      modifies this`states, this`log, this`batch, this`batchAt
      ensures View() == Turns(Listed(old(View()), now), order, ats, policies, ladder)
    {
      ListDue(now);
      ghost var listed := View();
      for k := 0 to |order|
        invariant View() == Turns(listed, order[..k], ats[..k], policies, ladder)
        invariant forall i :: k <= i < |order| ==> order[i] in batch
      {
        assert order[..k + 1][..k] == order[..k] && ats[..k + 1][..k] == ats[..k];
        BatchShrinks(View(), order[k], ats[k], policies, ladder);
        hide Advance, Step;
        AdvanceState(order[k], ats[k], policies, ladder);
      }
      assert order[..|order|] == order && ats[..|order|] == ats;
    }
  }

  lemma BatchShrinks(s: Engine, id: nat, at: int, policies: map<nat, Policy>, ladder: Ladder)
    requires s.turn.None?
    ensures Advance(s, id, at, policies, ladder).batch == s.batch - {id}
  {
  }
}
