/** Safety of paging, for any ladder. */
module EscalationLaws {
  import opened Common
  import opened Escalation

  // Times and delays of the pages sent for one incident.
  function PagesFor(log: seq<PageSent>, id: nat): seq<PageSent> {
    if log == [] then []
    else var rest, p := PagesFor(log[..|log| - 1], id), log[|log| - 1];
         if p.incident == id then rest + [p] else rest
  }

  lemma PagesNext(log: seq<PageSent>, p: PageSent, id: nat)
    ensures PagesFor(log + [p], id) == if p.incident == id then PagesFor(log, id) + [p] else PagesFor(log, id)
  {
    assert (log + [p])[..|log|] == log;
  }

  // The ladder's answer for a listed state.
  function DecisionFor(s: Engine, id: nat, policies: map<nat, Policy>, ladder: Ladder): Decision
    requires id in s.batch && s.batch[id].policy in policies
  {
    ladder(policies[s.batch[id].policy], s.batch[id].level, s.batch[id].round)
  }

  // A turn for a listed state that finds the incident unresolved will page.
  ghost predicate WouldPage(s: Engine, id: nat, policies: map<nat, Policy>, ladder: Ladder) {
    && id in s.batch && s.batch[id].policy in policies
    && DecisionFor(s, id, policies, ladder).Page?
    && exists r :: r in policies[s.batch[id].policy].steps && r.level == DecisionFor(s, id, policies, ladder).level
  }

  // The event is the write that pages an incident.
  ghost predicate Pages(s: Engine, e: Event, id: nat, policies: map<nat, Policy>, ladder: Ladder) {
    e.Write? && s.turn == Some(id) && WouldPage(s, id, policies, ladder)
  }

  // What one event can do to the pages of an incident.
  lemma StepPages(s: Engine, e: Event, policies: map<nat, Policy>, ladder: Ladder, id: nat)
    ensures var t := Step(s, e, policies, ladder);
            if Pages(s, e, id, policies, ladder)
            then var d := DecisionFor(s, id, policies, ladder);
                 && PagesFor(t.log, id) == PagesFor(s.log, id) + [PageSent(id, e.at, d.level, d.round, d.delaySecs)]
                 && id in t.states && id !in t.batch && t.turn.None?
                 && t.states[id] == s.batch[id].(level := d.level, round := d.round, lastPagedAt := e.at,
                                                 nextCheckAt := e.at + Max0(d.delaySecs))
            else PagesFor(t.log, id) == PagesFor(s.log, id)
  {
    if s.turn.Some? && Pages(s, e, s.turn.value, policies, ladder) {
      var paged := s.turn.value;
      var d := DecisionFor(s, paged, policies, ladder);
      PagesNext(s.log, PageSent(paged, e.at, d.level, d.round, d.delaySecs), id);
    }
  }

  // ---- acknowledging ----

  // Nothing is left that could page the incident.
  ghost predicate Silenced(s: Engine, id: nat) {
    id in s.ended && id !in s.batch && (id in s.states ==> s.states[id].acked)
  }

  lemma StepKeepsSilence(s: Engine, e: Event, policies: map<nat, Policy>, ladder: Ladder, id: nat)
    requires Silenced(s, id)
    ensures Silenced(Step(s, e, policies, ladder), id)
  {
  }

  /** Once an acknowledgement has reached the escalation state, or the state is gone, and
      no sweep under way has the incident listed, it is never paged again, whatever else
      happens. */
  lemma {:induction false} NoPageAfterAck(es: seq<Event>, n: nat, policies: map<nat, Policy>, ladder: Ladder, id: nat)
    requires n <= |es| && Silenced(After(es[..n], policies, ladder), id)
    ensures Silenced(After(es, policies, ladder), id)
    ensures PagesFor(After(es, policies, ladder).log, id) == PagesFor(After(es[..n], policies, ladder).log, id)
    decreases |es|
  {
    if n == |es| {
      assert es[..n] == es;
    } else {
      hide Step;
      var pre := es[..|es| - 1];
      assert pre[..n] == es[..n];
      NoPageAfterAck(pre, n, policies, ladder, id);
      StepKeepsSilence(After(pre, policies, ladder), es[|es| - 1], policies, ladder, id);
      StepPages(After(pre, policies, ladder), es[|es| - 1], policies, ladder, id);
    }
  }

  /** An acknowledgement of an open incident, or its resolution, through the ops endpoint
      is final unless a sweep under way has the incident listed: no later page, whatever
      the engine, further seeds or a reopening do. */
  lemma AckIsFinal(es: seq<Event>, n: nat, policies: map<nat, Policy>, ladder: Ladder, id: nat)
    requires n < |es| && id in After(es[..n], policies, ladder).ended && id !in After(es[..n], policies, ladder).batch
    requires es[n] == Resolve(id) || (es[n] == Ack(id) && !After(es[..n], policies, ladder).ended[id])
    ensures PagesFor(After(es, policies, ladder).log, id) == PagesFor(After(es[..n], policies, ladder).log, id)
  {
    assert es[..n + 1][..n] == es[..n];
    StepPages(After(es[..n], policies, ladder), es[n], policies, ladder, id);
    NoPageAfterAck(es, n + 1, policies, ladder, id);
  }

  lemma EndedStep(s: Engine, e: Event, policies: map<nat, Policy>, ladder: Ladder, id: nat)
    requires id in s.ended && s.ended[id] && s.turn != Some(id) && e != Reopen(id)
    ensures var t := Step(s, e, policies, ladder);
            id in t.ended && t.ended[id] && t.turn != Some(id) && PagesFor(t.log, id) == PagesFor(s.log, id)
  {
    StepPages(s, e, policies, ladder, id);
  }

  /** While an incident stays resolved it is not paged, whichever way it was resolved,
      unless the engine had already looked it up when it was. */
  lemma {:induction false} NoPageWhileEnded(es: seq<Event>, n: nat, policies: map<nat, Policy>, ladder: Ladder, id: nat)
    requires n <= |es| && id in After(es[..n], policies, ladder).ended && After(es[..n], policies, ladder).ended[id]
    requires After(es[..n], policies, ladder).turn != Some(id)
    requires forall i :: n <= i < |es| ==> es[i] != Reopen(id)
    ensures id in After(es, policies, ladder).ended && After(es, policies, ladder).ended[id]
    ensures After(es, policies, ladder).turn != Some(id)
    ensures PagesFor(After(es, policies, ladder).log, id) == PagesFor(After(es[..n], policies, ladder).log, id)
    decreases |es|
  {
    if n == |es| {
      assert es[..n] == es;
    } else {
      hide Step;
      var pre := es[..|es| - 1];
      assert pre[..n] == es[..n];
      NoPageWhileEnded(pre, n, policies, ladder, id);
      EndedStep(After(pre, policies, ladder), es[|es| - 1], policies, ladder, id);
    }
  }

  // ---- spacing ----

  // Later pages respect the delay of the page before them.
  ghost predicate SpacedOut(pages: seq<PageSent>) {
    forall i :: 0 <= i && i + 1 < |pages|
                ==> pages[i + 1].at >= pages[i].at && pages[i + 1].at >= pages[i].at + pages[i].delaySecs
  }

  // The listed state and the stored one are the same, up to an acknowledgement, while
  // both are there.
  ghost predicate Coherent(s: Engine, id: nat) {
    && (id in s.states ==> id in s.ended)
    && (id in s.batch ==> id in s.ended && !s.batch[id].acked && s.batch[id].nextCheckAt <= s.batchAt)
    && (id in s.states && id in s.batch ==> s.states[id] == s.batch[id].(acked := s.states[id].acked))
  }

  // The state that the next page of an incident will come from.
  function Held(s: Engine, id: nat): Option<State> {
    if id in s.batch then Some(s.batch[id]) else if id in s.states then Some(s.states[id]) else None
  }

  lemma StepKeepsCoherent(s: Engine, e: Event, policies: map<nat, Policy>, ladder: Ladder, id: nat)
    requires Coherent(s, id)
    ensures Coherent(Step(s, e, policies, ladder), id)
  {
  }

  lemma {:induction false} ReachableCoherent(es: seq<Event>, policies: map<nat, Policy>, ladder: Ladder, id: nat)
    ensures Coherent(After(es, policies, ladder), id)
  {
    if es != [] {
      hide Step, Coherent;
      ReachableCoherent(es[..|es| - 1], policies, ladder, id);
      StepKeepsCoherent(After(es[..|es| - 1], policies, ladder), es[|es| - 1], policies, ladder, id);
    }
  }

  ghost predicate Paced(s: Engine, id: nat) {
    var pages := PagesFor(s.log, id);
    && Coherent(s, id) && SpacedOut(pages)
    && (pages != [] ==> id in s.ended)
    && (pages != [] && Held(s, id).Some? ==>
          Held(s, id).value.nextCheckAt == pages[|pages| - 1].at + Max0(pages[|pages| - 1].delaySecs))
  }

  // Apart from a page, an event leaves the schedule of an incident alone, unless it
  // opens the incident.
  lemma StepSchedule(s: Engine, e: Event, policies: map<nat, Policy>, ladder: Ladder, id: nat)
    requires Coherent(s, id) && !Pages(s, e, id, policies, ladder)
    ensures var t := Step(s, e, policies, ladder);
            && (id in s.ended ==> id in t.ended)
            && (Held(t, id).Some? ==>
                  || (Held(s, id).Some? && Held(t, id).value == Held(s, id).value.(acked := Held(t, id).value.acked))
                  || (id !in s.ended && id in t.ended))
  {
  }

  // A page comes no earlier than the schedule says.
  lemma PageIsPaced(s: Engine, e: Event, policies: map<nat, Policy>, ladder: Ladder, id: nat)
    requires Paced(s, id) && Pages(s, e, id, policies, ladder) && s.batchAt <= e.at
    ensures Paced(Step(s, e, policies, ladder), id)
  {
    assert Step(s, e, policies, ladder).ended == s.ended;
    hide PagesFor, Step, Coherent, SpacedOut, Due;
    StepPages(s, e, policies, ladder, id);
    StepKeepsCoherent(s, e, policies, ladder, id);
    NextPageIsSpaced(PagesFor(s.log, id), s, e, id, DecisionFor(s, id, policies, ladder));
  }

  lemma NextPageIsSpaced(pages: seq<PageSent>, s: Engine, e: Event, id: nat, d: Decision)
    requires SpacedOut(pages) && Coherent(s, id) && id in s.batch && e.Write? && s.batchAt <= e.at && d.Page?
    requires pages != [] ==> s.batch[id].nextCheckAt == pages[|pages| - 1].at + Max0(pages[|pages| - 1].delaySecs)
    ensures SpacedOut(pages + [PageSent(id, e.at, d.level, d.round, d.delaySecs)])
  {
  }

  lemma StepKeepsPaced(s: Engine, e: Event, policies: map<nat, Policy>, ladder: Ladder, id: nat)
    requires Paced(s, id) && (Pages(s, e, id, policies, ladder) ==> s.batchAt <= e.at)
    ensures Paced(Step(s, e, policies, ladder), id)
  {
    hide Step, PagesFor, SpacedOut;
    if Pages(s, e, id, policies, ladder) {
      PageIsPaced(s, e, policies, ladder, id);
    } else {
      StepPages(s, e, policies, ladder, id);
      StepSchedule(s, e, policies, ladder, id);
      StepKeepsCoherent(s, e, policies, ladder, id);
    }
  }

  // The engine's clock does not run backwards between a listing and a later write.
  ghost predicate ClockOrdered(es: seq<Event>) {
    forall i, j :: 0 <= i < j < |es| && es[i].List? && es[j].Write? ==> es[i].now <= es[j].at
  }

  lemma {:induction false} BatchWasListed(es: seq<Event>, policies: map<nat, Policy>, ladder: Ladder)
    ensures After(es, policies, ladder).batch == map[]
            || exists i :: 0 <= i < |es| && es[i] == List(After(es, policies, ladder).batchAt)
  {
    if es != [] {
      var pre, e := es[..|es| - 1], es[|es| - 1];
      BatchWasListed(pre, policies, ladder);
      var s, t := After(pre, policies, ladder), After(es, policies, ladder);
      if s.batch != map[] {
        var i :| 0 <= i < |pre| && pre[i] == List(s.batchAt);
        assert es[i] == List(s.batchAt);
      }
      BatchComesFromList(s, e, policies, ladder);
      assert es[|es| - 1] == e;
    }
  }

  lemma BatchComesFromList(s: Engine, e: Event, policies: map<nat, Policy>, ladder: Ladder)
    ensures var t := Step(s, e, policies, ladder);
            e == List(t.batchAt) || (t.batchAt == s.batchAt && (s.batch == map[] ==> t.batch == map[]))
  {
  }

  lemma ListedBeforeWrite(es: seq<Event>, policies: map<nat, Policy>, ladder: Ladder, id: nat)
    requires ClockOrdered(es) && es != []
    ensures var s, e := After(es[..|es| - 1], policies, ladder), es[|es| - 1];
            Pages(s, e, id, policies, ladder) ==> s.batchAt <= e.at
  {
    hide Step;
    var pre, e := es[..|es| - 1], es[|es| - 1];
    BatchWasListed(pre, policies, ladder);
    if Pages(After(pre, policies, ladder), e, id, policies, ladder) {
      var i :| 0 <= i < |pre| && pre[i] == List(After(pre, policies, ladder).batchAt);
      assert es[i] == pre[i] && es[|es| - 1] == e;
    }
  }

  /** Consecutive pages for one incident are at least the announced delay apart, whatever
      happens during sweeps, provided only that the engine's clock does not run
      backwards. */
  lemma {:induction false} PagesAreSpacedOut(es: seq<Event>, policies: map<nat, Policy>, ladder: Ladder, id: nat)
    requires ClockOrdered(es)
    ensures Paced(After(es, policies, ladder), id)
  {
    if es != [] {
      hide Step, Paced;
      var pre, e := es[..|es| - 1], es[|es| - 1];
      PagesAreSpacedOut(pre, policies, ladder, id);
      ListedBeforeWrite(es, policies, ladder, id);
      StepKeepsPaced(After(pre, policies, ladder), e, policies, ladder, id);
    } else {
      assert SpacedOut([]);
    }
  }

  // ---- where acknowledging fails ----

  function PageFrom(id: nat, at: int, d: Decision): PageSent
    requires d.Page?
  {
    PageSent(id, at, d.level, d.round, d.delaySecs)
  }

  // The engine finishes the turn of a listed incident.
  function Finish(s: Engine, id: nat, at: int, policies: map<nat, Policy>, ladder: Ladder): Engine {
    Step(Step(s, Look(id), policies, ladder), Write(at), policies, ladder)
  }

  /** An acknowledgement of an unresolved incident that a sweep under way has listed holds
      if and only if its turn pages nobody. If it does page, the page goes out after the
      acknowledgement and the write-back, which stores the state as it was listed, erases
      it: the incident comes due again. */
  lemma AckHoldsIffNoPage(es: seq<Event>, id: nat, at: int, policies: map<nat, Policy>, ladder: Ladder)
    requires var s := After(es, policies, ladder);
             id in s.batch && id in s.ended && !s.ended[id] && (s.turn.None? || s.turn == Some(id))
    ensures var s := After(es, policies, ladder);
            var t := Finish(Step(s, Ack(id), policies, ladder), id, at, policies, ladder);
            && (Silenced(t, id) <==> !WouldPage(s, id, policies, ladder))
            && (if WouldPage(s, id, policies, ladder)
                then PagesFor(t.log, id) == PagesFor(s.log, id)
                     + [PageFrom(id, at, DecisionFor(s, id, policies, ladder))]
                     && id in t.states && Due(t, id, t.states[id].nextCheckAt)
                else PagesFor(t.log, id) == PagesFor(s.log, id))
  {
    ReachableCoherent(es, policies, ladder, id);
    hide After;
    var s := After(es, policies, ladder);
    var acked := Step(s, Ack(id), policies, ladder);
    var looked := Step(acked, Look(id), policies, ladder);
    assert looked.turn == Some(id) && looked.batch == s.batch && looked.log == s.log;
    StepPages(looked, Write(at), policies, ladder, id);
  }

  /** A resolution of an incident that a sweep under way has listed ends paging if and
      only if the engine has not looked it up yet, or its turn pages nobody. Otherwise the
      page goes out after the resolution and the write-back restores the state that the
      resolution had deleted: once the incident is reopened, it comes due again. */
  lemma ResolutionHoldsIffNoPage(es: seq<Event>, id: nat, at: int, policies: map<nat, Policy>, ladder: Ladder)
    requires var s := After(es, policies, ladder);
             id in s.batch && (s.turn.None? || s.turn == Some(id))
    ensures var s := After(es, policies, ladder);
            var t := Finish(Step(s, Resolve(id), policies, ladder), id, at, policies, ladder);
            var reopened := Step(t, Reopen(id), policies, ladder);
            && id in t.ended && t.ended[id]
            && (Silenced(t, id) <==> s.turn.None? || !WouldPage(s, id, policies, ladder))
            && (if s.turn == Some(id) && WouldPage(s, id, policies, ladder)
                then PagesFor(t.log, id) == PagesFor(s.log, id)
                     + [PageFrom(id, at, DecisionFor(s, id, policies, ladder))]
                     && !reopened.ended[id] && id in t.states && Due(reopened, id, t.states[id].nextCheckAt)
                else PagesFor(t.log, id) == PagesFor(s.log, id))
  {
    ReachableCoherent(es, policies, ladder, id);
    hide After;
    var s := After(es, policies, ladder);
    var resolved := Step(s, Resolve(id), policies, ladder);
    var looked := Step(resolved, Look(id), policies, ladder);
    StepPages(looked, Write(at), policies, ladder, id);
  }

  /** One incident with a one-rung policy is enough for both. */
  lemma AckErasedRun()
    ensures var policies := map[0 := Policy([Rung(1, 60)], 1)];
            var s := After([Open(0, Some(0), 0), List(60), Look(0)], policies, NextStep);
            && !Silenced(Step(Step(s, Ack(0), policies, NextStep), Write(60), policies, NextStep), 0)
            && !Silenced(Step(Step(s, Resolve(0), policies, NextStep), Write(60), policies, NextStep), 0)
  {
    var policies := map[0 := Policy([Rung(1, 60)], 1)];
    var e1, e2, e3 := Open(0, Some(0), 0), List(60), Look(0);
    assert [e1][..0] == [] && [e1, e2][..1] == [e1] && [e1, e2, e3][..2] == [e1, e2];
    assert After([], policies, NextStep) == START;
    var st := State(0, 0, 0, 0, 60, false);
    var s1, s2 := Step(START, e1, policies, NextStep), After([e1, e2], policies, NextStep);
    assert s1 == After([e1], policies, NextStep) && s1.states == map[0 := st];
    assert s2.batch == map[0 := st] && s2.states == map[0 := st];
    var s := After([e1, e2, e3], policies, NextStep);
    assert s == s2.(turn := Some(0));
    assert policies[0].steps[0] in policies[0].steps;
    assert WouldPage(s, 0, policies, NextStep);
    hide NextStep, After;
    AckHoldsIffNoPage([e1, e2, e3], 0, 60, policies, NextStep);
    ResolutionHoldsIffNoPage([e1, e2, e3], 0, 60, policies, NextStep);
  }

  /** A state disappears exactly if its incident is resolved through the ops endpoint or
      automatically, is found missing or resolved in its turn, or its turn finds the policy
      exhausted or without the step; a policy that cannot be read keeps it. */
  lemma StateEndsIff(s: Engine, e: Event, policies: map<nat, Policy>, ladder: Ladder, id: nat)
    requires id in s.states
    ensures id !in Step(s, e, policies, ladder).states
       <==> || (e == Resolve(id) && id in s.ended)
            || (e == Look(id) && s.turn.None? && id in s.batch && (id !in s.ended || s.ended[id]))
            || (e.Write? && s.turn == Some(id) && id in s.batch && s.batch[id].policy in policies
                && !WouldPage(s, id, policies, ladder))
  {
  }

  /** An acknowledgement of a resolved incident is refused and changes nothing. */
  lemma ResolvedCannotBeAcked(s: Engine, policies: map<nat, Policy>, ladder: Ladder, id: nat)
    requires id in s.ended && s.ended[id]
    ensures Step(s, Ack(id), policies, ladder) == s
  {
  }

  /** The acknowledge shortcut does not reach the escalation state at all: whatever the
      engine does next, it does as if the shortcut had not been taken. */
  lemma {:induction false} ShortcutAckDoesNotSilence(es: seq<Event>, id: nat, more: seq<Event>,
                                                     policies: map<nat, Policy>, ladder: Ladder)
    ensures After(es + [AckShortcut(id)] + more, policies, ladder) == After(es + more, policies, ladder)
  {
    var ack := AckShortcut(id);
    if more == [] {
      Extend(es, ack, policies, ladder);
      hide After;
      assert es + [ack] + more == es + [ack] && es + more == es;
    } else {
      hide Step, After;
      var n := |more| - 1;
      ShortcutAckDoesNotSilence(es, id, more[..n], policies, ladder);
      Extend(es + [ack] + more[..n], more[n], policies, ladder);
      Extend(es + more[..n], more[n], policies, ladder);
      assert more == more[..n] + [more[n]];
      assert es + [ack] + more[..n] + [more[n]] == es + [ack] + more && es + more[..n] + [more[n]] == es + more;
    }
  }

  lemma Extend(es: seq<Event>, e: Event, policies: map<nat, Policy>, ladder: Ladder)
    ensures After(es + [e], policies, ladder) == Step(After(es, policies, ladder), e, policies, ladder)
  {
    assert (es + [e])[..|es|] == es;
  }
}
