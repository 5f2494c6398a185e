/**
The upgrade's drain and its compensation: which executors get a drain, which
an undrain when the operator interrupts, and when that leaves the fleet as it
was.
*/
module DrainExecutors {

  type Id = string

  datatype Drain = NotDraining | UntilRestart | Persistent

  datatype Call = DrainCall(id: Id) | UndrainCall(id: Id)

  /** One docker call: what it reported, and whether the row changed. */
  datatype Answer = Answer(ok: bool, took: bool)

  /** A live executor as the fleet list gave it, with the answer a drain call to it would get. */
  datatype Member = Member(id: Id, drain: Drain, answer: Answer, undo: Answer)

  datatype Result = Done | Interrupted | UndoFailed(stuck: seq<Id>)

  ghost predicate Distinct(fleet: seq<Member>) {
    forall i, j :: 0 <= i < j < |fleet| ==> fleet[i].id != fleet[j].id
  }

  /** How the drain began: it may end before any executor is known. */
  datatype Prelude =
    | InterruptedEarly // while asking for control or the fleet
    | NoDrain // control is down, or the list failed
    | Ready

  function DrainedBy(fleet: seq<Member>): seq<Member> {
    if fleet == [] then []
    else
      var m := fleet[|fleet| - 1];
      DrainedBy(fleet[..|fleet| - 1]) + if m.drain.NotDraining? && m.answer.ok then [m] else []
  }

  function CallsFor(fleet: seq<Member>): seq<Call> {
    if fleet == [] then []
    else
      var m := fleet[|fleet| - 1];
      CallsFor(fleet[..|fleet| - 1]) + if m.drain.NotDraining? then [DrainCall(m.id)] else []
  }

  function Undrains(ms: seq<Member>): seq<Call> {
    if ms == [] then [] else Undrains(ms[..|ms| - 1]) + [UndrainCall(ms[|ms| - 1].id)]
  }

  /** The registry's drain column, and the calls made so far. */
  class Registry {
    var drains: map<Id, Drain>
    var calls: seq<Call>

    constructor (fleet: seq<Member>)
      requires Distinct(fleet)
      ensures calls == [] && Lists(fleet)
    {
      drains := map i: int | 0 <= i < |fleet| :: fleet[i].id := fleet[i].drain;
      calls := [];
    }

    /** The registry holds what the list said. */
    ghost predicate Lists(fleet: seq<Member>)
      reads this
    {
      forall i :: 0 <= i < |fleet| ==> fleet[i].id in drains && drains[fleet[i].id] == fleet[i].drain
    }

    method DrainUntilRestart(id: Id, answer: Answer) returns (ok: bool)
      modifies this
      ensures ok == answer.ok && calls == old(calls) + [DrainCall(id)]
      ensures drains == if answer.took then old(drains)[id := UntilRestart] else old(drains)
    {
      calls := calls + [DrainCall(id)];
      if answer.took {
        drains := drains[id := UntilRestart];
      }
      ok := answer.ok;
    }

    method Undrain(id: Id, answer: Answer) returns (ok: bool)
      modifies this
      ensures ok == answer.ok && calls == old(calls) + [UndrainCall(id)]
      ensures drains == if answer.took then old(drains)[id := NotDraining] else old(drains)
    {
      calls := calls + [UndrainCall(id)];
      if answer.took {
        drains := drains[id := NotDraining];
      }
      ok := answer.ok;
    }
  }

  /** The drain state a member ends in: asked by the loop or not, the run interrupted or not. */
  function Left(m: Member, asked: bool, interrupted: bool): Drain {
    if !asked || !m.drain.NotDraining? || !m.answer.took then m.drain
    else if interrupted && m.answer.ok && m.undo.took then NotDraining
    else UntilRestart
  }

  /** Every drain that took effect was reported, and its undrain took effect too. */
  ghost predicate AllUndone(fleet: seq<Member>, cut: nat)
    requires cut <= |fleet|
  {
    forall i :: 0 <= i < cut && fleet[i].drain.NotDraining? && fleet[i].answer.took ==>
      fleet[i].answer.ok && fleet[i].undo.took
  }

  // ------------------------------------------------------------------
  // The loops
  // ------------------------------------------------------------------

  /** Drains the first cut members that are not draining already; the rest the interrupt spares. */
  method DrainFirst(reg: Registry, fleet: seq<Member>, cut: nat) returns (drained: seq<Member>)
    requires cut <= |fleet| && Distinct(fleet) && reg.Lists(fleet)
    modifies reg
    ensures drained == DrainedBy(fleet[..cut])
    ensures reg.calls == old(reg.calls) + CallsFor(fleet[..cut])
    ensures reg.drains.Keys == old(reg.drains.Keys)
    ensures forall i :: 0 <= i < |fleet| ==> fleet[i].id in reg.drains && reg.drains[fleet[i].id] == Left(fleet[i], i < cut, false)
    ensures forall id :: id in reg.drains && (forall i :: 0 <= i < |fleet| ==> fleet[i].id != id)
              ==> reg.drains[id] == old(reg.drains[id])
  {
    drained := [];
    for k := 0 to cut
      invariant drained == DrainedBy(fleet[..k])
      invariant reg.calls == old(reg.calls) + CallsFor(fleet[..k])
      invariant reg.drains.Keys == old(reg.drains.Keys)
      invariant forall i :: 0 <= i < |fleet| ==> fleet[i].id in reg.drains && reg.drains[fleet[i].id] == Left(fleet[i], i < k, false)
      invariant forall id :: id in reg.drains && (forall i :: 0 <= i < |fleet| ==> fleet[i].id != id)
                  ==> reg.drains[id] == old(reg.drains[id])
    {
      var m := fleet[k];
      assert fleet[..k + 1][..k] == fleet[..k] && fleet[..k + 1][k] == m;
      if !m.drain.NotDraining? {
        continue;
      }
      var ok := reg.DrainUntilRestart(m.id, m.answer);
      if ok {
        drained := drained + [m];
      }
    }
  }

  /** The registry once each of ms has been undrained, and those of them that answered with an error. */
  function Undone(drains: map<Id, Drain>, ms: seq<Member>): map<Id, Drain> {
    if ms == [] then drains
    else
      var before, m := Undone(drains, ms[..|ms| - 1]), ms[|ms| - 1];
      if m.undo.took then before[m.id := NotDraining] else before
  }

  function Stuck(ms: seq<Member>): seq<Id> {
    if ms == [] then []
    else Stuck(ms[..|ms| - 1]) + if ms[|ms| - 1].undo.ok then [] else [ms[|ms| - 1].id]
  }

  /** Undrains each of drained, and names those it could not. */
  method UndoDrain(reg: Registry, drained: seq<Member>) returns (stuck: seq<Id>)
    modifies reg
    ensures reg.calls == old(reg.calls) + Undrains(drained)
    ensures reg.drains == Undone(old(reg.drains), drained)
    ensures stuck == Stuck(drained)
  {
    stuck := [];
    for k := 0 to |drained|
      invariant reg.calls == old(reg.calls) + Undrains(drained[..k])
      invariant reg.drains == Undone(old(reg.drains), drained[..k])
      invariant stuck == Stuck(drained[..k])
    {
      assert drained[..k + 1][..k] == drained[..k];
      var ok := reg.Undrain(drained[k].id, drained[k].undo);
      if !ok {
        stuck := stuck + [drained[k].id];
      }
    }
    assert drained[..|drained|] == drained;
  }

  /** An executor's row changes exactly when some undrain of it took effect. */
  lemma {:induction false} UndoneEach(drains: map<Id, Drain>, ms: seq<Member>, id: Id)
    requires Distinct(ms) && id in drains
    ensures id in Undone(drains, ms)
    ensures Undone(drains, ms)[id] == if exists m :: m in ms && m.id == id && m.undo.took then NotDraining else drains[id]
  {
    if ms != [] {
      var front, last := ms[..|ms| - 1], ms[|ms| - 1];
      assert ms == front + [last];
      UndoneEach(drains, front, id);
    }
  }

  lemma {:induction false} UndoneKeys(drains: map<Id, Drain>, ms: seq<Member>)
    requires forall m :: m in ms ==> m.id in drains
    ensures Undone(drains, ms).Keys == drains.Keys
  {
    if ms != [] {
      var front, last := ms[..|ms| - 1], ms[|ms| - 1];
      assert ms == front + [last];
      UndoneKeys(drains, front);
    }
  }

  lemma {:induction false} StuckExactly(ms: seq<Member>)
    ensures Stuck(ms) != [] <==> exists m :: m in ms && !m.undo.ok
  {
    if ms != [] {
      var front, last := ms[..|ms| - 1], ms[|ms| - 1];
      assert ms == front + [last];
      StuckExactly(front);
    }
  }

  /** A drained member is one the loop asked and that answered well, at its place in the fleet. */
  lemma {:induction false} DrainedAreMembers(fleet: seq<Member>)
    requires Distinct(fleet)
    ensures Distinct(DrainedBy(fleet))
    ensures forall m :: m in DrainedBy(fleet) <==> m in fleet && m.drain.NotDraining? && m.answer.ok
  {
    if fleet != [] {
      var front := fleet[..|fleet| - 1];
      DrainedAreMembers(front);
      assert fleet == front + [fleet[|fleet| - 1]];
      var d := DrainedBy(front);
      forall i, j | 0 <= i < j < |DrainedBy(fleet)|
        ensures DrainedBy(fleet)[i].id != DrainedBy(fleet)[j].id
      {
        assert d == [] || forall k :: 0 <= k < |d| ==> d[k] in front;
      }
    }
  }

  /** What the undo loop leaves a member in, from what the drain loop left it in. */
  lemma UndoneAt(fleet: seq<Member>, cut: nat, was: map<Id, Drain>, i: nat)
    requires cut <= |fleet| && i < |fleet| && Distinct(fleet)
    requires fleet[i].id in was && was[fleet[i].id] == Left(fleet[i], i < cut, false)
    ensures var now := Undone(was, DrainedBy(fleet[..cut]));
            fleet[i].id in now && now[fleet[i].id] == Left(fleet[i], i < cut, true)
  {
    var m, drained := fleet[i], DrainedBy(fleet[..cut]);
    DrainedAreMembers(fleet[..cut]);
    UndoneEach(was, drained, m.id);
    assert i < cut ==> fleet[..cut][i] == m;
    assert forall k :: 0 <= k < cut && fleet[..cut][k].id == m.id ==> k == i;
    assert forall d :: d in drained && d.id == m.id ==> i < cut && d == m;
  }

  /** Interrupted, the registry is what it was exactly when every drain that took effect was undone. */
  lemma RestoredExactly(fleet: seq<Member>, cut: nat, was: map<Id, Drain>, now: map<Id, Drain>)
    requires cut <= |fleet| && was.Keys == now.Keys
    requires forall i :: 0 <= i < |fleet| ==>
      fleet[i].id in was && was[fleet[i].id] == fleet[i].drain && now[fleet[i].id] == Left(fleet[i], i < cut, true)
    requires forall id :: id in was && (forall i :: 0 <= i < |fleet| ==> fleet[i].id != id) ==> now[id] == was[id]
    ensures was == now <==> AllUndone(fleet, cut)
  {
    if AllUndone(fleet, cut) {
      forall id | id in was
        ensures now[id] == was[id]
      {
        if i :| 0 <= i < |fleet| && fleet[i].id == id {
          assert now[id] == Left(fleet[i], i < cut, true);
        }
      }
    }
  }

  /**
  The whole drain. With no interrupt nothing is undrained; with one, exactly
  the executors this run drained are, and the fleet is left as it was exactly
  when every drain that took effect was also reported and undone.
  */
  method DrainAll(reg: Registry, prelude: Prelude, fleet: seq<Member>, cut: nat, late: bool) returns (r: Result)
    requires cut <= |fleet| && Distinct(fleet) && reg.Lists(fleet)
    modifies reg
    ensures !prelude.Ready? ==>
              && reg.calls == old(reg.calls) && reg.drains == old(reg.drains)
              && r == if prelude.InterruptedEarly? then Interrupted else Done
    ensures prelude.Ready? ==>
              var interrupted := fleet != [] && (cut < |fleet| || late);
              && reg.calls == old(reg.calls) + CallsFor(fleet[..cut])
                              + (if interrupted then Undrains(DrainedBy(fleet[..cut])) else [])
              && (forall i :: 0 <= i < |fleet| ==>
                    fleet[i].id in reg.drains && reg.drains[fleet[i].id] == Left(fleet[i], i < cut, interrupted))
              && (r.Done? <==> !interrupted)
              && (r.UndoFailed? <==> interrupted && exists m :: m in DrainedBy(fleet[..cut]) && !m.undo.ok)
              && (interrupted ==> (reg.drains == old(reg.drains) <==> AllUndone(fleet, cut)))
  {
    if prelude.InterruptedEarly? {
      return Interrupted;
    }
    if prelude.NoDrain? || fleet == [] {
      assert fleet[..cut] == [] || prelude.NoDrain?;
      return Done;
    }
    var drained := DrainFirst(reg, fleet, cut);
    if cut == |fleet| && !late {
      return Done;
    }
    ghost var before := reg.drains;
    DrainedAreMembers(fleet[..cut]);
    var stuck := UndoDrain(reg, drained);
    StuckExactly(drained);
    UndoneKeys(before, drained);
    forall i | 0 <= i < |fleet|
      ensures fleet[i].id in reg.drains && reg.drains[fleet[i].id] == Left(fleet[i], i < cut, true)
    {
      UndoneAt(fleet, cut, before, i);
    }
    forall id | id in before && forall i :: 0 <= i < |fleet| ==> fleet[i].id != id
      ensures reg.drains[id] == before[id]
    {
      UndoneEach(before, drained, id);
    }
    RestoredExactly(fleet, cut, old(reg.drains), reg.drains);
    r := if stuck == [] then Interrupted else UndoFailed(stuck);
  }

  // ------------------------------------------------------------------
  // Who is called
  // ------------------------------------------------------------------

  /** The member with this id was not draining when the list was read. */
  ghost predicate Idle(fleet: seq<Member>, id: Id) {
    exists m :: m in fleet && m.id == id && m.drain.NotDraining?
  }

  lemma {:induction false} DrainCallsExactly(fleet: seq<Member>, id: Id)
    requires Distinct(fleet)
    ensures multiset(CallsFor(fleet))[DrainCall(id)] == if Idle(fleet, id) then 1 else 0
    ensures multiset(CallsFor(fleet))[UndrainCall(id)] == 0
  {
    if fleet != [] {
      var front, m := fleet[..|fleet| - 1], fleet[|fleet| - 1];
      DrainCallsExactly(front, id);
      assert fleet == front + [m];
      assert m.id == id ==> !Idle(front, id);
    }
  }

  lemma {:induction false} UndrainCallsExactly(ms: seq<Member>, id: Id)
    requires Distinct(ms)
    ensures multiset(Undrains(ms))[UndrainCall(id)] == if exists m :: m in ms && m.id == id then 1 else 0
    ensures multiset(Undrains(ms))[DrainCall(id)] == 0
  {
    if ms != [] {
      var front, last := ms[..|ms| - 1], ms[|ms| - 1];
      UndrainCallsExactly(front, id);
      assert ms == front + [last];
    }
  }

  /**
  Over the whole call log of an interrupted drain: a member was drained once if
  the loop reached it and it was not draining, undrained once if that drain was
  reported a success, and otherwise never named.
  */
  lemma CallsExactly(fleet: seq<Member>, cut: nat, i: nat)
    requires cut <= |fleet| && i < |fleet| && Distinct(fleet)
    ensures var log := multiset(CallsFor(fleet[..cut]) + Undrains(DrainedBy(fleet[..cut])));
            var asked := i < cut && fleet[i].drain.NotDraining?;
            && log[DrainCall(fleet[i].id)] == (if asked then 1 else 0)
            && log[UndrainCall(fleet[i].id)] == (if asked && fleet[i].answer.ok then 1 else 0)
  {
    var reached, id := fleet[..cut], fleet[i].id;
    DrainedAreMembers(reached);
    DrainCallsExactly(reached, id);
    UndrainCallsExactly(DrainedBy(reached), id);
    if i < cut {
      assert reached[i] == fleet[i] && fleet[i] in reached;
    }
    assert forall k :: 0 <= k < cut && reached[k].id == id ==> k == i;
    assert forall m :: m in reached && m.id == id ==> i < cut && m == fleet[i];
  }

  /** A drain whose answer is lost stays behind: it took effect, was reported failed, and is not undone. */
  lemma LostAnswerLeavesADrain()
    ensures var fleet := [Member("a", NotDraining, Answer(false, true), Answer(true, true))];
            Distinct(fleet) && !AllUndone(fleet, 1) && DrainedBy(fleet) == [] && Left(fleet[0], true, true) == UntilRestart
  {
    var fleet := [Member("a", NotDraining, Answer(false, true), Answer(true, true))];
    assert fleet[..0] == [];
    assert fleet[0].answer.took && !fleet[0].answer.ok;
  }
}
