/** A rule's `state_machine`: for each state an ordered list of
    `[condition, nextState]` transitions, walked first match first. */
module Machine {
  import opened Values
  import opened Conditions

  const Start := "start"
  const End := "end"

  datatype Transition = Transition(cond: Cond, next: string)

  type StateMachine = map<string, seq<Transition>>

  /** The result of one walk over a state's transitions: the new state,
      whether some transition was taken, the scope after the conditions that
      were tried, and the event expressions called, in call order. */
  datatype Move = Move(next: string, matched: bool, scope: Scope, calls: seq<string>)

  /** Tries the transitions in listed order and takes the first whose
      condition holds; each tried condition's bindings stay in the scope.
      When none holds the state `cur` is kept. */
  function FirstMatch(exprs: map<string, EventExpr>, ts: seq<Transition>, cur: string, e: Event, s: Scope): Move
    decreases ts
  {
    if ts == [] then Move(cur, false, s, [])
    else
      var r := EvalCond(exprs, ts[0].cond, e, s);
      if r.holds then Move(ts[0].next, true, r.scope, r.calls)
      else
        var m := FirstMatch(exprs, ts[1..], cur, e, r.scope);
        Move(m.next, m.matched, m.scope, r.calls + m.calls)
  }

  /** The transitions listed for a state; a state with no entry has none. */
  function Transitions(m: StateMachine, st: string): seq<Transition>
  {
    if st in m then m[st] else []
  }

  /** One step of the machine from state `cur` on event `e`. */
  function Advance(exprs: map<string, EventExpr>, m: StateMachine, cur: string, e: Event, s: Scope): Move
  {
    FirstMatch(exprs, Transitions(m, cur), cur, e, s)
  }

  /** Transition `i` is the first whose condition holds. */
  predicate FirstSatAt(exprs: map<string, EventExpr>, ts: seq<Transition>, i: int, e: Event)
  {
    0 <= i < |ts| && Sat(exprs, ts[i].cond, e)
    && forall j :: 0 <= j < i ==> !Sat(exprs, ts[j].cond, e)
  }

  /** How many transitions of the list have a condition that holds. */
  function CountSat(exprs: map<string, EventExpr>, ts: seq<Transition>, e: Event): nat
    decreases ts
  {
    if ts == [] then 0
    else (if Sat(exprs, ts[0].cond, e) then 1 else 0) + CountSat(exprs, ts[1..], e)
  }

  /** The walk takes the first transition whose condition holds, and stays
      put exactly when no condition holds. */
  lemma {:induction false} FirstMatchSpec(exprs: map<string, EventExpr>, ts: seq<Transition>, cur: string, e: Event, s: Scope)
    ensures var m := FirstMatch(exprs, ts, cur, e, s);
      && (m.matched <==> exists i :: 0 <= i < |ts| && Sat(exprs, ts[i].cond, e))
      && (!m.matched ==> m.next == cur)
      && (m.matched ==> exists i :: FirstSatAt(exprs, ts, i, e) && m.next == ts[i].next)
    decreases ts
  {
    if ts != [] {
      var r := EvalCond(exprs, ts[0].cond, e, s);
      EvalCondTruth(exprs, ts[0].cond, e, s);
      if r.holds {
        assert FirstSatAt(exprs, ts, 0, e);
      } else {
        FirstMatchSpec(exprs, ts[1..], cur, e, r.scope);
        var m := FirstMatch(exprs, ts[1..], cur, e, r.scope);
        if m.matched {
          var i :| FirstSatAt(exprs, ts[1..], i, e) && m.next == ts[1..][i].next;
          assert FirstSatAt(exprs, ts, i + 1, e) by {
            forall j | 0 <= j < i + 1 ensures !Sat(exprs, ts[j].cond, e) {
              if j > 0 { assert ts[j] == ts[1..][j - 1]; }
            }
          }
        } else {
          forall i | 0 <= i < |ts| ensures !Sat(exprs, ts[i].cond, e) {
            if i > 0 { assert ts[i] == ts[1..][i - 1]; }
          }
        }
      }
    }
  }

  lemma {:induction false} CountSatZero(exprs: map<string, EventExpr>, ts: seq<Transition>, e: Event)
    ensures CountSat(exprs, ts, e) == 0 <==> forall i :: 0 <= i < |ts| ==> !Sat(exprs, ts[i].cond, e)
    decreases ts
  {
    if ts != [] {
      CountSatZero(exprs, ts[1..], e);
      assert forall i :: 1 <= i < |ts| ==> ts[i] == ts[1..][i - 1];
    }
  }

  lemma {:induction false} CountSatPositive(exprs: map<string, EventExpr>, ts: seq<Transition>, e: Event, i: int)
    requires 0 <= i < |ts| && Sat(exprs, ts[i].cond, e)
    ensures CountSat(exprs, ts, e) >= 1
    ensures CountSat(exprs, ts, e) == 1 ==> forall j :: 0 <= j < |ts| && j != i ==> !Sat(exprs, ts[j].cond, e)
    decreases ts
  {
    if i == 0 {
      CountSatZero(exprs, ts[1..], e);
      assert forall j :: 1 <= j < |ts| ==> ts[j] == ts[1..][j - 1];
    } else {
      assert ts[i] == ts[1..][i - 1];
      CountSatPositive(exprs, ts[1..], e, i - 1);
      assert forall j :: 1 <= j < |ts| ==> ts[j] == ts[1..][j - 1];
    }
  }

  /** A state with no satisfied transition does not advance. */
  lemma NoMatchStays(exprs: map<string, EventExpr>, m: StateMachine, cur: string, e: Event, s: Scope)
    requires CountSat(exprs, Transitions(m, cur), e) == 0
    ensures Advance(exprs, m, cur, e, s).next == cur
    ensures !Advance(exprs, m, cur, e, s).matched
  {
    CountSatZero(exprs, Transitions(m, cur), e);
    FirstMatchSpec(exprs, Transitions(m, cur), cur, e, s);
  }

  /** When exactly one transition's condition holds, the walk takes that one,
      whatever the listed order. */
  lemma UniqueMatchTaken(exprs: map<string, EventExpr>, m: StateMachine, cur: string, e: Event, s: Scope, i: int)
    requires 0 <= i < |Transitions(m, cur)| && Sat(exprs, Transitions(m, cur)[i].cond, e)
    requires CountSat(exprs, Transitions(m, cur), e) == 1
    ensures Advance(exprs, m, cur, e, s).matched
    ensures Advance(exprs, m, cur, e, s).next == Transitions(m, cur)[i].next
  {
    var ts := Transitions(m, cur);
    CountSatPositive(exprs, ts, e, i);
    FirstMatchSpec(exprs, ts, cur, e, s);
  }

  // ---------------------------------------------------------------------
  // Unfolding helpers for short transition lists

  function SatBit(exprs: map<string, EventExpr>, c: Cond, e: Event): nat
  {
    if Sat(exprs, c, e) then 1 else 0
  }

  lemma CountSat2(exprs: map<string, EventExpr>, t0: Transition, t1: Transition, e: Event)
    ensures CountSat(exprs, [t0, t1], e) == SatBit(exprs, t0.cond, e) + SatBit(exprs, t1.cond, e)
  {
    assert [t0, t1][1..] == [t1];
    assert [t1][1..] == [];
    assert CountSat(exprs, [t1], e) == SatBit(exprs, t1.cond, e) + CountSat(exprs, [], e);
  }

  lemma CountSat3(exprs: map<string, EventExpr>, t0: Transition, t1: Transition, t2: Transition, e: Event)
    ensures CountSat(exprs, [t0, t1, t2], e)
      == SatBit(exprs, t0.cond, e) + SatBit(exprs, t1.cond, e) + SatBit(exprs, t2.cond, e)
  {
    assert [t0, t1, t2][1..] == [t1, t2];
    CountSat2(exprs, t1, t2, e);
  }

  /** The walk over a list is: try the head, and on failure walk the rest. */
  lemma FirstMatchCons(exprs: map<string, EventExpr>, t: Transition, ts: seq<Transition>, cur: string, e: Event, s: Scope)
    ensures FirstMatch(exprs, [t] + ts, cur, e, s) ==
      var r := EvalCond(exprs, t.cond, e, s);
      if r.holds then Move(t.next, true, r.scope, r.calls)
      else
        var m := FirstMatch(exprs, ts, cur, e, r.scope);
        Move(m.next, m.matched, m.scope, r.calls + m.calls)
  {
    assert ([t] + ts)[1..] == ts;
  }
}
