/** The `event_ops` test ruleset: rules `bind`, `or` and `and`, written as
    tables for the matcher, and what they do with events. */
module EventOps {
  import opened Values
  import opened Conditions
  import opened Machine
  import opened Lifecycle

  const Domain := "event_ops"

  const NoPostlude := Postlude(None, None, None)

  /** `mkExpTypeVal(type, val)`: domain `event_ops`, the given type, and
      attribute `val` strictly equal to `val`. */
  function MkExpTypeVal(etype: string, val: string): EventExpr
  {
    TypeVal(Domain, etype, "val", val)
  }

  lemma MkExpTypeValSpec(etype: string, val: string, e: Event, s: Scope)
    ensures EvalExpr(MkExpTypeVal(etype, val), e, s).holds
      <==> e.domain == "event_ops" && e.etype == etype && Get(e.attrs, "val") == Str(val)
    ensures EvalExpr(MkExpTypeVal(etype, val), e, s).scope == s
  {
  }

  // ---------------------------------------------------------------------
  // bind

  /** bind's `a`: binds `bound_name` to `attrs.name` BEFORE testing the event. */
  const BindA := AssignThenType("bound_name", "name", Domain, "bind")

  const BindStart := [Transition(Ref("a"), End), Transition(Not(Ref("a")), Start)]

  const BindRule := Rule(
    "bind", None,
    map["a" := BindA],
    map[Start := BindStart],
    [SendDirective("bound", map["name" := "bound_name"])],
    NoPostlude)

  predicate IsBind(e: Event)
  {
    e.domain == Domain && e.etype == "bind"
  }

  /** The binding is written whether or not the predicate holds. */
  lemma BindAWritesEvenWhenFalse(e: Event, s: Scope)
    ensures EvalExpr(BindA, e, s).holds == IsBind(e)
    ensures EvalExpr(BindA, e, s).scope == s["bound_name" := Get(e.attrs, "name")]
  {
  }

  /** Exactly one of bind's two `start` transitions matches any event. */
  lemma BindStartExactlyOne(e: Event)
    ensures CountSat(BindRule.exprs, Transitions(BindRule.machine, Start), e) == 1
  {
    CountSat2(BindRule.exprs, BindStart[0], BindStart[1], e);
  }

  /** A bind event moves `start` to `end`; any other takes the `not a`
      self-loop, after `a` has run twice. */
  lemma BindStep(e: Event, s: Scope)
    ensures Advance(BindRule.exprs, BindRule.machine, Start, e, s)
      == Move(if IsBind(e) then End else Start, true,
              s["bound_name" := Get(e.attrs, "name")],
              if IsBind(e) then ["a"] else ["a", "a"])
  {
    assert BindStart == [BindStart[0]] + [BindStart[1]];
    FirstMatchCons(BindRule.exprs, BindStart[0], [BindStart[1]], Start, e, s);
    var s1 := s["bound_name" := Get(e.attrs, "name")];
    assert s1["bound_name" := Get(e.attrs, "name")] == s1;
    FirstMatchCons(BindRule.exprs, BindStart[1], [], Start, e, s1);
  }

  /** Firing bind yields the `bound` directive carrying the event's name;
      any other event leaves the rule in `start` with no directive. */
  lemma BindDispatch(ctx: Context, s: Scope, db: Db, e: Event)
    ensures var o := Dispatch(BindRule, ctx, Start, s, db, e);
      && o.state == Start && o.db == db
      && o.directives == (if IsBind(e)
           then [Directive("directive", "bound", map["name" := Get(e.attrs, "name")])]
           else [])
  {
    BindStep(e, map[]);
    if IsBind(e) {
      var m := Advance(BindRule.exprs, BindRule.machine, Start, e, map[]);
      assert Get(m.scope, "bound_name") == Get(e.attrs, "name");
      assert RunActions(BindRule.actions, m.scope)[0].options == map["name" := Get(e.attrs, "name")];
    }
  }

  lemma BindAlice(ctx: Context, db: Db)
    ensures Dispatch(BindRule, ctx, Start, map[], db,
                     Event("event_ops", "bind", map["name" := Str("Alice")])).directives
      == [Directive("directive", "bound", map["name" := Str("Alice")])]
  {
    BindDispatch(ctx, map[], db, Event("event_ops", "bind", map["name" := Str("Alice")]));
  }

  // ---------------------------------------------------------------------
  // or

  const OrStart := [
    Transition(Ref("or_a"), End),
    Transition(Ref("or_b"), End),
    Transition(Not(Or([Ref("or_a"), Ref("or_b")])), Start)]

  const OrRule := Rule(
    "or", None,
    map["or_a" := MkExpTypeVal("or", "a"), "or_b" := MkExpTypeVal("or", "b")],
    map[Start := OrStart],
    [SendDirective("or", map[])],
    NoPostlude)

  predicate IsTypeVal(e: Event, etype: string, val: string)
  {
    e.domain == Domain && e.etype == etype && Get(e.attrs, "val") == Str(val)
  }

  /** The two positive conditions exclude each other and the fallback is the
      negation of their disjunction: exactly one transition matches. */
  lemma OrStartExactlyOne(e: Event)
    ensures CountSat(OrRule.exprs, Transitions(OrRule.machine, Start), e) == 1
  {
    CountSat3(OrRule.exprs, OrStart[0], OrStart[1], OrStart[2], e);
    SatOr2(OrRule.exprs, Ref("or_a"), Ref("or_b"), e);
  }

  /** `or_a` is tried before `or_b`; both calls of the fallback's `or` are
      made. No binding is written. */
  lemma OrStep(e: Event, s: Scope)
    ensures var m := Advance(OrRule.exprs, OrRule.machine, Start, e, s);
      && m.matched && m.scope == s
      && (m.next == End <==> IsTypeVal(e, "or", "a") || IsTypeVal(e, "or", "b"))
      && m.next in {Start, End}
      && m.calls == (if IsTypeVal(e, "or", "a") then ["or_a"]
                     else if IsTypeVal(e, "or", "b") then ["or_a", "or_b"]
                     else ["or_a", "or_b", "or_a", "or_b"])
  {
    var x := OrRule.exprs;
    assert OrStart == [OrStart[0]] + ([OrStart[1]] + [OrStart[2]]);
    FirstMatchCons(x, OrStart[0], [OrStart[1]] + [OrStart[2]], Start, e, s);
    FirstMatchCons(x, OrStart[1], [OrStart[2]], Start, e, s);
    FirstMatchCons(x, OrStart[2], [], Start, e, s);
    EvalOr2(x, Ref("or_a"), Ref("or_b"), e, s);
  }

  lemma OrDispatch(ctx: Context, s: Scope, db: Db, e: Event)
    ensures var o := Dispatch(OrRule, ctx, Start, s, db, e);
      && o.state == Start && o.db == db
      && o.directives == (if IsTypeVal(e, "or", "a") || IsTypeVal(e, "or", "b")
                          then [Directive("directive", "or", map[])] else [])
  {
    OrStep(e, map[]);
    var m := Advance(OrRule.exprs, OrRule.machine, Start, e, map[]);
    assert RunActions(OrRule.actions, m.scope)[0].options == map[];
  }

  // ---------------------------------------------------------------------
  // and

  const AndStart := [
    Transition(Ref("a"), "s1"),
    Transition(Ref("b"), "s2"),
    Transition(Not(Or([Ref("a"), Ref("b")])), Start)]
  const AndS1 := [Transition(Ref("b"), End), Transition(Not(Ref("b")), "s1")]
  const AndS2 := [Transition(Ref("a"), End), Transition(Not(Ref("b")), "s2")]

  const AndRule := Rule(
    "and", None,
    map["a" := MkExpTypeVal("and", "a"), "b" := MkExpTypeVal("and", "b")],
    map[Start := AndStart, "s1" := AndS1, "s2" := AndS2],
    [SendDirective("and", map[])],
    NoPostlude)

  const AndDirective := Directive("directive", "and", map[])

  predicate IsAndA(e: Event) { IsTypeVal(e, "and", "a") }
  predicate IsAndB(e: Event) { IsTypeVal(e, "and", "b") }

  /** In `start`, exactly one of `a`, `b`, `not (a or b)` matches any event. */
  lemma AndStartExactlyOne(e: Event)
    ensures CountSat(AndRule.exprs, Transitions(AndRule.machine, Start), e) == 1
  {
    CountSat3(AndRule.exprs, AndStart[0], AndStart[1], AndStart[2], e);
    SatOr2(AndRule.exprs, Ref("a"), Ref("b"), e);
  }

  /** One step of `and` from each of its states, on any event. */
  lemma AndStep(st: string, e: Event, s: Scope)
    requires st in {Start, "s1", "s2"}
    ensures var m := Advance(AndRule.exprs, AndRule.machine, st, e, s);
      && m.scope == s
      && m.next == (if st == Start then (if IsAndA(e) then "s1" else if IsAndB(e) then "s2" else Start)
                    else if st == "s1" then (if IsAndB(e) then End else "s1")
                    else (if IsAndA(e) then End else "s2"))
      && (m.matched <==> !(st == "s2" && IsAndB(e)))
  {
    var x := AndRule.exprs;
    var ts := Transitions(AndRule.machine, st);
    if st == Start {
      assert ts == [ts[0]] + ([ts[1]] + [ts[2]]);
      FirstMatchCons(x, ts[0], [ts[1]] + [ts[2]], st, e, s);
      FirstMatchCons(x, ts[1], [ts[2]], st, e, s);
      FirstMatchCons(x, ts[2], [], st, e, s);
      EvalOr2(x, Ref("a"), Ref("b"), e, s);
    } else {
      assert ts == [ts[0]] + [ts[1]];
      FirstMatchCons(x, ts[0], [ts[1]], st, e, s);
      FirstMatchCons(x, ts[1], [], st, e, s);
    }
  }

  /** In `s2` the fallback is `not b`: a second `b` matches no transition and
      the rule stays in `s2` only because an unmatched state does not advance. */
  lemma AndS2SecondB(e: Event, s: Scope)
    requires IsAndB(e)
    ensures CountSat(AndRule.exprs, Transitions(AndRule.machine, "s2"), e) == 0
    ensures Advance(AndRule.exprs, AndRule.machine, "s2", e, s).next == "s2"
  {
    CountSat2(AndRule.exprs, AndS2[0], AndS2[1], e);
    NoMatchStays(AndRule.exprs, AndRule.machine, "s2", e, s);
  }

  /** `s2` as written steps exactly as it would with the symmetric fallback
      `not a`; the two differ only in whether a second `b` matched. */
  lemma AndS2FallbackSameState(e: Event, s: Scope)
    ensures var written := Advance(AndRule.exprs, AndRule.machine, "s2", e, s);
      var symmetric := FirstMatch(AndRule.exprs,
        [Transition(Ref("a"), End), Transition(Not(Ref("a")), "s2")], "s2", e, s);
      written.next == symmetric.next && written.scope == symmetric.scope
  {
    AndStep("s2", e, s);
    var ts: seq<Transition> := [Transition(Ref("a"), End), Transition(Not(Ref("a")), "s2")];
    assert ts == [ts[0]] + [ts[1]];
    FirstMatchCons(AndRule.exprs, ts[0], [ts[1]], "s2", e, s);
    FirstMatchCons(AndRule.exprs, ts[1], [], "s2", e, s);
  }

  /** The `and` action yields the `and` directive with no options. */
  lemma AndFires(ctx: Context, st: string, db: Db, e: Event)
    requires st in {"s1", "s2"}
    requires Advance(AndRule.exprs, AndRule.machine, st, e, map[]).next == End
    ensures Dispatch(AndRule, ctx, st, map[], db, e) == Dispatched(Start, map[], db, [AndDirective])
  {
    var d := RunAction(AndRule.actions[0], map[]);
    assert d.options == map[];
  }

  /** `a` then `b` fires via `s1`. */
  lemma AndInOrder(ctx: Context, db: Db, e1: Event, e2: Event)
    requires IsAndA(e1) && IsAndB(e2)
    ensures Dispatch(AndRule, ctx, Start, map[], db, e1) == Dispatched("s1", map[], db, [])
    ensures DispatchAll(AndRule, ctx, Start, map[], db, [e1, e2]) == Dispatched(Start, map[], db, [AndDirective])
  {
    AndStep(Start, e1, map[]);
    AndStep("s1", e2, map[]);
    AndFires(ctx, "s1", db, e2);
    assert [e1, e2][1..] == [e2] && [e2][1..] == [];
    assert DispatchAll(AndRule, ctx, Start, map[], db, [e1, e2])
        == DispatchAll(AndRule, ctx, "s1", map[], db, [e2]);
    assert DispatchAll(AndRule, ctx, "s1", map[], db, [e2])
        == Dispatched(Start, map[], db, [AndDirective] + []);
  }

  /** `b` then `a` fires via `s2`: the order of arrival does not matter. */
  lemma AndReversed(ctx: Context, db: Db, e1: Event, e2: Event)
    requires IsAndB(e1) && IsAndA(e2)
    ensures Dispatch(AndRule, ctx, Start, map[], db, e1) == Dispatched("s2", map[], db, [])
    ensures DispatchAll(AndRule, ctx, Start, map[], db, [e1, e2]) == Dispatched(Start, map[], db, [AndDirective])
  {
    AndStep(Start, e1, map[]);
    AndStep("s2", e2, map[]);
    AndFires(ctx, "s2", db, e2);
    assert [e1, e2][1..] == [e2] && [e2][1..] == [];
    assert DispatchAll(AndRule, ctx, Start, map[], db, [e1, e2])
        == DispatchAll(AndRule, ctx, "s2", map[], db, [e2]);
    assert DispatchAll(AndRule, ctx, "s2", map[], db, [e2])
        == Dispatched(Start, map[], db, [AndDirective] + []);
  }

  /** Any number of `a` events without a `b` never fires: after the first
      the rule sits in `s1` on its `not b` self-loop. */
  lemma {:induction false} AndOnlyANeverFires(ctx: Context, st: string, db: Db, es: seq<Event>)
    requires st in {Start, "s1"}
    requires forall i :: 0 <= i < |es| ==> IsAndA(es[i])
    ensures var o := DispatchAll(AndRule, ctx, st, map[], db, es);
      o.directives == [] && o.db == db && o.scope == map[]
      && o.state == (if es == [] then st else "s1")
    decreases es
  {
    if es != [] {
      AndStep(st, es[0], map[]);
      AndOnlyANeverFires(ctx, "s1", db, es[1..]);
    }
  }
}
