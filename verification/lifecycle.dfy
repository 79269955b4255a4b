/** A rule as the matcher consumes it, and what one event does to it: the
    state-machine step, then on firing the actions and the `fired` and
    `always` hooks and a reset to `start`; on a not-fired event the
    `notfired` and `always` hooks. */
module Lifecycle {
  import opened Values
  import opened Conditions
  import opened Machine

  /** The only visible output of a firing: `{type: 'directive', name, options}`. */
  datatype Directive = Directive(kind: string, name: string, options: map<string, Value>)

  /** An action that sends a directive whose options are read from scope
      variables (option name to variable name). */
  datatype Action = SendDirective(name: string, options: map<string, string>)

  /** A postlude statement: write a scope variable to an entity variable of
      the pico, or to an app variable of the ruleset. */
  datatype Hook = PutEntVar(key: string, fromVar: string) | PutAppVar(key: string, fromVar: string)

  datatype Postlude = Postlude(fired: Option<Hook>, notfired: Option<Hook>, always: Option<Hook>)

  /** The `select.graph`: domain to type to the event expressions it feeds. */
  type Graph = map<string, map<string, set<string>>>

  datatype Rule = Rule(
    name: string,
    graph: Option<Graph>,
    exprs: map<string, EventExpr>,
    machine: StateMachine,
    actions: seq<Action>,
    postlude: Postlude)

  /** The pico the rule is installed on and the id of its ruleset. */
  datatype Context = Context(picoId: string, rid: string)

  /** The persistent variable store: entity variables keyed by (pico id, name)
      and app variables keyed by (ruleset id, name). */
  datatype Db = Db(ent: map<(string, string), Value>, app: map<(string, string), Value>)

  /** A variable never written reads as `undefined`. */
  function EntVar(db: Db, picoId: string, key: string): Value
  {
    if (picoId, key) in db.ent then db.ent[(picoId, key)] else Undefined
  }

  function AppVar(db: Db, rid: string, key: string): Value
  {
    if (rid, key) in db.app then db.app[(rid, key)] else Undefined
  }

  /** A rule without a graph is offered every event; with one, only the
      domain/type pairs the graph lists. */
  predicate Selected(g: Option<Graph>, e: Event)
  {
    g.None? || (e.domain in g.value && e.etype in g.value[e.domain])
  }

  function RunAction(a: Action, s: Scope): Directive
  {
    Directive("directive", a.name, map k | k in a.options :: Get(s, a.options[k]))
  }

  /** An action reads the scope only through its option variables: two scopes
      that agree on those give the same directive, whatever else they bind. */
  lemma RunActionReadsOnlyOptions(a: Action, s1: Scope, s2: Scope)
    requires forall k :: k in a.options ==> Get(s1, a.options[k]) == Get(s2, a.options[k])
    ensures RunAction(a, s1) == RunAction(a, s2)
  {
  }

  /** The directives of the action pipeline, in declared order. */
  function RunActions(acts: seq<Action>, s: Scope): (ds: seq<Directive>)
    ensures |ds| == |acts|
    ensures forall i :: 0 <= i < |acts| ==> ds[i] == RunAction(acts[i], s)
  {
    if acts == [] then [] else [RunAction(acts[0], s)] + RunActions(acts[1..], s)
  }

  /** The whole pipeline reads only the actions' option variables: scopes
      that agree on every one of them give the same directives. */
  lemma RunActionsReadOnlyOptions(acts: seq<Action>, s1: Scope, s2: Scope)
    requires forall i, k :: 0 <= i < |acts| && k in acts[i].options ==>
      Get(s1, acts[i].options[k]) == Get(s2, acts[i].options[k])
    ensures RunActions(acts, s1) == RunActions(acts, s2)
  {
    forall i | 0 <= i < |acts|
      ensures RunAction(acts[i], s1) == RunAction(acts[i], s2)
    {
      RunActionReadsOnlyOptions(acts[i], s1, s2);
    }
  }

  /** Runs an optional hook against the store; an absent hook changes nothing. */
  function RunHook(h: Option<Hook>, ctx: Context, s: Scope, db: Db): Db
  {
    match h
    case None => db
    case Some(PutEntVar(k, v)) => db.(ent := db.ent[(ctx.picoId, k) := Get(s, v)])
    case Some(PutAppVar(k, v)) => db.(app := db.app[(ctx.rid, k) := Get(s, v)])
  }

  /** The rule's persistent state and store after one event, and the
      directives that event produced. */
  datatype Dispatched = Dispatched(state: string, scope: Scope, db: Db, directives: seq<Directive>)

  /** One event delivered to one rule in state `state` with scope `scope`.
      An event the graph does not select leaves everything as it is. In
      `start` a fresh scope opens the cycle. Reaching `end` fires: the
      actions run, then `fired` and `always`, and the rule resets to `start`
      with an empty scope. An event that begins and ends in `start` has not
      fired the rule: `notfired` then `always` run. A rule part-way through
      its pattern runs no hook. */
  function Dispatch(r: Rule, ctx: Context, state: string, scope: Scope, db: Db, e: Event): (o: Dispatched)
    ensures state != End ==> o.state != End
    ensures o.directives != [] ==> o.state == Start && o.scope == map[]
  {
    if !Selected(r.graph, e) then Dispatched(state, scope, db, [])
    else
      var s0 := if state == Start then map[] else scope;
      var m := Advance(r.exprs, r.machine, state, e, s0);
      if m.next == End then
        var ds := RunActions(r.actions, m.scope);
        var db1 := RunHook(r.postlude.fired, ctx, m.scope, db);
        var db2 := RunHook(r.postlude.always, ctx, m.scope, db1);
        Dispatched(Start, map[], db2, ds)
      else if state == Start && m.next == Start then
        var db1 := RunHook(r.postlude.notfired, ctx, m.scope, db);
        var db2 := RunHook(r.postlude.always, ctx, m.scope, db1);
        Dispatched(Start, m.scope, db2, [])
      else
        Dispatched(m.next, m.scope, db, [])
  }

  /** A stream of events delivered one at a time, in arrival order; the
      directives of all of them, in order. */
  function DispatchAll(r: Rule, ctx: Context, state: string, scope: Scope, db: Db, es: seq<Event>): Dispatched
    decreases es
  {
    if es == [] then Dispatched(state, scope, db, [])
    else
      var o := Dispatch(r, ctx, state, scope, db, es[0]);
      var rest := DispatchAll(r, ctx, o.state, o.scope, o.db, es[1..]);
      Dispatched(rest.state, rest.scope, rest.db, o.directives + rest.directives)
  }

  /** A rule sitting in `start` does not depend on what its old scope held:
      after a reset it behaves exactly as a freshly installed rule. */
  lemma StartIgnoresOldScope(r: Rule, ctx: Context, s: Scope, db: Db, e: Event)
    requires Selected(r.graph, e)
    ensures Dispatch(r, ctx, Start, s, db, e) == Dispatch(r, ctx, Start, map[], db, e)
  {
  }

  /** An event after which the `start` transitions leave the rule in `start`
      (by a self-loop such as `not expr_0`, or because none holds) produces
      no directive; only `notfired` and `always` may touch the store. */
  lemma IrrelevantEventInStart(r: Rule, ctx: Context, s: Scope, db: Db, e: Event)
    requires Selected(r.graph, e)
    requires Advance(r.exprs, r.machine, Start, e, map[]).next == Start
    ensures var o := Dispatch(r, ctx, Start, s, db, e);
      && o.state == Start && o.directives == []
      && o.db == RunHook(r.postlude.always, ctx, o.scope, RunHook(r.postlude.notfired, ctx, o.scope, db))
  {
  }

  /** A rule part-way through its pattern (neither in `start` nor firing on
      this event) runs no hook, so the store is untouched. */
  lemma PendingTouchesNoStore(r: Rule, ctx: Context, state: string, s: Scope, db: Db, e: Event)
    requires state != Start
    requires Advance(r.exprs, r.machine, state, e, s).next != End
    ensures Dispatch(r, ctx, state, s, db, e).db == db
    ensures Dispatch(r, ctx, state, s, db, e).directives == []
  {
  }

  /** Writing a hook's variable and reading it back gives the scope's value. */
  lemma HookRoundTrip(h: Hook, ctx: Context, s: Scope, db: Db)
    ensures h.PutEntVar? ==> EntVar(RunHook(Some(h), ctx, s, db), ctx.picoId, h.key) == Get(s, h.fromVar)
    ensures h.PutAppVar? ==> AppVar(RunHook(Some(h), ctx, s, db), ctx.rid, h.key) == Get(s, h.fromVar)
  {
  }
}
