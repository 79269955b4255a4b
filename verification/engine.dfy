/** The matcher at run time: a rule installed on a pico keeps its current
    state and its scope across events and updates them in place; the
    persistent variable store is updated in place by the postlude hooks. */
module Engine {
  import opened Values
  import opened LineRegex
  import opened Conditions
  import opened Machine
  import opened Lifecycle

  /** The persistent variable store, read and written synchronously. */
  class Store {
    var entVars: map<(string, string), Value>
    var appVars: map<(string, string), Value>

    constructor ()
      ensures entVars == map[] && appVars == map[]
    {
      entVars, appVars := map[], map[];
    }

    function Contents(): Db
      reads this
    {
      Db(entVars, appVars)
    }

    method PutEntVar(picoId: string, key: string, v: Value)
      modifies this
      ensures entVars == old(entVars)[(picoId, key) := v]
      ensures appVars == old(appVars)
    {
      entVars := entVars[(picoId, key) := v];
    }

    method PutAppVar(rid: string, key: string, v: Value)
      modifies this
      ensures appVars == old(appVars)[(rid, key) := v]
      ensures entVars == old(entVars)
    {
      appVars := appVars[(rid, key) := v];
    }

    method GetEntVar(picoId: string, key: string) returns (v: Value)
      ensures v == EntVar(Contents(), picoId, key)
    {
      v := if (picoId, key) in entVars then entVars[(picoId, key)] else Undefined;
    }

    method GetAppVar(rid: string, key: string) returns (v: Value)
      ensures v == AppVar(Contents(), rid, key)
    {
      v := if (rid, key) in appVars then appVars[(rid, key)] else Undefined;
    }
  }

  /** One rule installed on one pico. */
  class RuleInstance {
    const rule: Rule
    const ctx: Context
    var state: string
    var scope: Scope

    /** The rule is never left sitting in `end` between events. */
    ghost predicate Valid()
      reads this
    {
      state != End
    }

    constructor (rule: Rule, ctx: Context)
      ensures Valid()
      ensures this.rule == rule && this.ctx == ctx
      ensures state == Start && scope == map[]
    {
      this.rule := rule;
      this.ctx := ctx;
      state := Start;
      scope := map[];
    }

    /** Calls one event expression, which writes its bindings into the scope. */
    method CallExpr(x: EventExpr, e: Event) returns (b: bool)
      modifies this`scope
      ensures b == EvalExpr(x, e, old(scope)).holds
      ensures scope == EvalExpr(x, e, old(scope)).scope
    {
      match x {
        case TypeVal(d, t, a, v) =>
          b := e.domain == d && e.etype == t && Get(e.attrs, a) == Str(v);
        case AssignThenType(n, a, d, t) =>
          scope := scope[n := Get(e.attrs, a)];
          b := e.domain == d && e.etype == t;
        case CaptureWholeLine(a, n) =>
          var m := ExecWholeLine(ToJSString(OrEmpty(Get(e.attrs, a))));
          if m.None? {
            return false;
          }
          var matches: seq<string> := [];
          if |m.value| > 1 {
            matches := matches + [m.value[1]];
          }
          scope := scope[n := if matches != [] then Str(matches[0]) else Undefined];
          b := true;
      }
    }

    /** Evaluates a condition tree against the event, left to right. */
    method Evaluate(c: Cond, e: Event) returns (b: bool)
      modifies this`scope
      ensures b == EvalCond(rule.exprs, c, e, old(scope)).holds
      ensures scope == EvalCond(rule.exprs, c, e, old(scope)).scope
      decreases c
    {
      match c {
        case Ref(n) =>
          if n in rule.exprs {
            b := CallExpr(rule.exprs[n], e);
          } else {
            b := false;
          }
        case Not(c1) =>
          b := Evaluate(c1, e);
          b := !b;
        case Or(cs) =>
          // every child is evaluated, even after one has held
          b := false;
          var i := 0;
          while i < |cs|
            invariant 0 <= i <= |cs|
            invariant EvalAll(rule.exprs, cs, e, old(scope)).holds == (b || EvalAll(rule.exprs, cs[i..], e, scope).holds)
            invariant EvalAll(rule.exprs, cs, e, old(scope)).scope == EvalAll(rule.exprs, cs[i..], e, scope).scope
          {
            assert cs[i..][0] == cs[i] && cs[i..][1..] == cs[i + 1..];
            var bi := Evaluate(cs[i], e);
            b := b || bi;
            i := i + 1;
          }
      }
    }

    /** Tries the current state's transitions in listed order and takes the
        first whose condition holds; if none holds the state is unchanged. */
    method Step(e: Event) returns (matched: bool)
      modifies this`state, this`scope
      ensures var m := Advance(rule.exprs, rule.machine, old(state), e, old(scope));
        state == m.next && scope == m.scope && matched == m.matched
    {
      var ts := Transitions(rule.machine, state);
      var i := 0;
      while i < |ts|
        invariant 0 <= i <= |ts| && state == old(state)
        invariant var whole := FirstMatch(rule.exprs, ts, state, e, old(scope));
          var rest := FirstMatch(rule.exprs, ts[i..], state, e, scope);
          whole.next == rest.next && whole.matched == rest.matched && whole.scope == rest.scope
      {
        assert ts[i..][0] == ts[i] && ts[i..][1..] == ts[i + 1..];
        var b := Evaluate(ts[i].cond, e);
        if b {
          state := ts[i].next;
          return true;
        }
        i := i + 1;
      }
      matched := false;
    }

    /** Runs one postlude hook against the store, reading the scope. */
    method RunHookOn(h: Option<Hook>, store: Store)
      modifies store
      ensures store.Contents() == RunHook(h, ctx, scope, old(store.Contents()))
    {
      match h {
        case None =>
        case Some(PutEntVar(k, v)) => store.PutEntVar(ctx.picoId, k, Get(scope, v));
        case Some(PutAppVar(k, v)) => store.PutAppVar(ctx.rid, k, Get(scope, v));
      }
    }

    /** Delivers one event to the rule: step, then the firing or not-firing
        lifecycle; returns the directives produced. */
    method Dispatch(e: Event, store: Store) returns (ds: seq<Directive>)
      requires Valid()
      modifies this`state, this`scope, store
      ensures Valid()
      ensures var o := Lifecycle.Dispatch(rule, ctx, old(state), old(scope), old(store.Contents()), e);
        state == o.state && scope == o.scope && store.Contents() == o.db && ds == o.directives
    {
      if !Selected(rule.graph, e) {
        return [];
      }
      var began := state;
      if state == Start {
        scope := map[];
      }
      var _ := Step(e);
      if state == End {
        ds := RunActions(rule.actions, scope);
        RunHookOn(rule.postlude.fired, store);
        RunHookOn(rule.postlude.always, store);
        state, scope := Start, map[];
      } else if began == Start && state == Start {
        RunHookOn(rule.postlude.notfired, store);
        RunHookOn(rule.postlude.always, store);
        ds := [];
      } else {
        ds := [];
      }
    }
  }
}
