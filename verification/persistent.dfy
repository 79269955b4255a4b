/** The `io.picolabs.persistent` ruleset: rules `store_my_name` and
    `store_appvar`, each of the compiled form of
    `select when store <type> <attr> re#^(.*)$# setting(<var>)` with one
    `send_directive` and an `always` postlude that writes `<var>` to the
    store; and the shared functions `getName` and `getAppVar`. */
module Persistent {
  import opened Values
  import opened LineRegex
  import opened Conditions
  import opened Machine
  import opened Lifecycle
  import opened Engine

  /** Both rules' `start`: `expr_0` to `end`, else the `not expr_0` self-loop. */
  const CaptureStart := [Transition(Ref("expr_0"), End), Transition(Not(Ref("expr_0")), Start)]

  /** A rule selected for domain `store` and type `etype`, whose `expr_0`
      captures attribute `attr` into `v`, whose action sends directive `dname`
      with option `opt` read from `v`, and whose only hook is `always`. */
  function CaptureRule(name: string, etype: string, attr: string, v: string,
                       dname: string, opt: string, always: Hook): Rule
  {
    Rule(name,
         Some(map["store" := map[etype := {"expr_0"}]]),
         map["expr_0" := CaptureWholeLine(attr, v)],
         map[Start := CaptureStart],
         [SendDirective(dname, map[opt := v])],
         Postlude(None, None, Some(always)))
  }

  const StoreMyName := CaptureRule("store_my_name", "name", "name", "my_name",
                                   "store_name", "name", PutEntVar("name", "my_name"))

  const StoreAppvar := CaptureRule("store_appvar", "appvar", "appvar", "my_appvar",
                                   "store_appvar", "appvar", PutAppVar("appvar", "my_appvar"))

  /** `getName`: the pico's entity variable `name`. */
  function GetName(db: Db, ctx: Context): Value
  {
    EntVar(db, ctx.picoId, "name")
  }

  /** `getAppVar`: the ruleset's app variable `appvar`, shared by every pico. */
  function GetAppVar(db: Db, ctx: Context): Value
  {
    AppVar(db, ctx.rid, "appvar")
  }

  /** The string `expr_0` matches: `attrs[attr] || ''`, converted to a string. */
  function AttrText(e: Event, attr: string): string
  {
    ToJSString(OrEmpty(Get(e.attrs, attr)))
  }

  predicate IsStore(e: Event, etype: string)
  {
    e.domain == "store" && e.etype == etype
  }

  /** `expr_0` holds exactly when the attribute text has no line terminator;
      then it binds the whole text, and otherwise it leaves the scope alone. */
  lemma Expr0Spec(attr: string, v: string, e: Event, s: Scope)
    ensures var r := EvalExpr(CaptureWholeLine(attr, v), e, s);
      && (r.holds <==> NoLineTerminator(AttrText(e, attr)))
      && (r.holds ==> r.scope == s[v := Str(AttrText(e, attr))])
      && (!r.holds ==> r.scope == s)
  {
    ExecWholeLineSpec(AttrText(e, attr));
  }

  /** A missing or falsy attribute is matched as the empty string. */
  lemma FalsyAttrCapturesEmpty(attr: string, v: string, e: Event, s: Scope)
    requires !Truthy(Get(e.attrs, attr))
    ensures EvalExpr(CaptureWholeLine(attr, v), e, s) == Effect(true, s[v := Str("")])
  {
    Expr0Spec(attr, v, e, s);
  }

  /** Exactly one of `expr_0` and `not expr_0` holds for any event. */
  lemma CaptureStartExactlyOne(name: string, etype: string, attr: string, v: string,
                               dname: string, opt: string, always: Hook, e: Event)
    ensures var r := CaptureRule(name, etype, attr, v, dname, opt, always);
      CountSat(r.exprs, Transitions(r.machine, Start), e) == 1
  {
    var r := CaptureRule(name, etype, attr, v, dname, opt, always);
    CountSat2(r.exprs, CaptureStart[0], CaptureStart[1], e);
  }

  /** From `start`: a matching attribute moves to `end` after one call of
      `expr_0`; otherwise `expr_0` runs twice, writes nothing, and the
      self-loop keeps `start`. */
  lemma CaptureStep(name: string, etype: string, attr: string, v: string,
                    dname: string, opt: string, always: Hook, e: Event, s: Scope)
    ensures var r := CaptureRule(name, etype, attr, v, dname, opt, always);
      var ok := NoLineTerminator(AttrText(e, attr));
      Advance(r.exprs, r.machine, Start, e, s)
        == Move(if ok then End else Start, true,
                if ok then s[v := Str(AttrText(e, attr))] else s,
                if ok then ["expr_0"] else ["expr_0", "expr_0"])
  {
    var r := CaptureRule(name, etype, attr, v, dname, opt, always);
    Expr0Spec(attr, v, e, s);
    assert CaptureStart == [CaptureStart[0]] + [CaptureStart[1]];
    FirstMatchCons(r.exprs, CaptureStart[0], [CaptureStart[1]], Start, e, s);
    FirstMatchCons(r.exprs, CaptureStart[1], [], Start, e, s);
  }

  /** One event delivered to either rule. An event outside the rule's graph
      changes nothing. A selected event whose attribute text matches fires:
      the directive carries the text and `always` writes it. One that does not
      match leaves the rule in `start`, and `always` writes `undefined`, the
      value of the unbound variable in the fresh scope. */
  lemma CaptureDispatch(name: string, etype: string, attr: string, v: string,
                        dname: string, opt: string, always: Hook,
                        ctx: Context, st: string, s: Scope, db: Db, e: Event)
    ensures var r := CaptureRule(name, etype, attr, v, dname, opt, always);
      !IsStore(e, etype) ==> Dispatch(r, ctx, st, s, db, e) == Dispatched(st, s, db, [])
    ensures var r := CaptureRule(name, etype, attr, v, dname, opt, always);
      var o := Dispatch(r, ctx, Start, s, db, e);
      var txt := AttrText(e, attr);
      IsStore(e, etype) ==>
        if NoLineTerminator(txt) then
          o == Dispatched(Start, map[], RunHook(Some(always), ctx, map[v := Str(txt)], db),
                          [Directive("directive", dname, map[opt := Str(txt)])])
        else
          o == Dispatched(Start, map[], RunHook(Some(always), ctx, map[], db), [])
  {
    var r := CaptureRule(name, etype, attr, v, dname, opt, always);
    if IsStore(e, etype) {
      CaptureStep(name, etype, attr, v, dname, opt, always, e, map[]);
      var txt := AttrText(e, attr);
      if NoLineTerminator(txt) {
        var d := RunAction(r.actions[0], map[v := Str(txt)]);
        assert d.options == map[opt := Str(txt)];
      }
    }
  }

  /** store_my_name: `getName` returns exactly the name the event carried,
      the directive `store_name` carries it too, and app variables are
      untouched. */
  lemma StoreNameRoundTrip(ctx: Context, db: Db, e: Event)
    requires IsStore(e, "name") && NoLineTerminator(AttrText(e, "name"))
    ensures var o := Dispatch(StoreMyName, ctx, Start, map[], db, e);
      && GetName(o.db, ctx) == Str(AttrText(e, "name"))
      && o.directives == [Directive("directive", "store_name", map["name" := Str(AttrText(e, "name"))])]
      && o.db.app == db.app
      && o.state == Start
  {
    CaptureDispatch("store_my_name", "name", "name", "my_name", "store_name", "name",
                    PutEntVar("name", "my_name"), ctx, Start, map[], db, e);
  }

  /** The round trip for a plain string name: `"Alice"` is stored as `"Alice"`. */
  lemma StoreNameString(ctx: Context, db: Db, e: Event, n: string)
    requires IsStore(e, "name") && Get(e.attrs, "name") == Str(n)
    requires NoLineTerminator(n)
    ensures GetName(Dispatch(StoreMyName, ctx, Start, map[], db, e).db, ctx) == Str(n)
  {
    assert AttrText(e, "name") == n;
    StoreNameRoundTrip(ctx, db, e);
  }

  /** store_appvar: `getAppVar` from ANY pico sharing the ruleset returns the
      stored text; entity variables are untouched. */
  lemma StoreAppvarRoundTrip(ctx: Context, other: Context, db: Db, e: Event)
    requires IsStore(e, "appvar") && NoLineTerminator(AttrText(e, "appvar"))
    requires other.rid == ctx.rid
    ensures var o := Dispatch(StoreAppvar, ctx, Start, map[], db, e);
      && GetAppVar(o.db, other) == Str(AttrText(e, "appvar"))
      && o.directives == [Directive("directive", "store_appvar", map["appvar" := Str(AttrText(e, "appvar"))])]
      && o.db.ent == db.ent
      && o.state == Start
  {
    CaptureDispatch("store_appvar", "appvar", "appvar", "my_appvar", "store_appvar", "appvar",
                    PutAppVar("appvar", "my_appvar"), ctx, Start, map[], db, e);
  }

  /** Events the graph does not select never reach the predicates: store_my_name
      ignores everything but `store`/`name`, store_appvar everything but
      `store`/`appvar`. */
  lemma GraphSelection(e: Event)
    ensures Selected(StoreMyName.graph, e) <==> IsStore(e, "name")
    ensures Selected(StoreAppvar.graph, e) <==> IsStore(e, "appvar")
  {
  }

  /** What store_my_name's `always` hook writes for a selected event: the
      captured name, or `undefined` when the name does not match and
      `my_name` stays unbound. */
  function NameWritten(e: Event): Value
  {
    if NoLineTerminator(AttrText(e, "name")) then Str(AttrText(e, "name")) else Undefined
  }

  /** Event `i` is the last event of the stream that store_my_name selects. */
  predicate LastSelectedAt(es: seq<Event>, i: int)
  {
    0 <= i < |es| && IsStore(es[i], "name")
    && forall j :: i < j < |es| ==> !IsStore(es[j], "name")
  }

  /** One event delivered to store_my_name at rest: it stays at rest, app
      variables are untouched, and `name` becomes what the hook writes if
      the event is selected, and is unchanged otherwise. */
  lemma NameStep(ctx: Context, db: Db, e: Event)
    ensures var o := Dispatch(StoreMyName, ctx, Start, map[], db, e);
      && o.state == Start && o.scope == map[] && o.db.app == db.app
      && GetName(o.db, ctx) == (if IsStore(e, "name") then NameWritten(e) else GetName(db, ctx))
  {
    CaptureDispatch("store_my_name", "name", "name", "my_name", "store_name", "name",
                    PutEntVar("name", "my_name"), ctx, Start, map[], db, e);
  }

  /** After any stream of events, `getName` returns what the last selected
      `store`/`name` event wrote (its name, or `undefined` when the name did
      not match); with no selected event it returns the old value. Events
      outside the graph never change it. The rule is back at rest and app
      variables are untouched. */
  lemma {:induction false} GetNameReturnsLast(ctx: Context, db: Db, es: seq<Event>)
    ensures var o := DispatchAll(StoreMyName, ctx, Start, map[], db, es);
      && o.state == Start && o.scope == map[] && o.db.app == db.app
      && ((forall i :: 0 <= i < |es| ==> !IsStore(es[i], "name")) ==> GetName(o.db, ctx) == GetName(db, ctx))
      && (forall i :: LastSelectedAt(es, i) ==> GetName(o.db, ctx) == NameWritten(es[i]))
    decreases es
  {
    if es != [] {
      var o1 := Dispatch(StoreMyName, ctx, Start, map[], db, es[0]);
      NameStep(ctx, db, es[0]);
      GetNameReturnsLast(ctx, o1.db, es[1..]);
      var o := DispatchAll(StoreMyName, ctx, Start, map[], db, es);
      assert forall j :: 1 <= j < |es| ==> es[j] == es[1..][j - 1];
      forall i | LastSelectedAt(es, i)
        ensures GetName(o.db, ctx) == NameWritten(es[i])
      {
        if i > 0 {
          assert LastSelectedAt(es[1..], i - 1);
        }
      }
    }
  }

  /** The round trip through a stream of matching names: the last one wins. */
  lemma MatchingStreamKeepsLast(ctx: Context, db: Db, es: seq<Event>)
    requires es != []
    requires forall i :: 0 <= i < |es| ==> IsStore(es[i], "name") && NoLineTerminator(AttrText(es[i], "name"))
    ensures GetName(DispatchAll(StoreMyName, ctx, Start, map[], db, es).db, ctx) == Str(AttrText(es[|es| - 1], "name"))
  {
    GetNameReturnsLast(ctx, db, es);
    assert LastSelectedAt(es, |es| - 1);
  }

  /** An installed store_my_name rule receives a `store`/`name` event and a
      query of `getName` follows: the query returns the name the event carried. */
  method SignalThenGetName(ctx: Context, store: Store, e: Event) returns (ds: seq<Directive>, name: Value)
    requires IsStore(e, "name") && NoLineTerminator(AttrText(e, "name"))
    modifies store
    ensures name == Str(AttrText(e, "name"))
    ensures ds == [Directive("directive", "store_name", map["name" := name])]
    ensures store.entVars == old(store.entVars)[(ctx.picoId, "name") := name]
    ensures store.appVars == old(store.appVars)
  {
    var rule := new RuleInstance(StoreMyName, ctx);
    StoreNameRoundTrip(ctx, store.Contents(), e);
    ds := rule.Dispatch(e, store);
    name := store.GetEntVar(ctx.picoId, "name");
  }
}
