/** Event expressions (the named, scope-writing predicates of a rule's
    `eventexprs`) and the condition trees built over them: a predicate name,
    `['not', c]` or `['or', c1, c2, ...]`. */
module Conditions {
  import opened Values
  import opened LineRegex

  /** The shapes of event expression the rules define. */
  datatype EventExpr =
      /** Domain and type equal, and attribute `attr` strictly equal to the string `val`. */
    | TypeVal(domain: string, etype: string, attr: string, val: string)
      /** First bind `name := attrs[attr]` into scope, then test domain and type. */
    | AssignThenType(name: string, attr: string, domain: string, etype: string)
      /** `attr re#^(.*)$# setting(name)`: match `attrs[attr] || ''` and bind the capture. */
    | CaptureWholeLine(attr: string, name: string)

  datatype Cond = Ref(name: string) | Not(c: Cond) | Or(cs: seq<Cond>)

  /** The outcome of one predicate call: its truth value and the scope after it. */
  datatype Effect = Effect(holds: bool, scope: Scope)

  /** The outcome of a condition: truth value, scope after it, and the names
      of the event expressions it called, in call order. */
  datatype Eval = Eval(holds: bool, scope: Scope, calls: seq<string>)

  /** One call of an event expression, writing into the scope as it goes. */
  function EvalExpr(x: EventExpr, e: Event, s: Scope): Effect
  {
    match x
    case TypeVal(d, t, a, v) =>
      Effect(e.domain == d && e.etype == t && Get(e.attrs, a) == Str(v), s)
    case AssignThenType(n, a, d, t) =>
      var s1 := s[n := Get(e.attrs, a)];
      Effect(e.domain == d && e.etype == t, s1)
    case CaptureWholeLine(a, n) =>
      var m := ExecWholeLine(ToJSString(OrEmpty(Get(e.attrs, a))));
      if m.None? then Effect(false, s)
      else
        var matches := if |m.value| > 1 then [m.value[1]] else [];
        Effect(true, s[n := if matches != [] then Str(matches[0]) else Undefined])
  }

  /** Evaluates a condition. `Not` evaluates its child; `Or` evaluates EVERY
      child, left to right, without short-circuit, so that each child's
      bindings are made. A name with no event expression does not hold. */
  function EvalCond(exprs: map<string, EventExpr>, c: Cond, e: Event, s: Scope): Eval
    decreases c
  {
    match c
    case Ref(n) =>
      if n in exprs then
        var r := EvalExpr(exprs[n], e, s);
        Eval(r.holds, r.scope, [n])
      else Eval(false, s, [n])
    case Not(c1) =>
      var r := EvalCond(exprs, c1, e, s);
      Eval(!r.holds, r.scope, r.calls)
    case Or(cs) => EvalAll(exprs, cs, e, s)
  }

  function EvalAll(exprs: map<string, EventExpr>, cs: seq<Cond>, e: Event, s: Scope): Eval
    decreases cs
  {
    if cs == [] then Eval(false, s, [])
    else
      var h := EvalCond(exprs, cs[0], e, s);
      var t := EvalAll(exprs, cs[1..], e, h.scope);
      Eval(h.holds || t.holds, t.scope, h.calls + t.calls)
  }

  // ---------------------------------------------------------------------
  // Reference semantics, independent of the evaluator

  /** Whether an event expression holds of an event; none of them reads the scope. */
  predicate ExprHolds(x: EventExpr, e: Event)
  {
    match x
    case TypeVal(d, t, a, v) => e.domain == d && e.etype == t && Get(e.attrs, a) == Str(v)
    case AssignThenType(_, _, d, t) => e.domain == d && e.etype == t
    case CaptureWholeLine(a, _) => NoLineTerminator(ToJSString(OrEmpty(Get(e.attrs, a))))
  }

  /** Plain boolean meaning of a condition: `or` is an existential. */
  predicate Sat(exprs: map<string, EventExpr>, c: Cond, e: Event)
    decreases c
  {
    match c
    case Ref(n) => n in exprs && ExprHolds(exprs[n], e)
    case Not(c1) => !Sat(exprs, c1, e)
    case Or(cs) => exists i :: 0 <= i < |cs| && Sat(exprs, cs[i], e)
  }

  /** The names a condition refers to, in tree order, repeats included. */
  function Refs(c: Cond): seq<string>
    decreases c
  {
    match c
    case Ref(n) => [n]
    case Not(c1) => Refs(c1)
    case Or(cs) => RefsAll(cs)
  }

  function RefsAll(cs: seq<Cond>): seq<string>
    decreases cs
  {
    if cs == [] then [] else Refs(cs[0]) + RefsAll(cs[1..])
  }

  /** The scope variables an event expression may write. */
  function Writes(x: EventExpr): set<string>
  {
    match x
    case TypeVal(_, _, _, _) => {}
    case AssignThenType(n, _, _, _) => {n}
    case CaptureWholeLine(_, n) => {n}
  }

  /** The scope variables a condition may write through the expressions it calls. */
  function CondWrites(exprs: map<string, EventExpr>, c: Cond): set<string>
  {
    NamesWrite(exprs, Refs(c))
  }

  function NamesWrite(exprs: map<string, EventExpr>, ns: seq<string>): set<string>
  {
    set i, w | 0 <= i < |ns| && ns[i] in exprs && w in Writes(exprs[ns[i]]) :: w
  }

  /** `s2` agrees with `s1` outside `ws` and drops none of its bindings. */
  predicate ChangesOnly(s1: Scope, s2: Scope, ws: set<string>)
  {
    s1.Keys <= s2.Keys && forall k :: k in s2 && k !in ws ==> k in s1 && s2[k] == s1[k]
  }

  // ---------------------------------------------------------------------
  // Properties of the evaluator

  /** A single event expression: its truth value is the reference one, and it
      writes only its own variables. */
  lemma EvalExprSpec(x: EventExpr, e: Event, s: Scope)
    ensures EvalExpr(x, e, s).holds == ExprHolds(x, e)
    ensures ChangesOnly(s, EvalExpr(x, e, s).scope, Writes(x))
  {
    if x.CaptureWholeLine? {
      ExecWholeLineSpec(ToJSString(OrEmpty(Get(e.attrs, x.attr))));
    }
  }

  /** The evaluator computes the plain boolean meaning, whatever scope it
      starts from: bindings never change a condition's truth value. */
  lemma {:induction false} EvalCondTruth(exprs: map<string, EventExpr>, c: Cond, e: Event, s: Scope)
    ensures EvalCond(exprs, c, e, s).holds == Sat(exprs, c, e)
    decreases c
  {
    match c
    case Ref(n) =>
      if n in exprs { EvalExprSpec(exprs[n], e, s); }
    case Not(c1) =>
      EvalCondTruth(exprs, c1, e, s);
    case Or(cs) =>
      EvalAllTruth(exprs, cs, e, s);
  }

  lemma {:induction false} EvalAllTruth(exprs: map<string, EventExpr>, cs: seq<Cond>, e: Event, s: Scope)
    ensures EvalAll(exprs, cs, e, s).holds == exists i :: 0 <= i < |cs| && Sat(exprs, cs[i], e)
    decreases cs
  {
    if cs != [] {
      var h := EvalCond(exprs, cs[0], e, s);
      EvalCondTruth(exprs, cs[0], e, s);
      EvalAllTruth(exprs, cs[1..], e, h.scope);
      if exists i :: 0 <= i < |cs| && Sat(exprs, cs[i], e) {
        var i :| 0 <= i < |cs| && Sat(exprs, cs[i], e);
        if i > 0 { assert cs[1..][i - 1] == cs[i]; }
      }
      if exists i :: 0 <= i < |cs[1..]| && Sat(exprs, cs[1..][i], e) {
        var i :| 0 <= i < |cs[1..]| && Sat(exprs, cs[1..][i], e);
        assert cs[i + 1] == cs[1..][i];
      }
    }
  }

  /** Every evaluation calls the referenced event expressions exactly in tree
      order: `not` calls its child once, `or` calls all of its children. */
  lemma {:induction false} EvalCondCalls(exprs: map<string, EventExpr>, c: Cond, e: Event, s: Scope)
    ensures EvalCond(exprs, c, e, s).calls == Refs(c)
    decreases c
  {
    match c
    case Ref(n) =>
    case Not(c1) =>
      EvalCondCalls(exprs, c1, e, s);
    case Or(cs) =>
      EvalAllCalls(exprs, cs, e, s);
  }

  lemma {:induction false} EvalAllCalls(exprs: map<string, EventExpr>, cs: seq<Cond>, e: Event, s: Scope)
    ensures EvalAll(exprs, cs, e, s).calls == RefsAll(cs)
    decreases cs
  {
    if cs != [] {
      EvalCondCalls(exprs, cs[0], e, s);
      EvalAllCalls(exprs, cs[1..], e, EvalCond(exprs, cs[0], e, s).scope);
    }
  }

  /** Bindings are never rolled back, and a condition writes only the
      variables of the expressions it refers to. */
  lemma {:induction false} EvalCondFrame(exprs: map<string, EventExpr>, c: Cond, e: Event, s: Scope)
    ensures ChangesOnly(s, EvalCond(exprs, c, e, s).scope, CondWrites(exprs, c))
    decreases c
  {
    match c
    case Ref(n) =>
      if n in exprs {
        EvalExprSpec(exprs[n], e, s);
        assert Refs(c)[0] == n;
      }
    case Not(c1) =>
      EvalCondFrame(exprs, c1, e, s);
    case Or(cs) =>
      EvalAllFrame(exprs, cs, e, s);
  }

  lemma {:induction false} EvalAllFrame(exprs: map<string, EventExpr>, cs: seq<Cond>, e: Event, s: Scope)
    ensures ChangesOnly(s, EvalAll(exprs, cs, e, s).scope, CondWrites(exprs, Or(cs)))
    decreases cs
  {
    if cs != [] {
      var h := EvalCond(exprs, cs[0], e, s);
      EvalCondFrame(exprs, cs[0], e, s);
      EvalAllFrame(exprs, cs[1..], e, h.scope);
      var hd, tl := Refs(cs[0]), RefsAll(cs[1..]);
      assert Refs(Or(cs)) == hd + tl;
      assert Refs(Or(cs[1..])) == tl;
      forall w | w in NamesWrite(exprs, hd)
        ensures w in NamesWrite(exprs, hd + tl)
      {
        var i :| 0 <= i < |hd| && hd[i] in exprs && w in Writes(exprs[hd[i]]);
        assert (hd + tl)[i] == hd[i];
      }
      forall w | w in NamesWrite(exprs, tl)
        ensures w in NamesWrite(exprs, hd + tl)
      {
        var i :| 0 <= i < |tl| && tl[i] in exprs && w in Writes(exprs[tl[i]]);
        assert (hd + tl)[|hd| + i] == tl[i];
      }
    }
  }

  // ---------------------------------------------------------------------
  // Unfolding helpers for a two-way `or`

  lemma SatOr2(exprs: map<string, EventExpr>, c0: Cond, c1: Cond, e: Event)
    ensures Sat(exprs, Or([c0, c1]), e) <==> Sat(exprs, c0, e) || Sat(exprs, c1, e)
  {
    assert [c0, c1][0] == c0 && [c0, c1][1] == c1;
  }

  lemma EvalOr2(exprs: map<string, EventExpr>, c0: Cond, c1: Cond, e: Event, s: Scope)
    ensures EvalCond(exprs, Or([c0, c1]), e, s) ==
      var h := EvalCond(exprs, c0, e, s);
      var t := EvalCond(exprs, c1, e, h.scope);
      Eval(h.holds || t.holds, t.scope, h.calls + t.calls)
  {
    var h := EvalCond(exprs, c0, e, s);
    assert [c0, c1][1..] == [c1];
    assert [c1][1..] == [];
    var t := EvalCond(exprs, c1, e, h.scope);
    assert EvalAll(exprs, [c1], e, h.scope) == Eval(t.holds, t.scope, t.calls + []);
    assert t.calls + [] == t.calls;
  }
}
