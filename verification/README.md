# Rule matching for pico-engine rulesets, in Dafny

This project models how a pico-engine ruleset's rules respond to events. A
pico is a long-lived actor that owns installed rules and persistent variables.
Each rule is a table with four parts:

- named event predicates (`eventexprs`) that read an event and may write
  variables into the rule's scope;
- condition trees over those predicates: a name, `['not', c]` or
  `['or', c1, c2, ...]`;
- a `state_machine`. It gives each state an ordered list of
  `[condition, nextState]` transitions, running from `start` to `end`;
- an action that sends a directive `{type: 'directive', name, options}`, plus
  optional `fired` / `notfired` / `always` postlude hooks that write the
  persistent store.

The interpreter that walks these tables lives in pico-engine-core and is not
modelled from its source. The model supplies it as a small first-match walker:

- `Lifecycle.Dispatch` is the pure definition.
- `Engine.RuleInstance` is a class holding the current state and the scope.
  Its methods update them in place and are proved equal to the pure
  definition.

Two rulesets are encoded as constants over it, and their behaviour is proved:

- `event_ops` (`src/rulesets/event_ops.js`), with rules `bind`, `or` and `and`;
- `io.picolabs.persistent` (`test-rulesets/persistent.js`), with rules
  `store_my_name` and `store_appvar` and the functions `getName` and
  `getAppVar`.

Files:

- `values.dfy`: JavaScript primitive values, truthiness, `v || ''`, `String(v)`.
- `line_regex.dfy`: the regular expression `^(.*)$` as a greedy `.*` scan
  followed by the `$` check.
- `conditions.dfy`: event expressions and condition trees, their evaluator,
  and a reference boolean semantics.
- `machine.dfy`: the ordered first-match transition walk.
- `lifecycle.dfy`: rules, directives, hooks, the store, and one event's
  dispatch.
- `engine.dfy`: the classes `Store` and `RuleInstance`.
- `event_ops.dfy`, `persistent.dfy`: the two rulesets and their properties.

How the rule lifecycle works:

- When an event arrives while the rule is in `start`, the scope starts empty.
- The current state's transitions are tried in order. The first whose
  condition holds is taken. If none holds, the state does not change.
- Reaching `end` fires the rule. The actions run, then `fired`, then
  `always`, and the rule resets to `start` with an empty scope.
- An event that begins and ends in `start` has not fired the rule:
  `notfired` and then `always` run.
- A rule part-way through its pattern runs no hook.
- A rule with a `graph` sees only the domain/type pairs the graph lists. A
  rule without one sees every event.
- `or` evaluates all of its children, with no short-circuit. Bindings written
  by a losing transition are not rolled back.

## Model

| member | source | states |
|---|---|---|
| LineRegex.ExecWholeLineSpec | test-rulesets/persistent.js:26-28 | `^(.*)$` without flags matches exactly when the string has no line terminator (LF, CR, U+2028, U+2029); the match and group 1 are then the whole string |
| LineRegex.DotStarReachesEnd | test-rulesets/persistent.js:26 | greedy `.*` from position i reaches the end of the input iff no line terminator follows i |
| LineRegex.NumberMatches | test-rulesets/persistent.js:26 | a truthy number's string form never holds a line terminator, so it always matches |
| Values.NatDigitsLength | test-rulesets/persistent.js:26 | a number below 10^k has at most k decimal digits |
| Values.SafeNumeralIsShort | test-rulesets/persistent.js:26 | a safe integer's numeral has at most 16 digits, under the 21 at which JavaScript's `String` switches to exponent form, so the plain numeral is the string `exec` receives |
| Conditions.EvalExprSpec | src/rulesets/event_ops.js:2-18 | each event expression's truth value is the reference one and it writes only its own variables |
| Conditions.EvalCondTruth | src/rulesets/event_ops.js:47 | evaluating a condition gives its plain boolean meaning (`or` is "some child holds", `not` negates), from any starting scope |
| Conditions.EvalAllTruth | src/rulesets/event_ops.js:69 | the children of an `or` evaluated in sequence hold exactly when some child holds |
| Conditions.EvalCondCalls | src/rulesets/event_ops.js:47 | predicates are called in tree order: `not` calls its child once, `or` calls every child, even after one held |
| Conditions.EvalAllCalls | src/rulesets/event_ops.js:69 | the calls an `or` makes are the concatenation of every child's calls |
| Conditions.EvalCondFrame | src/rulesets/event_ops.js:16 | a condition never removes a binding and changes only variables written by the expressions it refers to |
| Conditions.EvalAllFrame | src/rulesets/event_ops.js:47 | the same frame property for all children of an `or` |
| Machine.FirstMatchSpec | src/rulesets/event_ops.js:44-48 | the walk matches iff some transition's condition holds, then takes the FIRST such transition in listed order; otherwise the state is unchanged |
| Machine.NoMatchStays | src/rulesets/event_ops.js:75-78 | a state none of whose transitions hold does not advance |
| Machine.UniqueMatchTaken | src/rulesets/event_ops.js:66-69 | when exactly one transition holds, the walk takes that one |
| Lifecycle.RunActionReadsOnlyOptions | test-rulesets/persistent.js:52-58 | an action's directive depends on the scope only through its option variables: scopes agreeing on them give the same directive |
| Lifecycle.RunActionsReadOnlyOptions | test-rulesets/persistent.js:51-59 | the same for the whole action pipeline: scopes agreeing on every action's option variables give the same directives |
| Lifecycle.RunActions | test-rulesets/persistent.js:51-59 | the action pipeline yields one directive per action, in declared order |
| Lifecycle.Dispatch | test-rulesets/persistent.js:60-66 | a rule is never left in `end`; whenever directives are produced the rule has reset to `start` with an empty scope |
| Lifecycle.StartIgnoresOldScope | test-rulesets/persistent.js:35-49 | in `start` the old scope is irrelevant: after a reset the rule behaves exactly as a freshly installed one |
| Lifecycle.IrrelevantEventInStart | test-rulesets/persistent.js:41-47 | an event after which the `start` transitions leave the rule in `start` (the `not expr_0` self-loop, or no transition holding) yields no directive; only `notfired` then `always` touch the store |
| Lifecycle.PendingTouchesNoStore | src/rulesets/event_ops.js:71-78 | a rule part-way through its pattern that does not fire runs no hook and yields no directive |
| Lifecycle.HookRoundTrip | test-rulesets/persistent.js:63-65 | a hook that writes a scope variable to the store is read back with the scope's value |
| Engine.Store.constructor | test-rulesets/persistent.js:11 | a new store holds no variables |
| Engine.Store.PutEntVar | test-rulesets/persistent.js:64 | writes the entity variable keyed by (pico id, name) and leaves everything else unchanged |
| Engine.Store.PutAppVar | test-rulesets/persistent.js:114 | writes the app variable keyed by (ruleset id, name) and leaves everything else unchanged |
| Engine.Store.GetEntVar | test-rulesets/persistent.js:11 | returns the stored entity variable, `undefined` if never written |
| Engine.Store.GetAppVar | test-rulesets/persistent.js:14 | returns the stored app variable, `undefined` if never written |
| Engine.RuleInstance.constructor | test-rulesets/persistent.js:35-49 | a newly installed rule is in `start` with an empty scope |
| Engine.RuleInstance.CallExpr | src/rulesets/event_ops.js:15-18 | calling an event expression in place returns its truth value and leaves the scope it specifies (bind's `a` assigns before testing) |
| Engine.RuleInstance.Evaluate | src/rulesets/event_ops.js:47 | in-place evaluation of a condition tree returns the evaluator's truth value and scope; every `or` child is evaluated |
| Engine.RuleInstance.Step | src/rulesets/event_ops.js:65-79 | the in-place walk leaves exactly the state, scope and matched flag of the first-match walk |
| Engine.RuleInstance.RunHookOn | test-rulesets/persistent.js:63-65 | running a hook in place leaves the store the hook specifies |
| Engine.RuleInstance.Dispatch | test-rulesets/persistent.js:51-66 | delivering an event in place leaves state, scope and store, and returns directives, exactly as `Lifecycle.Dispatch`; the rule is never left in `end` |
| EventOps.MkExpTypeValSpec | src/rulesets/event_ops.js:2-8 | `mkExpTypeVal(type, val)` holds exactly when domain is `event_ops`, type is `type` and `attrs.val === val`; it writes nothing |
| EventOps.BindAWritesEvenWhenFalse | src/rulesets/event_ops.js:15-18 | bind's `a` binds `bound_name := attrs.name` whether or not it then holds; it holds iff the event is `event_ops`/`bind` |
| EventOps.BindStartExactlyOne | src/rulesets/event_ops.js:20-25 | exactly one of bind's two `start` transitions holds for any event |
| EventOps.BindStep | src/rulesets/event_ops.js:15-25 | a bind event goes `start` to `end` after one call of `a`; any other event takes the `not a` self-loop after `a` ran twice; `bound_name` is bound either way |
| EventOps.BindDispatch | src/rulesets/event_ops.js:27-35 | a bind event fires `{type: 'directive', name: 'bound', options: {name: attrs.name}}`; other events yield nothing; the rule ends in `start` |
| EventOps.BindAlice | src/rulesets/event_ops.js:27-35 | `attrs.name = "Alice"` yields a `bound` directive with `options.name = "Alice"` |
| EventOps.OrStartExactlyOne | src/rulesets/event_ops.js:44-48 | `or_a`, `or_b` and `not(or(or_a, or_b))` are exclusive and exhaustive: exactly one holds |
| EventOps.OrStep | src/rulesets/event_ops.js:39-49 | `val` `a` or `b` on an `event_ops`/`or` event goes to `end`, otherwise `start`; the calls are `[or_a]`, `[or_a, or_b]` or `[or_a, or_b, or_a, or_b]`, so `or_a` is tried first and the fallback's `or` calls both |
| EventOps.OrDispatch | src/rulesets/event_ops.js:51-57 | firing `or` yields the directive `or` with empty options; other events yield nothing |
| EventOps.AndStartExactlyOne | src/rulesets/event_ops.js:66-70 | in `start`, exactly one of `a`, `b`, `not(or(a, b))` holds |
| EventOps.AndStep | src/rulesets/event_ops.js:65-79 | the full step table of `and` from `start`, `s1` and `s2` on any event; every step matches except a `b` in `s2` |
| EventOps.AndS2SecondB | src/rulesets/event_ops.js:75-78 | in `s2` a second `b` matches no transition (the fallback is `not b`), and the rule stays in `s2` only because an unmatched state does not advance |
| EventOps.AndS2FallbackSameState | src/rulesets/event_ops.js:75-78 | `s2` as written reaches the same state and scope as with the symmetric fallback `not a`, on every event |
| EventOps.AndFires | src/rulesets/event_ops.js:81-87 | reaching `end` from `s1` or `s2` yields the `and` directive with empty options and resets to `start` |
| EventOps.AndInOrder | src/rulesets/event_ops.js:66-74 | `a` then `b` moves `start` to `s1` and then fires |
| EventOps.AndReversed | src/rulesets/event_ops.js:66-78 | `b` then `a` moves `start` to `s2` and then fires: arrival order does not matter |
| EventOps.AndOnlyANeverFires | src/rulesets/event_ops.js:71-74 | any run of `a` events, with no `b`, never fires; after the first, the rule sits in `s1` on its `not b` self-loop |
| Persistent.Expr0Spec | test-rulesets/persistent.js:23-33 | `expr_0` holds iff `String(attrs[attr] \|\| '')` has no line terminator; it then binds the whole string, and otherwise it leaves the scope untouched |
| Persistent.FalsyAttrCapturesEmpty | test-rulesets/persistent.js:26 | a missing or falsy attribute is matched as `''` and binds the empty string |
| Persistent.CaptureStartExactlyOne | test-rulesets/persistent.js:35-49 | exactly one of `expr_0` and `not expr_0` holds for any event |
| Persistent.CaptureStep | test-rulesets/persistent.js:35-49 | a matching attribute goes `start` to `end` with the capture bound; otherwise `expr_0` runs twice, writes nothing, and the rule stays in `start` |
| Persistent.CaptureDispatch | test-rulesets/persistent.js:21-66 | outside the graph nothing changes. A selected event either fires, with the captured text in the directive and written by `always`, or stays in `start`, with `always` writing `undefined` |
| Persistent.StoreNameRoundTrip | test-rulesets/persistent.js:52-65 | after firing, `getName` returns exactly the captured name, the `store_name` directive carries it, and app variables are unchanged |
| Persistent.StoreNameString | test-rulesets/persistent.js:26-64 | a plain string name without a line terminator is stored unchanged |
| Persistent.StoreAppvarRoundTrip | test-rulesets/persistent.js:101-115 | after firing, `getAppVar` returns the captured text from any pico sharing the ruleset id (keyed by ruleset, not pico). The `store_appvar` directive carries it, and entity variables are unchanged |
| Persistent.GraphSelection | test-rulesets/persistent.js:21 | store_my_name is selected exactly for `store`/`name`, and store_appvar (line 71) exactly for `store`/`appvar` |
| Persistent.NameStep | test-rulesets/persistent.js:21-65 | one event leaves store_my_name at rest with app variables untouched; `name` becomes the captured name or `undefined` if the event is selected, and is unchanged otherwise |
| Persistent.GetNameReturnsLast | test-rulesets/persistent.js:60-65 | after ANY stream of events, `getName` returns what the last selected `store`/`name` event wrote (its name, or `undefined` if it did not match), or the old value when no event was selected; events outside the graph never change it |
| Persistent.MatchingStreamKeepsLast | test-rulesets/persistent.js:60-65 | after a non-empty stream of matching `store`/`name` events, `getName` returns the last one's name |
| Persistent.SignalThenGetName | test-rulesets/persistent.js:10-12 | through the classes: an installed store_my_name rule receives a matching event and a following `getName` returns its name, alongside the `store_name` directive; the store then holds exactly that name under (pico id, `name`), with every other entity variable and all app variables unchanged |

## Left out

- `src/startPicoEngine.js` is not part of this model: database setup,
  reading ruleset files, ruleset registration and installation, event
  signalling, and the console logging with its 300-character truncation.
- The interpreter of these tables lives in pico-engine-core and is not
  modelled from its source. The model's lifecycle is:
  - the scope starts empty when an event arrives in `start`;
  - `or` evaluates all of its children;
  - a not-fired event runs `notfired` and then `always`.
- Every state is meant to have a self-loop for events it does not accept. In
  `and`'s `s2` the fallback is `not b`, so a second `b` matches nothing. The
  model follows the tables as written (`EventOps.AndS2SecondB`), and the state
  is the same either way (`EventOps.AndS2FallbackSameState`).
- A condition naming an event expression the rule does not declare does not
  hold. pico-engine-core's handling of such a dangling name is not modelled.
  None of the modelled rules has one.
- Event channel and event ids, channel addressing, and ruleset compilation are
  not modelled. None of them is read by the rules.
- Regular expressions in general are not modelled. Only `^(.*)$` with no flags
  is, as "no line terminator", with the whole string as the capture.
- The KRL value wrappers (`krl.String`, `fromJS`, `toJS`, `krl.Closure`) are
  treated as the identity, and the `getName` / `getAppVar` closures as plain
  lookups.
- Database futures and `.wait()` are modelled as synchronous map reads and
  writes. The store is modelled as two maps, so database write failures and
  their handling are not modelled.
- The callback style of the `event_ops` actions is modelled as a function that
  returns the directive.
- The base64 source-map comment at the end of `test-rulesets/persistent.js`
  is not modelled.
- Attribute values are modelled as JavaScript primitives only. Objects,
  arrays and fractional numbers (and their `String` conversion) are not
  modelled.
- Values.ToJSString: numbers are limited to safe integers (at most 2^53 - 1
  in magnitude), where `String` writes the exact decimal numeral. Integers
  beyond that range are not modelled; JavaScript rounds them, and writes
  those of magnitude 1e21 or more in exponent form (`"1e+21"`).
- Concurrency across picos is not modelled. Each rule instance handles one
  event at a time.
