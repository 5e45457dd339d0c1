/** When a protocol operation returns, and what code it executes in between
    (plugin_run_protoop_internal, picoquic/plugin.c): read off the tree of calls alone. */
module DispatchLaw {

  import opened Varint
  import opened Dispatcher

  // ---------------------------------------------------------------------------- which calls return

  /** All calls of a script return, with these entries on the call stack. */
  predicate ScriptReturns(reg: seq<Entry>, running: seq<bool>, script: Script)
    requires |running| == |reg|
    decreases script
  {
    match script
    case End => true
    case Save(_, next) => ScriptReturns(reg, running, next)
    case SetInput(_, _, next) => ScriptReturns(reg, running, next)
    case Invoke(call, next) => Returns(reg, running, call) && ScriptReturns(reg, running, next)
  }

  predicate ScriptsReturn(reg: seq<Entry>, running: seq<bool>, n: nat, scripts: Scripts)
    requires |running| == |reg|
    decreases scripts
  {
    n == 0 || scripts.Silent? ||
    (ScriptReturns(reg, running, scripts.first) && ScriptsReturn(reg, running, n - 1, scripts.others))
  }

  /** A call returns if it has too many inputs; or its entry exists, has the caller's intern flag,
      is not on the call stack and has a replacement or a core, and with it on the stack all
      calls of its observers and of its own code return. */
  predicate Returns(reg: seq<Entry>, running: seq<bool>, call: Call)
    requires |running| == |reg|
    decreases call
  {
    || |call.inputs| > ARGS_MAX
    || (&& 0 <= call.entry < |reg| && !running[call.entry]
        && var e, above := reg[call.entry], running[call.entry := true];
           && e.intern == call.intern && (e.replace.Some? || e.core)
           && ScriptsReturn(reg, above, |e.pre|, call.before)
           && ScriptReturns(reg, above, call.body)
           && ScriptsReturn(reg, above, |e.post|, call.after))
  }

  lemma {:induction false} ScriptReturnsIff(reg: seq<Entry>, c: Context, script: Script)
    requires Sized(reg, c)
    ensures RunScript(reg, c, script).Some? <==> ScriptReturns(reg, c.running, script)
    decreases script, 0
  {
    match script
    case End =>
    case Save(vs, next) => ScriptReturnsIff(reg, SaveOutputs(c, vs), next);
    case SetInput(i, v, next) => ScriptReturnsIff(reg, c.(inputv := c.inputv[i := v]), next);
    case Invoke(call, next) =>
      RunReturnsIff(reg, c, call);
      RunRestores(reg, c, call);
      var r := Run(reg, c, call);
      if r.Return? { ScriptReturnsIff(reg, r.context, next); }
  }

  lemma {:induction false} ObserveReturnsIff(reg: seq<Entry>, c: Context, plugins: seq<int>,
                                             scripts: Scripts, anchor: Anchor)
    requires Sized(reg, c)
    ensures Observe(reg, c, plugins, scripts, anchor).Some?
            <==> ScriptsReturn(reg, c.running, |plugins|, scripts)
    decreases scripts, |plugins|
  {
    if plugins != [] {
      var d := Start(c.(plugin := plugins[0], anchor := anchor));
      match scripts
      case Silent => ObserveReturnsIff(reg, d, plugins[1..], Silent, anchor);
      case Then(first, others) =>
        ScriptReturnsIff(reg, d, first);
        ScriptKeeps(reg, d, first);
        var r := RunScript(reg, d, first);
        if r.Some? { ObserveReturnsIff(reg, r.value, plugins[1..], others, anchor); }
    }
  }

  lemma {:induction false} OperateReturnsIff(reg: seq<Entry>, c: Context, e: Entry, body: Script)
    requires Sized(reg, c)
    ensures Operate(reg, c, e, body).Some?
            <==> (e.replace.Some? || e.core) && ScriptReturns(reg, c.running, body)
    decreases body, 1
  {
    ScriptReturnsIff(reg, ForBody(c, e), body);
  }

  /** A call returns, rather than ending the program, exactly when the tree of calls says so. */
  lemma {:induction false} RunReturnsIff(reg: seq<Entry>, c: Context, call: Call)
    requires Sized(reg, c)
    ensures Run(reg, c, call).Return? <==> Returns(reg, c.running, call)
    decreases call
  {
    if |call.inputs| <= ARGS_MAX && CanRun(reg, c, call) {
      var e, c0 := reg[call.entry], Enter(reg, c, call);
      ObserveReturnsIff(reg, c0, e.pre, call.before, PreAnchor);
      ObserveKeeps(reg, c0, e.pre, call.before, PreAnchor);
      var r1 := Observe(reg, c0, e.pre, call.before, PreAnchor);
      if r1.Some? {
        OperateReturnsIff(reg, r1.value, e, call.body);
        OperateKeeps(reg, r1.value, e, call.body);
        var r2 := Operate(reg, r1.value, e, call.body);
        if r2.Some? {
          assert Run(reg, c, call) == Ending(reg, c, r2.value, call);
          var c2 := if e.post == [] then r2.value else r2.value.(output := call.status);
          ObserveReturnsIff(reg, c2, e.post, call.after, PostAnchor);
        }
      }
    }
  }

  // --------------------------------------------------------------------------- what is executed

  /** The status for observers after a script: any call that is not refused clears it. */
  function OutputAfter(script: Script, output: int): int {
    match script
    case End => output
    case Save(_, next) => OutputAfter(next, output)
    case SetInput(_, _, next) => OutputAfter(next, output)
    case Invoke(call, next) => OutputAfter(next, if |call.inputs| > ARGS_MAX then output else 0)
  }

  function OutputAfterAll(n: nat, scripts: Scripts, output: int): int
    decreases scripts
  {
    if n == 0 || scripts.Silent? then output
    else OutputAfterAll(n - 1, scripts.others, OutputAfter(scripts.first, output))
  }

  /** The code executed by the calls of a script. */
  function ScriptTrace(reg: seq<Entry>, anchor: Anchor, output: int, script: Script): seq<View>
    decreases script, 0
  {
    match script
    case End => []
    case Save(_, next) => ScriptTrace(reg, anchor, output, next)
    case SetInput(_, _, next) => ScriptTrace(reg, anchor, output, next)
    case Invoke(call, next) =>
      CallTrace(reg, anchor, output, call)
      + ScriptTrace(reg, anchor, if |call.inputs| > ARGS_MAX then output else 0, next)
  }

  /** Observers are executed in order, each as its own plugin. */
  function ObserveTrace(reg: seq<Entry>, e: Entry, n: nat, plugins: seq<int>, scripts: Scripts,
                        anchor: Anchor, output: int): seq<View>
    decreases scripts, |plugins|
  {
    if plugins == [] then []
    else
      [View(plugins[0], anchor, e.op, n, output)]
      + match scripts
        case Silent => ObserveTrace(reg, e, n, plugins[1..], Silent, anchor, output)
        case Then(first, others) =>
          ScriptTrace(reg, anchor, output, first)
          + ObserveTrace(reg, e, n, plugins[1..], others, anchor, OutputAfter(first, output))
  }

  /** The operation itself: the replacement as its plugin, or the core as none, at whatever anchor
      it is left with. */
  function OperateTrace(reg: seq<Entry>, e: Entry, n: nat, body: Script, anchor: Anchor, output: int)
    : seq<View>
    decreases body, 1
  {
    var at := if e.replace.Some? then ReplaceAnchor else anchor;
    [View(if e.replace.Some? then e.replace.value else NULL, at, e.op, n, output)]
    + ScriptTrace(reg, at, output, body)
  }

  /** The code executed by a call: the observers before it, the operation, and the observers after
      it, which find the status; everything with the operation and the inputs of the call. */
  function CallTrace(reg: seq<Entry>, anchor: Anchor, output: int, call: Call): seq<View>
    decreases call
  {
    if |call.inputs| > ARGS_MAX || !(0 <= call.entry < |reg|) then []
    else
      var e, n := reg[call.entry], |call.inputs|;
      ObserveTrace(reg, e, n, e.pre, call.before, PreAnchor, output)
      + OperateTrace(reg, e, n, call.body, if e.pre == [] then anchor else PreAnchor,
                     OutputAfterAll(|e.pre|, call.before, output))
      + ObserveTrace(reg, e, n, e.post, call.after, PostAnchor, call.status)
  }

  lemma {:induction false} ScriptExecutes(reg: seq<Entry>, c: Context, script: Script)
    requires Sized(reg, c)
    ensures var r := RunScript(reg, c, script);
            r.Some? ==> && r.value.executed == c.executed + ScriptTrace(reg, c.anchor, c.output, script)
                        && r.value.output == OutputAfter(script, c.output)
    decreases script, 0
  {
    hide Run, CallTrace, OutputsOf, CanRun;
    match script
    case End =>
    case Save(vs, next) => ScriptExecutes(reg, SaveOutputs(c, vs), next);
    case SetInput(i, v, next) => ScriptExecutes(reg, c.(inputv := c.inputv[i := v]), next);
    case Invoke(call, next) =>
      RunExecutes(reg, c, call);
      RunRestores(reg, c, call);
      var r := Run(reg, c, call);
      if r.Return? {
        if |call.inputs| <= ARGS_MAX { RunClears(reg, c, call); }
        ScriptExecutes(reg, r.context, next);
      }
  }

  lemma {:induction false} ObserveExecutes(reg: seq<Entry>, c: Context, e: Entry, plugins: seq<int>,
                                           scripts: Scripts, anchor: Anchor)
    requires Sized(reg, c) && c.op == e.op
    ensures var r := Observe(reg, c, plugins, scripts, anchor);
            r.Some? ==>
              && r.value.executed
                 == c.executed + ObserveTrace(reg, e, c.inputc, plugins, scripts, anchor, c.output)
              && r.value.output == OutputAfterAll(|plugins|, scripts, c.output)
              && r.value.anchor == if plugins == [] then c.anchor else anchor
    decreases scripts, |plugins|
  {
    if plugins != [] {
      var d := Start(c.(plugin := plugins[0], anchor := anchor));
      match scripts
      case Silent => ObserveExecutes(reg, d, e, plugins[1..], Silent, anchor);
      case Then(first, others) =>
        ScriptExecutes(reg, d, first);
        ScriptKeeps(reg, d, first);
        var r := RunScript(reg, d, first);
        if r.Some? { ObserveExecutes(reg, r.value, e, plugins[1..], others, anchor); }
    }
  }

  lemma {:induction false} OperateExecutes(reg: seq<Entry>, c: Context, e: Entry, body: Script)
    requires Sized(reg, c) && c.op == e.op
    ensures var r := Operate(reg, c, e, body);
            r.Some? ==>
              r.value.executed == c.executed + OperateTrace(reg, e, c.inputc, body, c.anchor, c.output)
    decreases body, 1
  {
    ScriptExecutes(reg, ForBody(c, e), body);
  }

  /** Every call that returns has executed exactly the code that the tree of calls says, in that
      order, each piece with its plugin, anchor, operation and number of inputs, and with the
      status of the operation for the observers after it. */
  lemma {:induction false} RunExecutes(reg: seq<Entry>, c: Context, call: Call)
    requires Sized(reg, c)
    ensures var r := Run(reg, c, call);
            r.Return? ==>
              r.context.executed == c.executed + CallTrace(reg, c.anchor, c.output, call)
    decreases call
  {
    if |call.inputs| <= ARGS_MAX && Run(reg, c, call).Return? {
      var c1, c2 := Stages(reg, c, call);
      var e, c0 := reg[call.entry], Enter(reg, c, call);
      hide Run, Observe, Operate, Ending, ObserveTrace, OperateTrace, OutputAfterAll, Last, LastOf, Enter;
      ObserveExecutes(reg, c0, e, e.pre, call.before, PreAnchor);
      ObserveKeeps(reg, c0, e.pre, call.before, PreAnchor);
      OperateExecutes(reg, c1, e, call.body);
      OperateKeeps(reg, c1, e, call.body);
      EndingExecutes(reg, c, c2, call);
    }
  }

  /** The contexts before the operation and after it, of a call that returns. */
  lemma Stages(reg: seq<Entry>, c: Context, call: Call) returns (c1: Context, c2: Context)
    requires Sized(reg, c) && |call.inputs| <= ARGS_MAX && Run(reg, c, call).Return?
    ensures 0 <= call.entry < |reg|
    ensures var e, c0 := reg[call.entry], Enter(reg, c, call);
            && Sized(reg, c0) && c0.op == e.op && c0.inputc == |call.inputs|
            && c0.executed == c.executed && c0.anchor == c.anchor && c0.output == c.output
            && Observe(reg, c0, e.pre, call.before, PreAnchor) == Some(c1) && Sized(reg, c1)
            && Operate(reg, c1, e, call.body) == Some(c2) && Sized(reg, c2)
            && Run(reg, c, call) == Ending(reg, c, c2, call)
  {
    hide Observe, Operate, Ending;
    var e, c0 := reg[call.entry], Enter(reg, c, call);
    c1 := Observe(reg, c0, e.pre, call.before, PreAnchor).value;
    c2 := Operate(reg, c1, e, call.body).value;
  }

  lemma {:induction false} EndingExecutes(reg: seq<Entry>, c: Context, d: Context, call: Call)
    requires Sized(reg, c) && Sized(reg, d) && 0 <= call.entry < |reg| && d.op == reg[call.entry].op
    ensures var r, e := Ending(reg, c, d, call), reg[call.entry];
            r.Return? ==>
              r.context.executed
              == d.executed + ObserveTrace(reg, e, d.inputc, e.post, call.after, PostAnchor, call.status)
    decreases call, 0
  {
    var e := reg[call.entry];
    var start := if e.post == [] then d else d.(output := call.status);
    ObserveExecutes(reg, start, e, e.post, call.after, PostAnchor);
    hide Observe;
  }
}
