/** The dispatcher of protocol operations (plugin_run_protoop_internal, picoquic/plugin.c).

    The code of an operation, core or pluglet, is whatever it does to the call context: it may
    save outputs, overwrite its inputs and call further operations. A call is described by the
    tree of what its code does, so that a statement for every call covers every behaviour. */
module Dispatcher {
  import opened Varint

  const ARGS_MAX: nat := 16
  const TOO_MANY_ARGUMENTS := 0x428
  const NULL := -1

  type Args = s: seq<int> | |s| <= ARGS_MAX
  type Slot = i: nat | i < ARGS_MAX

  datatype Anchor = PreAnchor | ReplaceAnchor | PostAnchor | NoAnchor

  /** A registered operation with one parameter: the pluglets attached to it, by plugin. */
  datatype Entry = Entry(op: int, intern: bool, replace: Option<int>, core: bool,
                         pre: seq<int>, post: seq<int>)

  datatype Script =
    | End
    | Save(values: Args, next: Script)
    | SetInput(slot: Slot, value: int, next: Script)
    | Invoke(call: Call, next: Script)

  /** One script per observer; observers without one do nothing. */
  datatype Scripts = Silent | Then(first: Script, others: Scripts)

  /** A call of the entry found by the lookup (NULL if there is none), and what the observers
      before, the operation itself and the observers after do. */
  datatype Call = Call(entry: int, intern: bool, inputs: seq<int>, wantsOutputs: bool,
                       before: Scripts, body: Script, after: Scripts, status: int)

  /** One execution of code, and what it finds in the connection. */
  datatype View = View(plugin: int, anchor: Anchor, op: int, inputc: nat, output: int)

  /** The part of the connection that the dispatcher works on, and the code executed so far. */
  datatype Context = Context(inputv: seq<int>, outputv: seq<int>, inputc: nat, outputc: nat,
                             plugin: int, op: int, anchor: Anchor, previous: int, output: int,
                             running: seq<bool>, executed: seq<View>)

  datatype Outcome = Halt | Return(context: Context, status: int, outputs: seq<int>)

  ghost predicate Sized(reg: seq<Entry>, c: Context) {
    && |c.inputv| == |c.outputv| == ARGS_MAX && c.inputc <= ARGS_MAX && c.outputc <= ARGS_MAX
    && |c.running| == |reg|
  }

  /** memcpy to the front of an array. */
  function Overwrite(a: seq<int>, b: seq<int>): (r: seq<int>)
    requires |b| <= |a|
    ensures |r| == |a|
  {
    b + a[|b|..]
  }

  function SaveOutputs(c: Context, vs: Args): Context
    requires |c.outputv| == ARGS_MAX
  {
    c.(outputv := Overwrite(c.outputv, vs), outputc := |vs|)
  }

  /** Code starts to execute. */
  function Start(c: Context): Context {
    c.(executed := c.executed + [View(c.plugin, c.anchor, c.op, c.inputc, c.output)])
  }

  predicate CanRun(reg: seq<Entry>, c: Context, call: Call)
    requires |c.running| == |reg|
  {
    && 0 <= call.entry < |reg| && call.intern == reg[call.entry].intern && !c.running[call.entry]
  }

  /** The context of the callee. */
  function Enter(reg: seq<Entry>, c: Context, call: Call): Context
    requires |c.inputv| == ARGS_MAX && |call.inputs| <= ARGS_MAX
    requires |c.running| == |reg| && 0 <= call.entry < |reg|
  {
    c.(inputv := Overwrite(c.inputv, call.inputs), inputc := |call.inputs|, outputc := 0,
       running := c.running[call.entry := true], op := reg[call.entry].op)
  }

  /** The context of the caller, rebuilt from what was saved of it. */
  function Leave(c: Context, d: Context, entry: int, replace: int): Context
    requires c.inputc <= |c.inputv| == |d.inputv| && c.outputc <= |c.outputv| == |d.outputv|
    requires 0 <= entry < |d.running|
  {
    Context(Overwrite(d.inputv, c.inputv[..c.inputc]), Overwrite(d.outputv, c.outputv[..c.outputc]),
            c.inputc, c.outputc, c.plugin, c.op, c.anchor, replace, 0, d.running[entry := false],
            d.executed)
  }

  /** The code of an operation. */
  function RunScript(reg: seq<Entry>, c: Context, script: Script): (r: Option<Context>)
    requires Sized(reg, c)
    ensures r.Some? ==> Sized(reg, r.value)
    decreases script, 0
  {
    match script
    case End => Some(c)
    case Save(vs, next) => RunScript(reg, SaveOutputs(c, vs), next)
    case SetInput(i, v, next) => RunScript(reg, c.(inputv := c.inputv[i := v]), next)
    case Invoke(call, next) =>
      match Run(reg, c, call)
      case Halt => None
      case Return(c', _, _) => RunScript(reg, c', next)
  }

  /** The observers before or after an operation. */
  function Observe(reg: seq<Entry>, c: Context, plugins: seq<int>, scripts: Scripts, anchor: Anchor)
    : (r: Option<Context>)
    requires Sized(reg, c)
    ensures r.Some? ==> Sized(reg, r.value)
    decreases scripts, |plugins|
  {
    if plugins == [] then Some(c)
    else
      var d := Start(c.(plugin := plugins[0], anchor := anchor));
      match scripts
      case Silent => Observe(reg, d, plugins[1..], Silent, anchor)
      case Then(first, others) =>
        match RunScript(reg, d, first)
        case None => None
        case Some(d') => Observe(reg, d', plugins[1..], others, anchor)
  }

  /** The operation itself: the pluglet that replaces it, or its core. */
  function Operate(reg: seq<Entry>, c: Context, e: Entry, body: Script): (r: Option<Context>)
    requires Sized(reg, c)
    ensures r.Some? ==> Sized(reg, r.value)
    decreases body, 1
  {
    if e.replace.Some? then
      match RunScript(reg, Start(c.(plugin := e.replace.value, anchor := ReplaceAnchor)), body)
      case None => None
      case Some(d) => Some(d.(previous := d.plugin))
    else if e.core then RunScript(reg, Start(c.(plugin := NULL)), body)
    else None
  }

  /** plugin_run_protoop_internal. */
  function Run(reg: seq<Entry>, c: Context, call: Call): (r: Outcome)
    requires Sized(reg, c)
    ensures r.Return? ==> Sized(reg, r.context)
    decreases call
  {
    if |call.inputs| > ARGS_MAX then Return(c, TOO_MANY_ARGUMENTS, [])
    else if !CanRun(reg, c, call) then Halt
    else
      var e := reg[call.entry];
      match Observe(reg, Enter(reg, c, call), e.pre, call.before, PreAnchor)
      case None => Halt
      case Some(c1) =>
        match Operate(reg, c1, e, call.body)
        case None => Halt
        case Some(c2) => Ending(reg, c, c2, call)
  }

  /** What follows the operation: the observers after it, and the return to caller c. */
  function Ending(reg: seq<Entry>, c: Context, d: Context, call: Call): (r: Outcome)
    requires Sized(reg, c) && Sized(reg, d) && 0 <= call.entry < |reg|
    ensures r.Return? ==> Sized(reg, r.context)
    decreases call, 0
  {
    var e := reg[call.entry];
    var start := if e.post == [] then d else d.(output := call.status);
    match Observe(reg, start, e.post, call.after, PostAnchor)
    case None => Halt
    case Some(last) =>
      Return(Leave(c, last, call.entry, if e.replace.Some? then d.plugin else NULL), call.status,
             if call.wantsOutputs then last.outputv[..last.outputc] else [])
  }

  // ----------------------------------------------------------------------------- what is restored

  function Inputs(c: Context): seq<int>
    requires c.inputc <= |c.inputv|
  {
    c.inputv[..c.inputc]
  }

  function Outputs(c: Context): seq<int>
    requires c.outputc <= |c.outputv|
  {
    c.outputv[..c.outputc]
  }

  /** The caller finds everything of its own as it left it. */
  ghost predicate Restored(reg: seq<Entry>, c: Context, d: Context)
    requires Sized(reg, c) && Sized(reg, d)
  {
    && Inputs(d) == Inputs(c) && Outputs(d) == Outputs(c) && d.plugin == c.plugin
    && d.op == c.op && d.anchor == c.anchor && d.running == c.running
  }

  /** What code can change of its own context: the values of its inputs, and its outputs, which
      become the last ones it saved. */
  ghost predicate Kept(reg: seq<Entry>, c: Context, d: Context, outputs: seq<int>)
    requires Sized(reg, c) && Sized(reg, d)
  {
    && d.inputc == c.inputc && d.op == c.op && d.running == c.running && Outputs(d) == outputs
  }

  /** The outputs after a script: the last ones it saved, or those from before. */
  function Last(script: Script, outputs: seq<int>): seq<int> {
    match script
    case End => outputs
    case Save(vs, next) => Last(next, vs)
    case SetInput(_, _, next) => Last(next, outputs)
    case Invoke(_, next) => Last(next, outputs)
  }

  function LastOf(n: nat, scripts: Scripts, outputs: seq<int>): seq<int> {
    if n == 0 || scripts.Silent? then outputs
    else LastOf(n - 1, scripts.others, Last(scripts.first, outputs))
  }

  lemma {:induction false} ScriptKeeps(reg: seq<Entry>, c: Context, script: Script)
    requires Sized(reg, c)
    ensures var r := RunScript(reg, c, script);
            r.Some? ==> && Kept(reg, c, r.value, Last(script, Outputs(c)))
                        && r.value.plugin == c.plugin && r.value.anchor == c.anchor
    decreases script, 0
  {
    match script
    case End =>
    case Save(vs, next) =>
      ScriptKeeps(reg, SaveOutputs(c, vs), next);
    case SetInput(i, v, next) =>
      ScriptKeeps(reg, c.(inputv := c.inputv[i := v]), next);
    case Invoke(call, next) =>
      RunRestores(reg, c, call);
      var r := Run(reg, c, call);
      if r.Return? { ScriptKeeps(reg, r.context, next); }
  }

  lemma {:induction false} ObserveKeeps(reg: seq<Entry>, c: Context, plugins: seq<int>,
                                        scripts: Scripts, anchor: Anchor)
    requires Sized(reg, c)
    ensures var r := Observe(reg, c, plugins, scripts, anchor);
            r.Some? ==> Kept(reg, c, r.value, LastOf(|plugins|, scripts, Outputs(c)))
    decreases scripts, |plugins|
  {
    if plugins != [] {
      var d := Start(c.(plugin := plugins[0], anchor := anchor));
      match scripts
      case Silent =>
        ObserveKeeps(reg, d, plugins[1..], Silent, anchor);
      case Then(first, others) =>
        ScriptKeeps(reg, d, first);
        var r := RunScript(reg, d, first);
        if r.Some? { ObserveKeeps(reg, r.value, plugins[1..], others, anchor); }
    }
  }

  /** The context in which the code of an operation starts. */
  function ForBody(c: Context, e: Entry): Context {
    Start(c.(plugin := if e.replace.Some? then e.replace.value else NULL,
             anchor := if e.replace.Some? then ReplaceAnchor else c.anchor))
  }

  lemma {:induction false} OperateKeeps(reg: seq<Entry>, c: Context, e: Entry, body: Script)
    requires Sized(reg, c)
    ensures var r := Operate(reg, c, e, body);
            r.Some? ==> && Kept(reg, c, r.value, Last(body, Outputs(c)))
                        && (e.replace.Some? ==> r.value.plugin == e.replace.value)
    decreases body, 1
  {
    ScriptKeeps(reg, ForBody(c, e), body);
  }

  /** Every call, however deep its own calls nest: the caller gets back its inputs, its saved
      outputs, both counts, plugin, operation, anchor and all running flags; the callee's status
      is handed on, and its outputs are the last ones that its own code saved. */
  lemma {:induction false} RunRestores(reg: seq<Entry>, c: Context, call: Call)
    requires Sized(reg, c)
    ensures var r := Run(reg, c, call);
            r.Return? ==>
              && Restored(reg, c, r.context)
              && (|call.inputs| > ARGS_MAX ==> r == Return(c, TOO_MANY_ARGUMENTS, []))
              && (|call.inputs| <= ARGS_MAX ==>
                    && CanRun(reg, c, call) && r.status == call.status
                    && r.outputs == if call.wantsOutputs then OutputsOf(reg, call) else [])
    decreases call
  {
    if |call.inputs| <= ARGS_MAX && CanRun(reg, c, call) {
      var e, c0 := reg[call.entry], Enter(reg, c, call);
      ObserveKeeps(reg, c0, e.pre, call.before, PreAnchor);
      var r1 := Observe(reg, c0, e.pre, call.before, PreAnchor);
      if r1.Some? {
        OperateKeeps(reg, r1.value, e, call.body);
        var r2 := Operate(reg, r1.value, e, call.body);
        if r2.Some? {
          var c2 := if e.post == [] then r2.value else r2.value.(output := call.status);
          ObserveKeeps(reg, c2, e.post, call.after, PostAnchor);
        }
      }
    }
  }

  /** Two fields are not put back. After every call that returns and was not refused for its
      number of arguments, the status kept for observers is cleared, so that an observer that
      makes a call cannot read it any more; and the previous plugin is the one that replaced the
      operation, or none. */
  lemma RunClears(reg: seq<Entry>, c: Context, call: Call)
    requires Sized(reg, c) && |call.inputs| <= ARGS_MAX && Run(reg, c, call).Return?
    ensures var d, e := Run(reg, c, call).context, reg[call.entry];
            && d.output == 0
            && d.previous == if e.replace.Some? then e.replace.value else NULL
  {
    hide Observe, Operate;
    var e, c0 := reg[call.entry], Enter(reg, c, call);
    var c1 := Observe(reg, c0, e.pre, call.before, PreAnchor).value;
    OperateKeeps(reg, c1, e, call.body);
  }

  /** The outputs of a call: the last ones saved by its observers and its operation. */
  function OutputsOf(reg: seq<Entry>, call: Call): seq<int> {
    if 0 <= call.entry < |reg| then
      var e := reg[call.entry];
      LastOf(|e.post|, call.after, Last(call.body, LastOf(|e.pre|, call.before, [])))
    else []
  }

  // -------------------------------------------------------------------- the whole input array

  /** What a script leaves in input slot i, which held v, when its own operation was called with
      n inputs: a nested call puts the slots below n back and leaves its own value in the others. */
  function SlotAfter(reg: seq<Entry>, script: Script, n: nat, i: nat, v: int): int
    decreases script
  {
    match script
    case End => v
    case Save(_, next) => SlotAfter(reg, next, n, i, v)
    case SetInput(j, w, next) => SlotAfter(reg, next, n, i, if i == j then w else v)
    case Invoke(call, next) =>
      SlotAfter(reg, next, n, i, if i < n then v else LeftInSlot(reg, call, i, v))
  }

  function SlotAfterAll(reg: seq<Entry>, count: nat, scripts: Scripts, n: nat, i: nat, v: int): int
    decreases scripts
  {
    if count == 0 || scripts.Silent? then v
    else SlotAfterAll(reg, count - 1, scripts.others, n, i, SlotAfter(reg, scripts.first, n, i, v))
  }

  /** What a call leaves in input slot i, which held v, before anything is put back. */
  function LeftInSlot(reg: seq<Entry>, call: Call, i: nat, v: int): int
    decreases call
  {
    if |call.inputs| > ARGS_MAX || !(0 <= call.entry < |reg|) then v
    else
      var e, n := reg[call.entry], |call.inputs|;
      var v0 := if i < n then call.inputs[i] else v;
      var v1 := SlotAfterAll(reg, |e.pre|, call.before, n, i, v0);
      SlotAfterAll(reg, |e.post|, call.after, n, i, SlotAfter(reg, call.body, n, i, v1))
  }

  lemma {:induction false} ScriptSlot(reg: seq<Entry>, c: Context, script: Script, i: nat)
    requires Sized(reg, c) && i < ARGS_MAX
    ensures var r := RunScript(reg, c, script);
            r.Some? ==> r.value.inputv[i] == SlotAfter(reg, script, c.inputc, i, c.inputv[i])
    decreases script, 0
  {
    match script
    case End =>
    case Save(vs, next) =>
      ScriptSlot(reg, SaveOutputs(c, vs), next, i);
    case SetInput(j, w, next) =>
      ScriptSlot(reg, c.(inputv := c.inputv[j := w]), next, i);
    case Invoke(call, next) =>
      RunSlot(reg, c, call, i);
      RunRestores(reg, c, call);
      var r := Run(reg, c, call);
      if r.Return? { ScriptSlot(reg, r.context, next, i); }
  }

  lemma {:induction false} ObserveSlot(reg: seq<Entry>, c: Context, plugins: seq<int>,
                                       scripts: Scripts, anchor: Anchor, i: nat)
    requires Sized(reg, c) && i < ARGS_MAX
    ensures var r := Observe(reg, c, plugins, scripts, anchor);
            r.Some? ==>
              r.value.inputv[i] == SlotAfterAll(reg, |plugins|, scripts, c.inputc, i, c.inputv[i])
    decreases scripts, |plugins|
  {
    if plugins != [] {
      var d := Start(c.(plugin := plugins[0], anchor := anchor));
      match scripts
      case Silent =>
        ObserveSlot(reg, d, plugins[1..], Silent, anchor, i);
      case Then(first, others) =>
        ScriptSlot(reg, d, first, i);
        ScriptKeeps(reg, d, first);
        var r := RunScript(reg, d, first);
        if r.Some? { ObserveSlot(reg, r.value, plugins[1..], others, anchor, i); }
    }
  }

  /** Every input slot after every call that returns: those the caller was called with are put
      back, the others hold what the call left there. */
  lemma {:induction false} RunSlot(reg: seq<Entry>, c: Context, call: Call, i: nat)
    requires Sized(reg, c) && i < ARGS_MAX
    ensures var r := Run(reg, c, call);
            r.Return? ==> r.context.inputv[i] == if i < c.inputc then c.inputv[i]
                                                 else LeftInSlot(reg, call, i, c.inputv[i])
    decreases call
  {
    if |call.inputs| <= ARGS_MAX && CanRun(reg, c, call) {
      var e, c0 := reg[call.entry], Enter(reg, c, call);
      ObserveSlot(reg, c0, e.pre, call.before, PreAnchor, i);
      ObserveKeeps(reg, c0, e.pre, call.before, PreAnchor);
      var r1 := Observe(reg, c0, e.pre, call.before, PreAnchor);
      if r1.Some? {
        OperateSlot(reg, r1.value, e, call.body, i);
        OperateKeeps(reg, r1.value, e, call.body);
        var r2 := Operate(reg, r1.value, e, call.body);
        if r2.Some? {
          assert Run(reg, c, call) == Ending(reg, c, r2.value, call);
          var c2 := if e.post == [] then r2.value else r2.value.(output := call.status);
          ObserveSlot(reg, c2, e.post, call.after, PostAnchor, i);
        }
      }
    }
  }

  lemma {:induction false} OperateSlot(reg: seq<Entry>, c: Context, e: Entry, body: Script, i: nat)
    requires Sized(reg, c) && i < ARGS_MAX
    ensures var r := Operate(reg, c, e, body);
            r.Some? ==> r.value.inputv[i] == SlotAfter(reg, body, c.inputc, i, c.inputv[i])
    decreases body, 1
  {
    ScriptSlot(reg, ForBody(c, e), body, i);
  }

  /** The dispatcher's own remark that all inputs are restored is too strong: only those the
      caller was called with are. After a call that returns, the whole array is as it was exactly
      when the call leaves every slot beyond the caller's count as it found it. */
  lemma AllInputsRestoredIff(reg: seq<Entry>, c: Context, call: Call)
    requires Sized(reg, c) && Run(reg, c, call).Return?
    ensures Run(reg, c, call).context.inputv == c.inputv
            <==> forall i :: c.inputc <= i < ARGS_MAX ==>
                   LeftInSlot(reg, call, i, c.inputv[i]) == c.inputv[i]
  {
    hide Run, LeftInSlot;
    var after := Run(reg, c, call).context.inputv;
    forall i: nat | i < ARGS_MAX
      ensures after[i] == if i < c.inputc then c.inputv[i] else LeftInSlot(reg, call, i, c.inputv[i])
    {
      RunSlot(reg, c, call, i);
    }
  }

  /** A call that does nothing leaves the array as it was exactly when its inputs beyond the
      caller's count were there already. */
  lemma SilentCallRestoresIff(reg: seq<Entry>, c: Context, call: Call)
    requires Sized(reg, c) && |call.inputs| <= ARGS_MAX && Run(reg, c, call).Return?
    requires call.before == Silent && call.body == End && call.after == Silent
    ensures Run(reg, c, call).context.inputv == c.inputv
            <==> forall i :: c.inputc <= i < |call.inputs| ==> call.inputs[i] == c.inputv[i]
  {
    AllInputsRestoredIff(reg, c, call);
    RunRestores(reg, c, call);
    hide Run;
    assert forall i :: 0 <= i < ARGS_MAX ==>
             LeftInSlot(reg, call, i, c.inputv[i])
             == if i < |call.inputs| then call.inputs[i] else c.inputv[i];
  }

  // ------------------------------------------------------------------------------------- nesting

  function Max(a: nat, b: nat): nat { if a < b then b else a }

  /** How deep the calls of a script nest. */
  function ScriptDepth(reg: seq<Entry>, script: Script): nat
    decreases script
  {
    match script
    case End => 0
    case Save(_, next) => ScriptDepth(reg, next)
    case SetInput(_, _, next) => ScriptDepth(reg, next)
    case Invoke(call, next) => Max(Depth(reg, call), ScriptDepth(reg, next))
  }

  function ScriptsDepth(reg: seq<Entry>, n: nat, scripts: Scripts): nat
    decreases scripts
  {
    if n == 0 || scripts.Silent? then 0
    else Max(ScriptDepth(reg, scripts.first), ScriptsDepth(reg, n - 1, scripts.others))
  }

  /** A refused call has depth 0; any other is one deeper than the calls of its code. */
  function Depth(reg: seq<Entry>, call: Call): nat
    decreases call
  {
    if |call.inputs| > ARGS_MAX || !(0 <= call.entry < |reg|) then 0
    else
      var e := reg[call.entry];
      1 + Max(ScriptsDepth(reg, |e.pre|, call.before),
              Max(ScriptDepth(reg, call.body), ScriptsDepth(reg, |e.post|, call.after)))
  }

  /** The entries that are not on the call stack. */
  function Idle(running: seq<bool>): nat {
    if running == [] then 0 else (if running[0] then 0 else 1) + Idle(running[1..])
  }

  lemma {:induction false} IdleFewer(running: seq<bool>, i: nat)
    requires i < |running| && !running[i]
    ensures Idle(running) == Idle(running[i := true]) + 1
  {
    if i == 0 {
      assert running[0 := true][1..] == running[1..];
    } else {
      IdleFewer(running[1..], i - 1);
      assert running[i := true][1..] == running[1..][i - 1 := true];
    }
  }

  lemma {:induction false} IdleBound(running: seq<bool>)
    ensures Idle(running) <= |running|
  {
    if running != [] { IdleBound(running[1..]); }
  }

  /** How deep the calls of a script really nest, up to its end or the exit of the program. */
  function ScriptReach(reg: seq<Entry>, c: Context, script: Script): nat
    requires Sized(reg, c)
    decreases script, 0
  {
    match script
    case End => 0
    case Save(vs, next) => ScriptReach(reg, SaveOutputs(c, vs), next)
    case SetInput(i, v, next) => ScriptReach(reg, c.(inputv := c.inputv[i := v]), next)
    case Invoke(call, next) =>
      Max(Reach(reg, c, call),
          match Run(reg, c, call)
          case Halt => 0
          case Return(c', _, _) => ScriptReach(reg, c', next))
  }

  function ObserveReach(reg: seq<Entry>, c: Context, plugins: seq<int>, scripts: Scripts, anchor: Anchor)
    : nat
    requires Sized(reg, c)
    decreases scripts, |plugins|
  {
    if plugins == [] || scripts.Silent? then 0
    else
      var d := Start(c.(plugin := plugins[0], anchor := anchor));
      Max(ScriptReach(reg, d, scripts.first),
          match RunScript(reg, d, scripts.first)
          case None => 0
          case Some(d') => ObserveReach(reg, d', plugins[1..], scripts.others, anchor))
  }

  function OperateReach(reg: seq<Entry>, c: Context, e: Entry, body: Script): nat
    requires Sized(reg, c)
    decreases body, 1
  {
    if e.replace.Some? then
      ScriptReach(reg, Start(c.(plugin := e.replace.value, anchor := ReplaceAnchor)), body)
    else if e.core then ScriptReach(reg, Start(c.(plugin := NULL)), body)
    else 0
  }

  /** How deep a call really nests: the most entries it has on the call stack at once. */
  function Reach(reg: seq<Entry>, c: Context, call: Call): nat
    requires Sized(reg, c)
    decreases call
  {
    if |call.inputs| > ARGS_MAX || !CanRun(reg, c, call) then 0
    else
      var e, c0 := reg[call.entry], Enter(reg, c, call);
      1 + Max(ObserveReach(reg, c0, e.pre, call.before, PreAnchor),
              match Observe(reg, c0, e.pre, call.before, PreAnchor)
              case None => 0
              case Some(c1) =>
                Max(OperateReach(reg, c1, e, call.body),
                    match Operate(reg, c1, e, call.body)
                    case None => 0
                    case Some(c2) =>
                      ObserveReach(reg, if e.post == [] then c2 else c2.(output := call.status),
                                   e.post, call.after, PostAnchor)))
  }

  lemma {:induction false} ScriptNests(reg: seq<Entry>, c: Context, script: Script)
    requires Sized(reg, c)
    ensures ScriptReach(reg, c, script) <= Idle(c.running)
    ensures RunScript(reg, c, script).Some? ==> ScriptReach(reg, c, script) == ScriptDepth(reg, script)
    decreases script, 0
  {
    match script
    case End =>
    case Save(vs, next) =>
      ScriptNests(reg, SaveOutputs(c, vs), next);
    case SetInput(i, v, next) =>
      ScriptNests(reg, c.(inputv := c.inputv[i := v]), next);
    case Invoke(call, next) =>
      RunNests(reg, c, call);
      RunRestores(reg, c, call);
      var r := Run(reg, c, call);
      if r.Return? { ScriptNests(reg, r.context, next); }
  }

  lemma {:induction false} ObserveNests(reg: seq<Entry>, c: Context, plugins: seq<int>,
                                        scripts: Scripts, anchor: Anchor)
    requires Sized(reg, c)
    ensures ObserveReach(reg, c, plugins, scripts, anchor) <= Idle(c.running)
    ensures Observe(reg, c, plugins, scripts, anchor).Some? ==>
              ObserveReach(reg, c, plugins, scripts, anchor) == ScriptsDepth(reg, |plugins|, scripts)
    decreases scripts, |plugins|
  {
    if plugins != [] && scripts.Then? {
      var d := Start(c.(plugin := plugins[0], anchor := anchor));
      ScriptNests(reg, d, scripts.first);
      ScriptKeeps(reg, d, scripts.first);
      var r := RunScript(reg, d, scripts.first);
      if r.Some? { ObserveNests(reg, r.value, plugins[1..], scripts.others, anchor); }
    }
  }

  lemma {:induction false} OperateNests(reg: seq<Entry>, c: Context, e: Entry, body: Script)
    requires Sized(reg, c)
    ensures OperateReach(reg, c, e, body) <= Idle(c.running)
    ensures Operate(reg, c, e, body).Some? ==> OperateReach(reg, c, e, body) == ScriptDepth(reg, body)
    decreases body, 1
  {
    ScriptNests(reg, ForBody(c, e), body);
  }

  /** A call nests no deeper than there are entries not yet on the call stack, because a running
      entry is never entered again; so never deeper than the registry is long. That holds also
      for calls that end in the exit of the program; one that returns nests as deep as its tree. */
  lemma {:induction false} RunNests(reg: seq<Entry>, c: Context, call: Call)
    requires Sized(reg, c)
    ensures Reach(reg, c, call) <= Idle(c.running) <= |reg|
    ensures Run(reg, c, call).Return? ==> Reach(reg, c, call) == Depth(reg, call)
    decreases call
  {
    IdleBound(c.running);
    if |call.inputs| <= ARGS_MAX && CanRun(reg, c, call) {
      var e, c0 := reg[call.entry], Enter(reg, c, call);
      IdleFewer(c.running, call.entry);
      ObserveNests(reg, c0, e.pre, call.before, PreAnchor);
      ObserveKeeps(reg, c0, e.pre, call.before, PreAnchor);
      var r1 := Observe(reg, c0, e.pre, call.before, PreAnchor);
      if r1.Some? {
        OperateNests(reg, r1.value, e, call.body);
        OperateKeeps(reg, r1.value, e, call.body);
        var r2 := Operate(reg, r1.value, e, call.body);
        if r2.Some? {
          assert Run(reg, c, call) == Ending(reg, c, r2.value, call);
          ObserveNests(reg, if e.post == [] then r2.value else r2.value.(output := call.status),
                       e.post, call.after, PostAnchor);
        }
      }
    }
  }

  // ------------------------------------------------------------------------------ the dispatcher

  function FirstHalf(reg: seq<Entry>, c: Context, e: Entry, call: Call): (r: Option<Context>)
    requires Sized(reg, c)
    ensures r.Some? ==> Sized(reg, r.value)
  {
    match Observe(reg, c, e.pre, call.before, PreAnchor)
    case None => None
    case Some(c1) => Operate(reg, c1, e, call.body)
  }

  lemma RunIsStaged(reg: seq<Entry>, c: Context, call: Call)
    requires Sized(reg, c) && |call.inputs| <= ARGS_MAX
    ensures Run(reg, c, call) ==
            if !CanRun(reg, c, call) then Halt
            else match FirstHalf(reg, Enter(reg, c, call), reg[call.entry], call)
                 case None => Halt
                 case Some(d) => Ending(reg, c, d, call)
  {
  }

  /** The fields of the connection that plugin_run_protoop_internal saves, sets and restores. */
  class Connection {
    const inputv: array<int>
    const outputv: array<int>
    const running: array<bool>
    var inputc: nat
    var outputc: nat
    var plugin: int
    var op: int
    var anchor: Anchor
    var previous: int
    var output: int
    var executed: seq<View>  // what code has been executed, and what it found

    ghost predicate Valid(reg: seq<Entry>)
      reads this
    {
      && inputv != outputv && inputv.Length == outputv.Length == ARGS_MAX
      && inputc <= ARGS_MAX && outputc <= ARGS_MAX && running.Length == |reg|
    }

    ghost function Abstract(): Context
      reads this, inputv, outputv, running
    {
      Context(inputv[..], outputv[..], inputc, outputc, plugin, op, anchor, previous, output, running[..],
              executed)
    }

    method Copy(a: array<int>, s: seq<int>)
      requires |s| <= a.Length
      modifies a
      ensures a[..] == Overwrite(old(a[..]), s)
    {
      forall i | 0 <= i < |s| {
        a[i] := s[i];
      }
    }

    /** exec_loaded_code, or the core function: what the code does, step by step. */
    method Execute(reg: seq<Entry>, script: Script) returns (halted: bool)
      requires Valid(reg)
      modifies this, inputv, outputv, running
      ensures halted <==> RunScript(reg, old(Abstract()), script) == None
      ensures !halted ==> Valid(reg) && RunScript(reg, old(Abstract()), script) == Some(Abstract())
      decreases script, 0
    {
      match script
      case End => halted := false;
      case Save(vs, next) =>
        Copy(outputv, vs);
        outputc := |vs|;
        halted := Execute(reg, next);
      case SetInput(i, v, next) =>
        inputv[i] := v;
        halted := Execute(reg, next);
      case Invoke(call, next) =>
        var status, outputs;
        halted, status, outputs := RunProtoop(reg, call);
        if !halted {
          halted := Execute(reg, next);
        }
    }

    /** The loops over the observers. */
    method RunObservers(reg: seq<Entry>, plugins: seq<int>, scripts: Scripts, at: Anchor)
      returns (halted: bool)
      requires Valid(reg)
      modifies this, inputv, outputv, running
      ensures halted <==> Observe(reg, old(Abstract()), plugins, scripts, at) == None
      ensures !halted ==>
                Valid(reg) && Observe(reg, old(Abstract()), plugins, scripts, at) == Some(Abstract())
      decreases scripts, 1
    {
      var i: nat, rest := 0, scripts;
      while i < |plugins|
        invariant i <= |plugins| && (rest == scripts || rest < scripts) && Valid(reg)
        invariant Observe(reg, old(Abstract()), plugins, scripts, at)
                  == Observe(reg, Abstract(), plugins[i..], rest, at)
      {
        plugin := plugins[i];
        anchor := at;
        executed := executed + [View(plugin, anchor, op, inputc, output)];
        assert plugins[i..][1..] == plugins[i + 1..];
        if rest.Then? {
          halted := Execute(reg, rest.first);
          if halted { return true; }
          rest := rest.others;
        }
        i := i + 1;
      }
      halted := false;
    }

    /** The operation itself. */
    method RunOperation(reg: seq<Entry>, e: Entry, body: Script) returns (halted: bool)
      requires Valid(reg)
      modifies this, inputv, outputv, running
      ensures halted <==> Operate(reg, old(Abstract()), e, body) == None
      ensures !halted ==> Valid(reg) && Operate(reg, old(Abstract()), e, body) == Some(Abstract())
      decreases body, 1
    {
      if e.replace.Some? {
        plugin := e.replace.value;
        anchor := ReplaceAnchor;
        executed := executed + [View(plugin, anchor, op, inputc, output)];
        halted := Execute(reg, body);
        previous := plugin;
      } else if e.core {
        plugin := NULL;
        executed := executed + [View(plugin, anchor, op, inputc, output)];
        halted := Execute(reg, body);
      } else {
        halted := true;
      }
    }

    /** The way back to the caller c. */
    method RestoreCaller(entry: int, inputs: seq<int>, saved: seq<int>, replacePlugin: int,
                         oldPlugin: int, oldOp: int, oldAnchor: Anchor, ghost c: Context)
      requires inputv != outputv && inputv.Length == outputv.Length == |c.inputv| == |c.outputv|
      requires c.inputc <= |c.inputv| && c.outputc <= |c.outputv| && 0 <= entry < running.Length
      requires inputs == Inputs(c) && saved == Outputs(c)
      requires oldPlugin == c.plugin && oldOp == c.op && oldAnchor == c.anchor
      modifies this, inputv, outputv, running
      ensures Abstract() == Leave(c, old(Abstract()), entry, replacePlugin)
    {
      output := 0;
      Copy(inputv, inputs);
      Copy(outputv, saved);
      inputc := |inputs|;
      running[entry] := false;
      outputc := |saved|;
      previous := replacePlugin;
      plugin, op, anchor := oldPlugin, oldOp, oldAnchor;
    }

    /** The first half: the observers before the operation, and the operation. */
    method RunFirst(reg: seq<Entry>, e: Entry, call: Call) returns (halted: bool)
      requires Valid(reg)
      modifies this, inputv, outputv, running
      ensures halted <==> FirstHalf(reg, old(Abstract()), e, call) == None
      ensures !halted ==> Valid(reg) && FirstHalf(reg, old(Abstract()), e, call) == Some(Abstract())
      decreases call, 0
    {
      hide Observe, Operate;
      halted := RunObservers(reg, e.pre, call.before, PreAnchor);
      if !halted {
        halted := RunOperation(reg, e, call.body);
      }
    }

    /** The second half: the observers after the operation, and the way back to the caller c. */
    method Finish(reg: seq<Entry>, e: Entry, call: Call, inputs: seq<int>, saved: seq<int>, oldPlugin: int,
                  oldOp: int, oldAnchor: Anchor, ghost c: Context)
      returns (halted: bool, outputs: seq<int>)
      requires Valid(reg) && Sized(reg, c) && 0 <= call.entry < |reg| && e == reg[call.entry]
      requires inputs == Inputs(c) && saved == Outputs(c)
      requires oldPlugin == c.plugin && oldOp == c.op && oldAnchor == c.anchor
      modifies this, inputv, outputv, running
      ensures halted <==> Ending(reg, c, old(Abstract()), call) == Halt
      ensures !halted ==>
                && Valid(reg)
                && Ending(reg, c, old(Abstract()), call) == Return(Abstract(), call.status, outputs)
      decreases call, 0
    {
      hide Observe;
      var replacePlugin := if e.replace.Some? then plugin else NULL;
      outputs := [];
      if e.post != [] {
        output := call.status;
      }
      halted := RunObservers(reg, e.post, call.after, PostAnchor);
      if halted { return; }
      hide Leave;
      if call.wantsOutputs {
        outputs := outputv[..outputc];
      }
      RestoreCaller(call.entry, inputs, saved, replacePlugin, oldPlugin, oldOp, oldAnchor, c);
    }

    /** The inputs of a call, and no outputs yet. */
    method SetInputs(inputs: seq<int>)
      requires inputv != outputv && |inputs| <= inputv.Length
      modifies this`inputc, this`outputc, inputv
      ensures Abstract() == old(Abstract()).(inputv := Overwrite(old(inputv[..]), inputs),
                                             inputc := |inputs|, outputc := 0)
    {
      Copy(inputv, inputs);
      inputc := |inputs|;
      outputc := 0;
    }

    /** plugin_run_protoop_internal. */
    method RunProtoop(reg: seq<Entry>, call: Call) returns (halted: bool, status: int, outputs: seq<int>)
      requires Valid(reg)
      modifies this, inputv, outputv, running
      ensures halted <==> Run(reg, old(Abstract()), call) == Halt
      ensures !halted ==>
                Valid(reg) && Run(reg, old(Abstract()), call) == Return(Abstract(), status, outputs)
      decreases call
    {
      halted, status, outputs := false, call.status, [];
      if |call.inputs| > ARGS_MAX {
        return false, TOO_MANY_ARGUMENTS, [];
      }
      hide Observe, Operate, Ending;
      ghost var c := Abstract();
      RunIsStaged(reg, c, call);
      hide Run;
      var oldPlugin, oldOp, oldAnchor := plugin, op, anchor;
      var inputs, saved := inputv[..inputc], outputv[..outputc];
      SetInputs(call.inputs);
      if !(0 <= call.entry < |reg|) || call.intern != reg[call.entry].intern || running[call.entry] {
        return true, 0, [];
      }
      var e := reg[call.entry];
      running[call.entry] := true;
      op := e.op;
      assert Abstract() == Enter(reg, c, call);
      halted := RunFirst(reg, e, call);
      if halted { return; }
      halted, outputs := Finish(reg, e, call, inputs, saved, oldPlugin, oldOp, oldAnchor, c);
    }
  }
}
