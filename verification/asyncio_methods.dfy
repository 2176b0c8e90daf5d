/** The asyncio rule (`_plugins/asyncio_methods.py`): the class methods
    `asyncio.Task.current_task` and `asyncio.Task.all_tasks` became module
    functions in Python 3.9. The whole call is spliced into one token that
    keeps the argument text verbatim (apart from surrounding whitespace). */
module AsyncioMethods {
  import opened Basics
  import opened Tokens
  import opened Syntax
  import opened Versions

  /** `ASYNCIO_TASK_METHODS` */
  const TaskMethods: map<string, string> := map[
    "current_task" := "asyncio.current_task",
    "all_tasks" := "asyncio.all_tasks"
  ]

  /** Each replacement is the same function name, on the module. */
  lemma TaskMethodsMoveToModule()
    ensures forall m :: m in TaskMethods ==> TaskMethods[m] == "asyncio." + m
  {
  }

  /** How a token moves the parenthesis depth. */
  function Delta(t: Token): int {
    if t.src == "(" then 1 else if t.src == ")" then -1 else 0
  }

  /** The parenthesis depth reached after the tokens in `[j, k)`. */
  function Depth(ts: seq<Token>, j: nat, k: nat): int
    requires j <= k <= |ts|
    decreases k - j
  {
    if k == j then 0 else Depth(ts, j, k - 1) + Delta(ts[k - 1])
  }

  /** The depth scan of `_fix_asyncio_task_method`, resumed at `k` with the
      running depth: the first index at or after `k` holding a `)` that
      brings the depth counted from `j` back to 0, or `|ts|` if none. */
  function FindClose(ts: seq<Token>, j: nat, k: nat, depth: int): (r: nat)
    requires j <= k <= |ts| && depth == Depth(ts, j, k)
    ensures k <= r <= |ts|
    ensures forall m :: k <= m < r ==> !(ts[m].src == ")" && Depth(ts, j, m) == 1)
    ensures r < |ts| ==> ts[r].src == ")" && Depth(ts, j, r) == 1
    decreases |ts| - k
  {
    if k == |ts| then k
    else if ts[k].src == "(" then FindClose(ts, j, k + 1, depth + 1)
    else if ts[k].src == ")" then
      if depth - 1 == 0 then k else FindClose(ts, j, k + 1, depth - 1)
    else FindClose(ts, j, k + 1, depth)
  }

  /** Without a `(` in `[j, k)` the depth never rises above 0. */
  lemma {:induction false} DepthWithoutOpenParen(ts: seq<Token>, j: nat, k: nat)
    requires j <= k <= |ts|
    requires forall m :: j <= m < k ==> ts[m].src != "("
    ensures Depth(ts, j, k) <= 0
    decreases k - j
  {
    if k > j {
      DepthWithoutOpenParen(ts, j, k - 1);
    }
  }

  /** When the closing `)` is found, a `(` comes before it, so the
      "no opening parenthesis" exit of the source is never taken. */
  lemma OpenParenBeforeClose(ts: seq<Token>, j: nat)
    requires j <= |ts|
    requires FindClose(ts, j, j, 0) < |ts|
    ensures FindSrc(ts, j, "(") < FindClose(ts, j, j, 0)
  {
    var k := FindClose(ts, j, j, 0);
    var p := FindSrc(ts, j, "(");
    if p >= k {
      DepthWithoutOpenParen(ts, j, k);
    }
  }

  /** The spliced-in call: the new callee and the stripped argument text. */
  function NewCallText(newCall: string, args: string): string {
    newCall + "(" + Strip(args) + ")"
  }

  /** Where the splice starts: the first `asyncio` token at or after `i`. */
  function TaskStart(ts: seq<Token>, i: nat): nat
    requires i <= |ts|
  {
    FindSrc(ts, i, "asyncio")
  }

  /** The `)` closing the call that starts there. */
  function TaskClose(ts: seq<Token>, i: nat): nat
    requires i <= |ts| && TaskStart(ts, i) < |ts|
  {
    FindClose(ts, TaskStart(ts, i), TaskStart(ts, i), 0)
  }

  /** The first `(` after the start; it precedes the closing `)`. */
  function TaskOpen(ts: seq<Token>, i: nat): (p: nat)
    requires i <= |ts| && TaskStart(ts, i) < |ts| && TaskClose(ts, i) < |ts|
    ensures TaskStart(ts, i) <= p < TaskClose(ts, i)
  {
    OpenParenBeforeClose(ts, TaskStart(ts, i));
    FindSrc(ts, TaskStart(ts, i), "(")
  }

  /** The token spliced in: `newCall(args)` with the call's argument text. */
  function TaskCall(ts: seq<Token>, i: nat, newCall: string): Token
    requires i <= |ts| && TaskStart(ts, i) < |ts| && TaskClose(ts, i) < |ts|
  {
    Synthetic(NewCallText(newCall, Concat(ts[TaskOpen(ts, i) + 1..TaskClose(ts, i)])))
  }

  /** `_fix_asyncio_task_method`: from the first `asyncio` token at or
      after `i` to the `)` that closes the call, the tokens become one
      token `newCall(args)`, where `args` is the stripped text strictly
      between the first `(` and that `)`. With no `asyncio` token or no
      closing `)` the list is unchanged. The source's third exit, no `(`
      before the closing `)`, cannot be reached (`OpenParenBeforeClose`). */
  function FixTaskMethod(ts: seq<Token>, i: nat, newCall: string): (r: seq<Token>)
    requires i <= |ts|
    ensures TaskStart(ts, i) == |ts| ==> r == ts
    ensures TaskStart(ts, i) < |ts| && TaskClose(ts, i) == |ts| ==> r == ts
    ensures TaskStart(ts, i) < |ts| && TaskClose(ts, i) < |ts| ==>
      && |r| == |ts| - (TaskClose(ts, i) - TaskStart(ts, i))
      && r[..TaskStart(ts, i)] == ts[..TaskStart(ts, i)]
      && r[TaskStart(ts, i)] == Synthetic(NewCallText(newCall, Concat(ts[TaskOpen(ts, i) + 1..TaskClose(ts, i)])))
      && r[TaskStart(ts, i) + 1..] == ts[TaskClose(ts, i) + 1..]
  {
    if TaskStart(ts, i) == |ts| || TaskClose(ts, i) == |ts| then ts
    else Splice(ts, TaskStart(ts, i), TaskClose(ts, i) + 1, TaskCall(ts, i, newCall))
  }

  lemma TaskMethodIsSplice(ts: seq<Token>, i: nat, newCall: string)
    requires i <= |ts| && TaskStart(ts, i) < |ts| && TaskClose(ts, i) < |ts|
    ensures FixTaskMethod(ts, i, newCall)
            == Splice(ts, TaskStart(ts, i), TaskClose(ts, i) + 1, TaskCall(ts, i, newCall))
  {
  }

  /** In text terms the call, from `asyncio` to its closing parenthesis,
      is replaced by the module-level call with the same (stripped)
      argument text; the text around it stays. */
  lemma {:induction false} TaskMethodInText(ts: seq<Token>, i: nat, newCall: string)
    requires i <= |ts| && TaskStart(ts, i) < |ts| && TaskClose(ts, i) < |ts|
    ensures Concat(FixTaskMethod(ts, i, newCall))
            == Concat(ts[..TaskStart(ts, i)])
               + NewCallText(newCall, Concat(ts[TaskOpen(ts, i) + 1..TaskClose(ts, i)]))
               + Concat(ts[TaskClose(ts, i) + 1..])
  {
    TaskMethodIsSplice(ts, i, newCall);
    SpliceText(FixTaskMethod(ts, i, newCall), ts, TaskStart(ts, i), TaskClose(ts, i) + 1, TaskCall(ts, i, newCall));
  }

  /** `visit_Call`: with a 3.9+ target, exactly `asyncio.Task.<method>(...)`
      on the bare name `asyncio`, for a method in the table, registers the
      splice, bound to that method's module-level name. */
  function VisitCall(node: Node, st: State): (regs: seq<Registration>)
    requires node.Call?
    ensures |regs| <= 1
    ensures |regs| == 1 <==>
      && !Lt(st.settings.minVersion, Py39)
      && exists m :: m in TaskMethods && node.func == AttrExpr(AttrExpr(NameExpr("asyncio"), "Task"), m)
    ensures |regs| == 1 ==>
      regs[0] == Registration(node.at, AsyncioTaskMethod("asyncio." + node.func.attr))
  {
    if Lt(st.settings.minVersion, Py39) then []
    else if && node.func.AttrExpr?
            && node.func.value == AttrExpr(NameExpr("asyncio"), "Task")
            && node.func.attr in TaskMethods then
      TaskMethodsMoveToModule();
      [Registration(node.at, AsyncioTaskMethod(TaskMethods[node.func.attr]))]
    else []
  }
}
