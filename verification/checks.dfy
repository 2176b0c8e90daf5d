/** The detection-only checks of `_main.py`: imports of modules removed in
    Python 3.12 (fatal for the file) and calls of methods that are
    deprecated on some types but cannot be rewritten without knowing the
    receiver's type (a warning). Both walk the AST only. */
module Checks {
  import opened Basics
  import opened Tokens
  import opened Syntax

  /** `REMOVED_MODULES`: module to migration advice. */
  const RemovedModules: map<string, string> := map[
    "distutils" := "Use setuptools instead",
    "asynchat" := "Use asyncio instead",
    "asyncore" := "Use asyncio instead",
    "smtpd" := "Use aiosmtpd package instead",
    "imp" := "Use importlib instead"
  ]

  /** One reported import: its line, the removed module and the advice. */
  datatype RemovedError = RemovedError(line: int, modName: string, suggestion: string)

  function RemovedErrorFor(line: int, dotted: string): RemovedError
    requires FirstComponent(dotted) in RemovedModules
  {
    var m := FirstComponent(dotted);
    RemovedError(line, m, RemovedModules[m])
  }

  /** A name whose first dotted component is a removed module. */
  predicate IsRemoved(dotted: string) {
    FirstComponent(dotted) in RemovedModules
  }

  /** How many errors a node is worth: one per offending alias of an
      `import`, one for a `from` import of an offending (non-empty) module. */
  function ErrorCount(node: Node): nat {
    match node
    case Import(names, _) => AliasCount(names)
    case ImportFrom(m, _, _, _) => if m.Some? && m.value != "" && IsRemoved(m.value) then 1 else 0
    case _ => 0
  }

  function AliasCount(names: seq<Alias>): nat {
    if |names| == 0 then 0 else (if IsRemoved(names[0].name) then 1 else 0) + AliasCount(names[1..])
  }

  function TotalErrorCount(nodes: seq<Node>): nat {
    if |nodes| == 0 then 0 else ErrorCount(nodes[0]) + TotalErrorCount(nodes[1..])
  }

  predicate Correct(e: RemovedError) {
    e.modName in RemovedModules && e.suggestion == RemovedModules[e.modName]
  }

  /** `e` is the error the scan reports for an alias of `names` on `line`. */
  predicate FromAlias(e: RemovedError, names: seq<Alias>, line: int) {
    exists a :: a in names && IsRemoved(a.name) && e == RemovedErrorFor(line, a.name)
  }

  /** `e` is an error the scan reports for node `n`: on the node's line,
      for the first component of an imported module or of the `from`
      module, with that module's advice. */
  predicate Reports(n: Node, e: RemovedError) {
    || (n.Import? && FromAlias(e, n.names, n.at.line))
    || (n.ImportFrom? && n.modName.Some? && n.modName.value != "" && IsRemoved(n.modName.value)
        && e == RemovedErrorFor(n.at.line, n.modName.value))
  }

  /** The error one alias is worth: its own when its module is removed. */
  function AliasHead(a: Alias, line: int): seq<RemovedError> {
    if IsRemoved(a.name) then [RemovedErrorFor(line, a.name)] else []
  }

  function AliasErrors(names: seq<Alias>, line: int): (errs: seq<RemovedError>)
    ensures |errs| == AliasCount(names)
    ensures forall e :: e in errs ==> Correct(e) && e.line == line
    ensures forall a :: a in names && IsRemoved(a.name) ==> RemovedErrorFor(line, a.name) in errs
    ensures forall e :: e in errs ==> FromAlias(e, names, line)
  {
    if |names| == 0 then []
    else
      var rest := AliasErrors(names[1..], line);
      assert forall a :: a in names ==> a == names[0] || a in names[1..];
      assert forall a :: a in names[1..] ==> a in names;
      AliasHead(names[0], line) + rest
  }

  /** The errors one node of the walk contributes: exactly the errors the
      scan reports for it, on its line, as many as it has offending
      imports. */
  function NodeErrors(node: Node): (errs: seq<RemovedError>)
    ensures |errs| == ErrorCount(node)
    ensures forall e :: e in errs ==> Correct(e)
    ensures forall e :: e in errs <==> Reports(node, e)
    ensures node.Import? ==> errs == AliasErrors(node.names, node.at.line)
  {
    match node
    case Import(names, at) => AliasErrors(names, at.line)
    case ImportFrom(m, _, _, at) =>
      if m.Some? && m.value != "" && IsRemoved(m.value) then [RemovedErrorFor(at.line, m.value)] else []
    case _ => []
  }

  /** Some node of `nodes` reports `e`. */
  predicate ReportedIn(nodes: seq<Node>, e: RemovedError) {
    exists n :: n in nodes && Reports(n, e)
  }

  function AllErrors(nodes: seq<Node>): (errs: seq<RemovedError>)
    ensures |errs| == TotalErrorCount(nodes)
    ensures forall e :: e in errs ==> Correct(e)
    ensures forall e :: e in errs <==> ReportedIn(nodes, e)
  {
    if |nodes| == 0 then []
    else
      var head, rest := NodeErrors(nodes[0]), AllErrors(nodes[1..]);
      assert forall n :: n in nodes ==> n == nodes[0] || n in nodes[1..];
      assert forall n :: n in nodes[1..] ==> n in nodes;
      head + rest
  }

  /** `_check_removed_modules`: nothing when the source does not parse;
      otherwise one error per offending `import` alias and per offending
      `from` import with a module, and an error is in the list exactly when
      some node reports it: on that node's line, naming the removed
      top-level module and its advice. */
  function CheckRemovedModules(tree: Option<seq<Node>>): (errs: seq<RemovedError>)
    ensures tree == None ==> errs == []
    ensures tree.Some? ==> |errs| == TotalErrorCount(tree.value)
    ensures forall e :: e in errs ==> Correct(e)
    ensures tree.Some? ==> forall e :: e in errs <==> ReportedIn(tree.value, e)
  {
    if tree == None then [] else AllErrors(tree.value)
  }

  /** One alias gives its own error when its module is removed, else none. */
  lemma AliasErrorsSingle(a: Alias, line: int)
    ensures AliasErrors([a], line) == if IsRemoved(a.name) then [RemovedErrorFor(line, a.name)] else []
  {
    assert [a][1..] == [];
    assert AliasErrors([a], line) == AliasHead(a, line) + [];
  }

  /** `AliasHead` at a fixed line, as a function value. */
  function AliasHeadsAt(line: int): Alias -> seq<RemovedError> {
    a => AliasHead(a, line)
  }

  /** The errors of an alias list are each alias's own error or none,
      concatenated in alias order: one error per offending alias. */
  lemma {:induction false} AliasErrorsIsFlatMap(names: seq<Alias>, line: int)
    ensures AliasErrors(names, line) == FlatMap(names, AliasHeadsAt(line))
  {
    if |names| > 0 {
      AliasErrorsIsFlatMap(names[1..], line);
    }
  }

  /** The aliases are reported one after another in source order. */
  lemma AliasErrorsAppend(a: seq<Alias>, b: seq<Alias>, line: int)
    ensures AliasErrors(a + b, line) == AliasErrors(a, line) + AliasErrors(b, line)
  {
    AliasErrorsIsFlatMap(a + b, line);
    AliasErrorsIsFlatMap(a, line);
    AliasErrorsIsFlatMap(b, line);
    FlatMapAppend(a, b, AliasHeadsAt(line));
  }

  /** A walk of one node reports exactly that node's errors. */
  lemma AllErrorsSingle(n: Node)
    ensures AllErrors([n]) == NodeErrors(n)
  {
    assert [n][1..] == [];
    assert AllErrors([n]) == NodeErrors(n) + AllErrors([]);
  }

  /** The errors of a walk are each node's errors concatenated in walk
      order. */
  lemma {:induction false} AllErrorsIsFlatMap(nodes: seq<Node>)
    ensures AllErrors(nodes) == FlatMap(nodes, NodeErrors)
  {
    if |nodes| > 0 {
      AllErrorsIsFlatMap(nodes[1..]);
    }
  }

  /** The nodes are reported one after another in walk order. */
  lemma AllErrorsAppend(a: seq<Node>, b: seq<Node>)
    ensures AllErrors(a + b) == AllErrors(a) + AllErrors(b)
  {
    AllErrorsIsFlatMap(a + b);
    AllErrorsIsFlatMap(a);
    AllErrorsIsFlatMap(b);
    FlatMapAppend(a, b, NodeErrors);
  }

  /** The scan of a parsed file lists each node's errors in walk order:
      splitting the walk splits the list, and one node gives its own. */
  lemma RemovedModulesInWalkOrder(a: seq<Node>, b: seq<Node>, n: Node)
    ensures CheckRemovedModules(Some(a + b)) == CheckRemovedModules(Some(a)) + CheckRemovedModules(Some(b))
    ensures CheckRemovedModules(Some([n])) == NodeErrors(n)
  {
    AllErrorsAppend(a, b);
    AllErrorsSingle(n);
  }

  /** A file has removed-module errors exactly when it parses and some node
      imports a removed module. */
  lemma {:induction false} RemovedErrorsIffOffendingNode(nodes: seq<Node>)
    ensures TotalErrorCount(nodes) > 0 <==> exists n :: n in nodes && ErrorCount(n) > 0
  {
    if |nodes| > 0 {
      RemovedErrorsIffOffendingNode(nodes[1..]);
      assert forall n :: n in nodes ==> n == nodes[0] || n in nodes[1..];
    }
  }

  /** `from . import x` has no module and is never reported, whatever it
      imports. */
  lemma RelativeImportsNotReported(names: seq<Alias>, level: nat, at: Offset)
    ensures NodeErrors(ImportFrom(None, names, level, at)) == []
  {
  }

  lemma DistutilsIsTopLevel()
    ensures FirstComponent("distutils.core") == "distutils"
  {
    var dotted := "distutils.core";
    assert dotted[..9] == "distutils";
    FirstComponentAtDot(dotted, 9);
  }

  /** `import distutils.core` is reported as `distutils`. */
  lemma DottedImportReportsTopLevel(at: Offset)
    ensures NodeErrors(Import([Alias("distutils.core", None)], at))
            == [RemovedError(at.line, "distutils", "Use setuptools instead")]
  {
    var names := [Alias("distutils.core", None)];
    DistutilsIsTopLevel();
    assert "distutils" in RemovedModules && RemovedModules["distutils"] == "Use setuptools instead";
    var e := RemovedErrorFor(at.line, "distutils.core");
    assert e == RemovedError(at.line, "distutils", "Use setuptools instead");
    assert names[1..] == [];
    assert AliasErrors(names, at.line) == [e] + AliasErrors([], at.line);
  }

  /** `from imp import reload` is reported as `imp` on its own line, with
      the importlib advice; the import level is not consulted, so
      `from .imp import reload` is reported too. */
  lemma FromImportReportsItsModule(level: nat, at: Offset)
    ensures NodeErrors(ImportFrom(Some("imp"), [Alias("reload", None)], level, at))
            == [RemovedError(at.line, "imp", "Use importlib instead")]
  {
    assert FirstComponent("imp") == "imp";
  }

  /** Catalogue entry of `POTENTIAL_DEPRECATED_METHODS`. */
  datatype MethodInfo = MethodInfo(deprecatedType: string, replacement: string, safeType: string)

  const PotentialDeprecated: map<string, MethodInfo> := map[
    "tostring" := MethodInfo("array.array", ".tobytes()", "etree"),
    "fromstring" := MethodInfo("array.array", ".frombytes()", "etree"),
    "isAlive" := MethodInfo("threading.Thread", ".is_alive()", ""),
    "getchildren" := MethodInfo("xml.etree.Element", "list(element)", ""),
    "getiterator" := MethodInfo("xml.etree.Element", "element.iter()", "")
  ]

  /** Receiver names known to be xml.etree.ElementTree, where
      `tostring`/`fromstring` are valid functions. */
  const EtreeNames: set<string> := {"etree", "ET", "ElementTree"}

  /** One warning: the call's line, the method name and its catalogue entry. */
  datatype Warning = Warning(line: int, methodName: string, info: MethodInfo)

  /** The one exemption: `tostring`/`fromstring` on a bare etree name. */
  predicate IsEtreeCall(func: Expr)
    requires func.AttrExpr?
  {
    func.value.NameExpr? && func.value.id in EtreeNames
    && (func.attr == "tostring" || func.attr == "fromstring")
  }

  /** A call node `_check_potential_deprecated_methods` warns about. */
  predicate Warns(node: Node) {
    node.Call? && node.func.AttrExpr? && node.func.attr in PotentialDeprecated
    && !IsEtreeCall(node.func)
  }

  function WarnCount(nodes: seq<Node>): nat {
    if |nodes| == 0 then 0 else (if Warns(nodes[0]) then 1 else 0) + WarnCount(nodes[1..])
  }

  /** The warning the scan emits for a warned call. */
  function WarningFor(n: Node): Warning
    requires Warns(n)
  {
    Warning(n.at.line, n.func.attr, PotentialDeprecated[n.func.attr])
  }

  /** Some warned call of `nodes` emits `w`. */
  predicate WarnedIn(nodes: seq<Node>, w: Warning) {
    exists n :: n in nodes && Warns(n) && w == WarningFor(n)
  }

  function AllWarnings(nodes: seq<Node>): (ws: seq<Warning>)
    ensures |ws| == WarnCount(nodes)
    ensures forall w :: w in ws ==>
              w.methodName in PotentialDeprecated && w.info == PotentialDeprecated[w.methodName]
    ensures forall w :: w in ws <==> WarnedIn(nodes, w)
  {
    if |nodes| == 0 then []
    else
      var n := nodes[0];
      var rest := AllWarnings(nodes[1..]);
      assert forall m :: m in nodes ==> m == n || m in nodes[1..];
      assert forall m :: m in nodes[1..] ==> m in nodes;
      if Warns(n) then [WarningFor(n)] + rest else rest
  }

  /** `_check_potential_deprecated_methods`: nothing when the source does
      not parse; otherwise one warning per call of a catalogued method name
      through an attribute, except `tostring`/`fromstring` on `etree`, `ET`
      or `ElementTree`. A warning is in the list exactly when such a call
      emits it: on the call's line, with the method's catalogue entry. */
  function CheckPotentialDeprecatedMethods(tree: Option<seq<Node>>): (ws: seq<Warning>)
    ensures tree == None ==> ws == []
    ensures tree.Some? ==> |ws| == WarnCount(tree.value)
    ensures forall w :: w in ws ==>
              w.methodName in PotentialDeprecated && w.info == PotentialDeprecated[w.methodName]
    ensures tree.Some? ==> forall w :: w in ws <==> WarnedIn(tree.value, w)
  {
    if tree == None then [] else AllWarnings(tree.value)
  }

  /** A walk of one node warns once when the node is a warned call,
      else not at all. */
  lemma AllWarningsSingle(n: Node)
    ensures AllWarnings([n]) == if Warns(n) then [WarningFor(n)] else []
  {
    assert [n][1..] == [];
  }

  /** The warnings one node is worth: one for a warned call. */
  function WarnHead(n: Node): seq<Warning> {
    if Warns(n) then [WarningFor(n)] else []
  }

  /** The warnings of a walk are each node's warning or none,
      concatenated in walk order: one warning per warned call. */
  lemma {:induction false} AllWarningsIsFlatMap(nodes: seq<Node>)
    ensures AllWarnings(nodes) == FlatMap(nodes, WarnHead)
  {
    if |nodes| > 0 {
      AllWarningsIsFlatMap(nodes[1..]);
    }
  }

  /** The calls are warned about one after another in walk order. */
  lemma AllWarningsAppend(a: seq<Node>, b: seq<Node>)
    ensures AllWarnings(a + b) == AllWarnings(a) + AllWarnings(b)
  {
    AllWarningsIsFlatMap(a + b);
    AllWarningsIsFlatMap(a);
    AllWarningsIsFlatMap(b);
    FlatMapAppend(a, b, WarnHead);
  }

  /** The scan of a parsed file lists the warned calls in walk order:
      splitting the walk splits the list, and one node warns once exactly
      when it is a warned call. */
  lemma WarningsInWalkOrder(a: seq<Node>, b: seq<Node>, n: Node)
    ensures CheckPotentialDeprecatedMethods(Some(a + b))
            == CheckPotentialDeprecatedMethods(Some(a)) + CheckPotentialDeprecatedMethods(Some(b))
    ensures CheckPotentialDeprecatedMethods(Some([n])) == if Warns(n) then [WarningFor(n)] else []
  {
    AllWarningsAppend(a, b);
    AllWarningsSingle(n);
  }

  /** `etree.tostring(...)` is exempt; `arr.tostring()` and
      `ET.getchildren()` are not. */
  lemma EtreeExemptionIsNarrow(at: Offset)
    ensures !Warns(Call(AttrExpr(NameExpr("etree"), "tostring"), at))
    ensures Warns(Call(AttrExpr(NameExpr("arr"), "tostring"), at))
    ensures Warns(Call(AttrExpr(NameExpr("ET"), "getchildren"), at))
  {
  }
}
