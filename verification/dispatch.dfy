/** The walk that collects edits: every node of the tree is offered to the
    visitors of every rule for its node type, and the `(offset, edit)`
    pairs they yield are kept in walk order. The registry itself lives in
    `_data.py`, which is not part of this model; what is fixed here is
    which visitor sees which node type. At most one rule accepts any node,
    so the order the rules are consulted in does not matter. */
module Dispatch {
  import opened Basics
  import opened Tokens
  import opened Syntax
  import opened Versions
  import CollectionsAbc
  import FractionsGcd
  import AsyncioMethods
  import DeprecatedMethods
  import Checks

  /** An edit of the collections-ABC rule, the one rule with no version gate. */
  predicate IsAbcEdit(e: Edit) {
    e.AbcImportPure? || e.AbcImportMixed? || e.AbcAttribute?
  }

  /** Everything the rules register for one node, rule by rule. */
  function VisitNode(node: Node, st: State): (regs: seq<Registration>)
    ensures |regs| <= 1
    ensures forall r :: r in regs ==> !node.OtherNode? && r.at == node.at
    ensures node.Import? || node.OtherNode? ==> regs == []
    ensures Lt(st.settings.minVersion, Py39) ==> forall r :: r in regs ==> IsAbcEdit(r.edit)
    ensures forall r :: r in regs && r.edit.AbcAttribute? && r.edit.needsImport ==>
              r.edit.abcName in CollectionsAbc.AbcNames
              && r.edit.abcName !in ImportedFrom(st, "collections.abc")
  {
    match node
    case Call(_, _) => VisitCallNode(node, st)
    case ImportFrom(_, _, _, _) => VisitImportFromNode(node, st)
    case Attribute(_, _, _) => CollectionsAbc.VisitAttribute(node, st)
    case _ => []
  }

  /** The three rules with a call visitor; their patterns exclude each
      other, and all are gated on 3.9. */
  function VisitCallNode(node: Node, st: State): (regs: seq<Registration>)
    requires node.Call?
    ensures |regs| <= 1
    ensures forall r :: r in regs ==> r.at == node.at && !r.edit.AbcAttribute?
    ensures Lt(st.settings.minVersion, Py39) ==> regs == []
  {
    AsyncioMethods.VisitCall(node, st) + DeprecatedMethods.VisitCall(node, st)
    + FractionsGcd.VisitCall(node, st)
  }

  /** The two rules with a `from` import visitor: they look at different
      modules. */
  function VisitImportFromNode(node: Node, st: State): (regs: seq<Registration>)
    requires node.ImportFrom?
    ensures |regs| <= 1
    ensures forall r :: r in regs ==> r.at == node.at && !r.edit.AbcAttribute?
    ensures Lt(st.settings.minVersion, Py39) ==> forall r :: r in regs ==> IsAbcEdit(r.edit)
  {
    FractionsGcd.VisitImportFrom(node, st) + CollectionsAbc.VisitImportFrom(node, st)
  }

  /** Consulting the rules in the opposite order registers the same edits. */
  lemma RuleOrderIrrelevant(node: Node, st: State)
    ensures node.Call? ==>
      VisitNode(node, st)
      == FractionsGcd.VisitCall(node, st) + DeprecatedMethods.VisitCall(node, st)
         + AsyncioMethods.VisitCall(node, st)
    ensures node.ImportFrom? ==>
      VisitNode(node, st) == CollectionsAbc.VisitImportFrom(node, st) + FractionsGcd.VisitImportFrom(node, st)
    ensures node.Attribute? ==> VisitNode(node, st) == CollectionsAbc.VisitAttribute(node, st)
  {
  }

  /** Some node of the walk has `r` among its registrations. */
  predicate RegisteredBy(nodes: seq<Node>, r: Registration, st: State) {
    exists n :: n in nodes && r in VisitNode(n, st)
  }

  /** `visit(FUNCS, tree, settings)` flattened: the registrations of every
      node, in walk order. A registration is in the result exactly when
      the visitors of some node of the walk produced it. */
  function Visit(nodes: seq<Node>, st: State): (regs: seq<Registration>)
    ensures |regs| <= |nodes|
    ensures forall r :: r in regs <==> RegisteredBy(nodes, r, st)
    ensures Lt(st.settings.minVersion, Py39) ==> forall r :: r in regs ==> IsAbcEdit(r.edit)
    ensures forall r :: r in regs && r.edit.AbcAttribute? && r.edit.needsImport ==>
              r.edit.abcName in CollectionsAbc.AbcNames
              && r.edit.abcName !in ImportedFrom(st, "collections.abc")
  {
    if |nodes| == 0 then []
    else
      var head := VisitNode(nodes[0], st);
      var rest := Visit(nodes[1..], st);
      assert forall r :: r in head + rest <==> r in head || r in rest;
      assert forall n :: n in nodes ==> n == nodes[0] || n in nodes[1..];
      assert forall n :: n in nodes[1..] ==> n in nodes;
      head + rest
  }

  /** The walk of one node is that node's registrations. */
  lemma VisitSingle(node: Node, st: State)
    ensures Visit([node], st) == VisitNode(node, st)
  {
  }

  /** Walking two stretches of nodes registers the first stretch's edits
      before the second's: the walk keeps node order. */
  lemma {:induction false} VisitAppend(a: seq<Node>, b: seq<Node>, st: State)
    ensures Visit(a + b, st) == Visit(a, st) + Visit(b, st)
  {
    if |a| == 0 {
      assert a + b == b;
    } else {
      assert (a + b)[0] == a[0];
      assert (a + b)[1..] == a[1..] + b;
      VisitAppend(a[1..], b, st);
      var h, x, y := VisitNode(a[0], st), Visit(a[1..], st), Visit(b, st);
      assert h + (x + y) == (h + x) + y;
    }
  }

  lemma NodeIgnoresCheckFlag(node: Node, a: Settings, b: Settings, fromImports: map<string, set<string>>)
    requires a.minVersion == b.minVersion
    ensures VisitNode(node, State(a, fromImports)) == VisitNode(node, State(b, fromImports))
  {
  }

  /** The rules read the target version and the imports, never the check
      flag. */
  lemma {:induction false} VisitIgnoresCheckFlag(nodes: seq<Node>, a: Settings, b: Settings,
                                                 fromImports: map<string, set<string>>)
    requires a.minVersion == b.minVersion
    ensures Visit(nodes, State(a, fromImports)) == Visit(nodes, State(b, fromImports))
  {
    if |nodes| > 0 {
      VisitIgnoresCheckFlag(nodes[1..], a, b, fromImports);
      NodeIgnoresCheckFlag(nodes[0], a, b, fromImports);
    }
  }

  /** A call of one of the ambiguous methods the detection check warns
      about (`arr.tostring()`, `thread.isAlive()`, `etree.tostring(x)`, ...)
      is never rewritten, whatever its receiver and target version. */
  lemma AmbiguousCallsNeverRegister(node: Node, st: State)
    requires node.Call? && node.func.AttrExpr? && node.func.attr in Checks.PotentialDeprecated
    ensures VisitNode(node, st) == []
  {
  }

  /** With no node that any rule accepts there is nothing to patch; in
      particular a tree without calls, `from` imports or attributes. */
  lemma {:induction false} NoCandidateNodesNoEdits(nodes: seq<Node>, st: State)
    requires forall n :: n in nodes ==> n.Import? || n.OtherNode?
    ensures Visit(nodes, st) == []
  {
    if |nodes| > 0 {
      assert nodes[0] in nodes;
      assert forall n :: n in nodes[1..] ==> n in nodes;
      NoCandidateNodesNoEdits(nodes[1..], st);
    }
  }
}
