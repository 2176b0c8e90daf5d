/** The fractions rule (`_plugins/fractions_gcd.py`): `fractions.gcd` was
    removed in Python 3.9, so `fractions.gcd(...)` becomes `math.gcd(...)`
    and `from fractions import gcd` becomes `from math import gcd`. */
module FractionsGcd {
  import opened Basics
  import opened Tokens
  import opened Syntax
  import opened Versions

  /** `_fix_fractions_gcd`: the first `fractions` token at or after `i`
      becomes `math`; every other token, and the length, stay. */
  function FixGcdCall(ts: seq<Token>, i: nat, hasMathImport: bool): (r: seq<Token>)
    requires i <= |ts|
    ensures |r| == |ts|
    ensures var j := FindSrc(ts, i, "fractions");
      && (forall m :: 0 <= m < |ts| && m != j ==> r[m] == ts[m])
      && (j < |ts| ==> r[j] == ts[j].(src := "math"))
  {
    ReplaceFirst(ts, i, "fractions", "math")
  }

  /** `_fix_gcd_from_import`: the module token of the import becomes
      `math`; the imported names are left alone. */
  function FixGcdImport(ts: seq<Token>, i: nat, hasMathImport: bool): (r: seq<Token>)
    requires i <= |ts|
    ensures |r| == |ts|
    ensures var j := FindSrc(ts, i, "fractions");
      && (forall m :: 0 <= m < |ts| && m != j ==> r[m] == ts[m])
      && (j < |ts| ==> r[j] == ts[j].(src := "math"))
  {
    ReplaceFirst(ts, i, "fractions", "math")
  }

  /** Whether `gcd` is already imported from `math` is computed and bound
      but never changes what either edit does. */
  lemma MathImportFlagHasNoEffect(ts: seq<Token>, i: nat)
    requires i <= |ts|
    ensures FixGcdCall(ts, i, true) == FixGcdCall(ts, i, false)
    ensures FixGcdImport(ts, i, true) == FixGcdImport(ts, i, false)
  {
  }

  /** With no `fractions` token at or after `i` both edits are no-ops. */
  lemma {:induction false} NoFractionsTokenNoChange(ts: seq<Token>, i: nat, hasMathImport: bool)
    requires i <= |ts|
    requires forall m :: i <= m < |ts| ==> ts[m].src != "fractions"
    ensures FixGcdCall(ts, i, hasMathImport) == ts
    ensures FixGcdImport(ts, i, hasMathImport) == ts
  {
    var j := FindSrc(ts, i, "fractions");
    assert j == |ts|;
  }

  /** In text terms both edits replace the first `fractions` at or after
      the node by `math` and keep everything around it. */
  lemma {:induction false} GcdEditsRenameModuleInText(ts: seq<Token>, i: nat, hasMathImport: bool)
    requires i <= |ts| && FindSrc(ts, i, "fractions") < |ts|
    ensures var j := FindSrc(ts, i, "fractions");
      && Concat(ts) == Concat(ts[..j]) + "fractions" + Concat(ts[j + 1..])
      && Concat(FixGcdCall(ts, i, hasMathImport)) == Concat(ts[..j]) + "math" + Concat(ts[j + 1..])
      && Concat(FixGcdImport(ts, i, hasMathImport)) == Concat(ts[..j]) + "math" + Concat(ts[j + 1..])
  {
    ReplaceFirstText(ts, i, "fractions", "math");
  }

  /** `visit_Call`: with a 3.9+ target, `fractions.gcd(...)` on a bare
      name registers the call edit; a bare `gcd(...)` is left to the import
      edit, and nothing else registers. */
  function VisitCall(node: Node, st: State): (regs: seq<Registration>)
    requires node.Call?
    ensures |regs| <= 1
    ensures |regs| == 1 <==>
      !Lt(st.settings.minVersion, Py39) && node.func == AttrExpr(NameExpr("fractions"), "gcd")
    ensures |regs| == 1 ==>
      regs[0] == Registration(node.at, FractionsGcdCall("gcd" in ImportedFrom(st, "math")))
  {
    if Lt(st.settings.minVersion, Py39) then []
    else if node.func == AttrExpr(NameExpr("fractions"), "gcd") then
      [Registration(node.at, FractionsGcdCall("gcd" in ImportedFrom(st, "math")))]
    else if node.func == NameExpr("gcd") && "gcd" in ImportedFrom(st, "fractions") then
      []
    else []
  }

  /** `visit_ImportFrom`: with a 3.9+ target, an import from the module
      named `fractions` that names `gcd` registers the import edit. The
      import level is not looked at. */
  function VisitImportFrom(node: Node, st: State): (regs: seq<Registration>)
    requires node.ImportFrom?
    ensures |regs| <= 1
    ensures |regs| == 1 <==>
      && !Lt(st.settings.minVersion, Py39)
      && node.modName == Some("fractions")
      && exists a :: a in node.names && a.name == "gcd"
    ensures |regs| == 1 ==>
      regs[0] == Registration(node.at, FractionsGcdImport("gcd" in ImportedFrom(st, "math")))
  {
    if Lt(st.settings.minVersion, Py39) then []
    else if node.modName == Some("fractions") && exists a :: a in node.names && a.name == "gcd" then
      [Registration(node.at, FractionsGcdImport("gcd" in ImportedFrom(st, "math")))]
    else []
  }
}
