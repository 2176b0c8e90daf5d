/** The module-function rename rule (`_plugins/deprecated_methods.py`):
    `base64.encodestring` / `base64.decodestring` were removed in Python
    3.9. Only calls whose receiver is the bare module name are renamed;
    method calls on arbitrary objects are left for a human. */
module DeprecatedMethods {
  import opened Basics
  import opened Tokens
  import opened Syntax
  import opened Versions

  /** `MODULE_FUNCTION_RENAMES`: (module, old function) to new function. */
  const Renames: map<(string, string), string> := map[
    ("base64", "encodestring") := "encodebytes",
    ("base64", "decodestring") := "decodebytes"
  ]

  /** `_fix_module_function_rename`: the first token at or after `i` whose
      text is the old name gets the new name; nothing else changes. */
  function FixRename(ts: seq<Token>, i: nat, oldName: string, newName: string): (r: seq<Token>)
    requires i <= |ts|
    ensures |r| == |ts|
    ensures var j := FindSrc(ts, i, oldName);
      && (forall m :: 0 <= m < |ts| && m != j ==> r[m] == ts[m])
      && (j < |ts| ==> r[j] == ts[j].(src := newName))
  {
    ReplaceFirst(ts, i, oldName, newName)
  }

  /** In text terms the rename replaces the first occurrence of the old
      name at or after the call by the new name and keeps the rest. */
  lemma {:induction false} RenameInText(ts: seq<Token>, i: nat, oldName: string, newName: string)
    requires i <= |ts| && FindSrc(ts, i, oldName) < |ts|
    ensures var j := FindSrc(ts, i, oldName);
      && Concat(ts) == Concat(ts[..j]) + oldName + Concat(ts[j + 1..])
      && Concat(FixRename(ts, i, oldName, newName)) == Concat(ts[..j]) + newName + Concat(ts[j + 1..])
  {
    ReplaceFirstText(ts, i, oldName, newName);
  }

  /** `visit_Call`: with a 3.9+ target, `module.func(...)` on a bare name
      registers the rename exactly when `(module, func)` is in the table. */
  function VisitCall(node: Node, st: State): (regs: seq<Registration>)
    requires node.Call?
    ensures |regs| <= 1
    ensures |regs| == 1 <==>
      && !Lt(st.settings.minVersion, Py39)
      && node.func.AttrExpr? && node.func.value.NameExpr?
      && (node.func.value.id, node.func.attr) in Renames
    ensures |regs| == 1 ==>
      regs[0] == Registration(node.at,
        ModuleFunctionRename(node.func.attr, Renames[(node.func.value.id, node.func.attr)]))
  {
    if Lt(st.settings.minVersion, Py39) then []
    else if node.func.AttrExpr? && node.func.value.NameExpr? then
      var key := (node.func.value.id, node.func.attr);
      if key in Renames then [Registration(node.at, ModuleFunctionRename(node.func.attr, Renames[key]))]
      else []
    else []
  }

  /** Only `base64.encodestring` and `base64.decodestring` are ever renamed,
      into their `...bytes` counterparts. */
  lemma OnlyBase64Renames(node: Node, st: State)
    requires node.Call?
    requires |VisitCall(node, st)| == 1
    ensures node.func.value == NameExpr("base64")
    ensures node.func.attr == "encodestring" || node.func.attr == "decodestring"
    ensures VisitCall(node, st)[0].edit.newName == node.func.attr[..|node.func.attr| - 6] + "bytes"
  {
    var key := (node.func.value.id, node.func.attr);
    assert key == ("base64", "encodestring") || key == ("base64", "decodestring");
  }
}
