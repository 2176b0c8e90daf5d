/** The part of Python's AST the rules look at, the per-file settings and
    derived facts the rules read, and the edits they register. */
module Syntax {
  import opened Basics
  import opened Tokens
  import opened Versions

  /** `ast.alias`: `name` or `name as asname`. */
  datatype Alias = Alias(name: string, asname: Option<string>)

  /** Expressions in callee / receiver position: `ast.Name`, `ast.Attribute`,
      anything else. */
  datatype Expr =
    | NameExpr(id: string)
    | AttrExpr(value: Expr, attr: string)
    | OtherExpr

  /** One node of the `ast.walk` sequence; `at` is `ast_to_offset(node)`.
      `modName` is `None` for `from . import x`; `level` counts leading dots. */
  datatype Node =
    | Import(names: seq<Alias>, at: Offset)
    | ImportFrom(modName: Option<string>, names: seq<Alias>, level: nat, at: Offset)
    | Call(func: Expr, at: Offset)
    | Attribute(value: Expr, attr: string, at: Offset)
    | OtherNode

  datatype Settings = Settings(minVersion: Version, checkOnly: bool)

  /** The run context a rule sees: the settings, and for each module the
      names imported from it with `from module import name` in this file. */
  datatype State = State(settings: Settings, fromImports: map<string, set<string>>)

  /** The names this file imports from `modName`, empty when it imports none. */
  function ImportedFrom(st: State, modName: string): (r: set<string>)
    ensures modName in st.fromImports ==> r == st.fromImports[modName]
    ensures modName !in st.fromImports ==> r == {}
  {
    if modName in st.fromImports then st.fromImports[modName] else {}
  }

  /** The token edits the rules register, each with the parameters its
      `functools.partial` closure would bind. */
  datatype Edit =
    | AbcImportPure
    | AbcImportMixed(abcNames: seq<string>, nonAbcNames: seq<string>)
    | AbcAttribute(abcName: string, needsImport: bool)
    | FractionsGcdCall(hasMathImport: bool)
    | FractionsGcdImport(hasMathImport: bool)
    | AsyncioTaskMethod(newCall: string)
    | ModuleFunctionRename(oldName: string, newName: string)

  /** What running an edit leaves behind: the live token list and the
      pending collections.abc imports (`imports.pending_abc_imports`). */
  datatype Patched = Patched(tokens: seq<Token>, pending: set<string>)

  /** One `(offset, callback)` pair a rule yields. */
  datatype Registration = Registration(at: Offset, edit: Edit)

  /** The callback lookup by offset: the edits registered at a token's
      offset, in registration order. A token an edit built has no offset
      and matches nothing. */
  function EditsAt(regs: seq<Registration>, pos: Option<Offset>): (es: seq<Edit>)
    ensures pos == None ==> es == []
    ensures |es| <= |regs|
    ensures forall e :: e in es ==> pos.Some? && Registration(pos.value, e) in regs
    ensures pos.Some? ==> forall r :: r in regs && r.at == pos.value ==> r.edit in es
  {
    if |regs| == 0 || pos == None then []
    else
      var last := regs[|regs| - 1];
      assert forall r :: r in regs ==> r == last || r in regs[..|regs| - 1];
      EditsAt(regs[..|regs| - 1], pos) + (if last.at == pos.value then [last.edit] else [])
  }

  /** The edits registered at offset `at`, read from the first registration
      to the last. */
  function InRegistrationOrder(regs: seq<Registration>, at: Offset): seq<Edit> {
    if |regs| == 0 then []
    else (if regs[0].at == at then [regs[0].edit] else []) + InRegistrationOrder(regs[1..], at)
  }

  /** Registrations for one offset keep the order they were made in:
      registering more later only appends. */
  lemma {:induction false} EditsAtAppend(a: seq<Registration>, b: seq<Registration>, pos: Option<Offset>)
    ensures EditsAt(a + b, pos) == EditsAt(a, pos) + EditsAt(b, pos)
    decreases |b|
  {
    if |b| == 0 {
      assert a + b == a;
    } else if pos != None {
      assert (a + b)[..|a + b| - 1] == a + b[..|b| - 1];
      EditsAtAppend(a, b[..|b| - 1], pos);
    }
  }

  /** The lookup returns exactly the edits registered at the offset, in the
      order they were registered. */
  lemma {:induction false} EditsAtInRegistrationOrder(regs: seq<Registration>, at: Offset)
    ensures EditsAt(regs, Some(at)) == InRegistrationOrder(regs, at)
  {
    if |regs| > 0 {
      var head, tail := regs[..1], regs[1..];
      assert regs == head + tail;
      EditsAtAppend(head, tail, Some(at));
      EditsAtInRegistrationOrder(tail, at);
      assert head[..0] == [];
    }
  }
}
