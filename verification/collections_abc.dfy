/** The collections-ABC rule (`_plugins/imports.py`): the abstract base
    classes that moved from `collections` to `collections.abc`. It rewrites
    `from collections import ...` lines and `collections.<ABC>` attribute
    uses; the latter also asks for an import line to be added at the top.
    This rule is not gated on the target version. */
module CollectionsAbc {
  import opened Basics
  import opened Tokens
  import opened Syntax

  /** `COLLECTIONS_ABC_NAMES` */
  const AbcNames: set<string> := {
    "AsyncGenerator", "AsyncIterable", "AsyncIterator", "Awaitable",
    "ByteString", "Callable", "Collection", "Container", "Coroutine",
    "Generator", "Hashable", "ItemsView", "Iterable", "Iterator", "KeysView",
    "Mapping", "MappingView", "MutableMapping", "MutableSequence",
    "MutableSet", "Reversible", "Sequence", "Set", "Sized", "ValuesView"
  }

  /** An imported name as it is written back: `name`, or `name as asname`
      when the alias has a (non-empty) `asname`. */
  function Render(a: Alias): string {
    if a.asname.Some? && a.asname.value != "" then a.name + " as " + a.asname.value else a.name
  }

  function RenderAll(names: seq<Alias>): (r: seq<string>)
    ensures |r| == |names|
  {
    if |names| == 0 then [] else [Render(names[0])] + RenderAll(names[1..])
  }

  /** `a` can be obtained from `b` by deleting elements (order kept). */
  predicate IsSubseq(a: seq<string>, b: seq<string>) {
    |a| == 0 || (|b| > 0 && ((a[0] == b[0] && IsSubseq(a[1..], b[1..])) || IsSubseq(a, b[1..])))
  }

  /** The two name lists `visit_ImportFrom` builds. */
  datatype Split = Split(abc: seq<string>, nonAbc: seq<string>)

  /** Sort every alias of the import into the ABC list or the other list,
      in source order. */
  function Partition(names: seq<Alias>): (p: Split)
    ensures |p.abc| + |p.nonAbc| == |names|
    ensures IsSubseq(p.abc, RenderAll(names)) && IsSubseq(p.nonAbc, RenderAll(names))
    ensures forall a :: a in names && a.name in AbcNames ==> Render(a) in p.abc
    ensures forall a :: a in names && a.name !in AbcNames ==> Render(a) in p.nonAbc
  {
    if |names| == 0 then Split([], [])
    else
      var rest := Partition(names[1..]);
      var s := Render(names[0]);
      assert RenderAll(names) == [s] + RenderAll(names[1..]);
      assert forall a :: a in names ==> a == names[0] || a in names[1..];
      if names[0].name in AbcNames then Split([s] + rest.abc, rest.nonAbc)
      else Split(rest.abc, [s] + rest.nonAbc)
  }

  /** `s` renders an alias of `names` that is an ABC (`abc`) or is not. */
  predicate RendersAliasOf(s: string, names: seq<Alias>, abc: bool) {
    exists a :: a in names && (a.name in AbcNames) == abc && Render(a) == s
  }

  /** Nothing else lands in the two lists: every entry renders an alias of
      the import from the right class. */
  lemma {:induction false} PartitionOnlyFromNames(names: seq<Alias>)
    ensures forall s :: s in Partition(names).abc ==> RendersAliasOf(s, names, true)
    ensures forall s :: s in Partition(names).nonAbc ==> RendersAliasOf(s, names, false)
  {
    if |names| > 0 {
      var tail := names[1..];
      PartitionOnlyFromNames(tail);
      var p, rest := Partition(names), Partition(tail);
      var s := Render(names[0]);
      assert names[0] in names;
      var isAbc := names[0].name in AbcNames;
      if isAbc {
        assert p == Split([s] + rest.abc, rest.nonAbc);
      } else {
        assert p == Split(rest.abc, [s] + rest.nonAbc);
      }
      forall x, c: bool | x in (if c then p.abc else p.nonAbc)
        ensures RendersAliasOf(x, names, c)
      {
        if x in (if c then rest.abc else rest.nonAbc) {
          assert RendersAliasOf(x, tail, c);
          var a :| a in tail && (a.name in AbcNames) == c && Render(a) == x;
          assert a in names;
        } else {
          assert x == s && isAbc == c;
        }
      }
    }
  }

  /** `visit_ImportFrom`: only an absolute `from collections import ...`
      that imports at least one ABC registers an edit; it is the pure
      module rename when every name is an ABC, the split otherwise. */
  function VisitImportFrom(node: Node, st: State): (regs: seq<Registration>)
    requires node.ImportFrom?
    ensures |regs| <= 1
    ensures |regs| == 1 <==>
      node.level == 0 && node.modName == Some("collections")
      && exists a :: a in node.names && a.name in AbcNames
    ensures |regs| == 1 ==> regs[0].at == node.at
    ensures |regs| == 1 ==>
      (regs[0].edit == AbcImportPure <==> forall a :: a in node.names ==> a.name in AbcNames)
    ensures |regs| == 1 && regs[0].edit != AbcImportPure ==>
      regs[0].edit == AbcImportMixed(Partition(node.names).abc, Partition(node.names).nonAbc)
  {
    if node.level != 0 || node.modName != Some("collections") then []
    else
      var p := Partition(node.names);
      PartitionOnlyFromNames(node.names);
      if |p.abc| == 0 then []
      else
        assert RendersAliasOf(p.abc[0], node.names, true);
        if |p.nonAbc| == 0 then [Registration(node.at, AbcImportPure)]
        else
          assert RendersAliasOf(p.nonAbc[0], node.names, false);
          [Registration(node.at, AbcImportMixed(p.abc, p.nonAbc))]
  }

  /** `_fix_collections_abc_import_pure`: the first `collections` token at
      or after `i` becomes `collections.abc`; nothing else changes. */
  function FixImportPure(ts: seq<Token>, i: nat): (r: seq<Token>)
    requires i <= |ts|
    ensures |r| == |ts|
    ensures var j := FindSrc(ts, i, "collections");
      && (forall m :: 0 <= m < |ts| && m != j ==> r[m] == ts[m])
      && (j < |ts| ==> r[j] == ts[j].(src := "collections.abc"))
  {
    ReplaceFirst(ts, i, "collections", "collections.abc")
  }

  /** In text terms the module name `collections` of the statement becomes
      `collections.abc`; the imported names stay as written. */
  lemma {:induction false} ImportPureInText(ts: seq<Token>, i: nat)
    requires i <= |ts| && FindSrc(ts, i, "collections") < |ts|
    ensures var j := FindSrc(ts, i, "collections");
      && Concat(ts) == Concat(ts[..j]) + "collections" + Concat(ts[j + 1..])
      && Concat(FixImportPure(ts, i)) == Concat(ts[..j]) + "collections.abc" + Concat(ts[j + 1..])
  {
    ReplaceFirstText(ts, i, "collections", "collections.abc");
  }

  /** The replacement text of a split import: the non-ABC line first, then
      the collections.abc line, each ending in a newline. */
  function ImportLines(abc: seq<string>, nonAbc: seq<string>): (s: string)
    ensures |nonAbc| > 0 && |abc| > 0 ==>
      s == "from collections import " + Join(nonAbc, ", ") + "\n"
           + "from collections.abc import " + Join(abc, ", ") + "\n"
    ensures |nonAbc| == 0 && |abc| > 0 ==> s == "from collections.abc import " + Join(abc, ", ") + "\n"
    ensures |nonAbc| > 0 && |abc| == 0 ==> s == "from collections import " + Join(nonAbc, ", ") + "\n"
    ensures |nonAbc| == 0 && |abc| == 0 ==> s == "\n"
  {
    var lines := (if |nonAbc| > 0 then ["from collections import " + Join(nonAbc, ", ")] else [])
               + (if |abc| > 0 then ["from collections.abc import " + Join(abc, ", ")] else []);
    assert |lines| == 2 ==> lines[1..] == [lines[1]];
    Join(lines, "\n") + "\n"
  }

  /** `_fix_collections_abc_import_mixed`: the whole statement, from the
      space before it (if any) to its end, becomes one token holding the
      two import lines. */
  function FixImportMixed(ts: seq<Token>, i: nat, abc: seq<string>, nonAbc: seq<string>, h: TokenHelpers)
    : (r: seq<Token>)
    requires i <= |ts|
    ensures var start := if h.hasSpaceBefore(ts, i) then i - 1 else i;
      var end := h.findEnd(ts, i);
      && start <= i <= end <= |ts|
      && |r| == |ts| - (end - start) + 1
      && r[..start] == ts[..start]
      && r[start] == Synthetic(ImportLines(abc, nonAbc))
      && r[start + 1..] == ts[end..]
  {
    var start := if h.hasSpaceBefore(ts, i) then i - 1 else i;
    Splice(ts, start, h.findEnd(ts, i), Synthetic(ImportLines(abc, nonAbc)))
  }

  /** In text terms the statement (and the space before it, if any) is
      replaced by the two import lines; the text around it stays. */
  lemma {:induction false} ImportMixedInText(ts: seq<Token>, i: nat, abc: seq<string>, nonAbc: seq<string>, h: TokenHelpers)
    requires i <= |ts|
    ensures var start := if h.hasSpaceBefore(ts, i) then i - 1 else i;
      Concat(FixImportMixed(ts, i, abc, nonAbc, h))
      == Concat(ts[..start]) + ImportLines(abc, nonAbc) + Concat(ts[h.findEnd(ts, i)..])
  {
    var start := if h.hasSpaceBefore(ts, i) then i - 1 else i;
    SpliceConcat(ts, start, h.findEnd(ts, i), Synthetic(ImportLines(abc, nonAbc)));
  }

  /** The first index at or after `k` whose token text is neither empty
      nor `.`. */
  function SkipSeparators(ts: seq<Token>, k: nat): (e: nat)
    requires k <= |ts|
    ensures k <= e <= |ts|
    ensures forall m :: k <= m < e ==> ts[m].src == "" || ts[m].src == "."
    ensures e < |ts| ==> ts[e].src != "" && ts[e].src != "."
    decreases |ts| - k
  {
    if k < |ts| && (ts[k].src == "" || ts[k].src == ".") then SkipSeparators(ts, k + 1) else k
  }

  /** `_fix_collections_abc_attribute`: `collections` `.` `<ABC>` collapses
      into one token holding the ABC's name (keeping the kind and offset of
      the `collections` token). The name becomes pending whenever an import
      is needed and a `collections` token was found, even when the
      collapse does not apply. */
  function FixAbcAttribute(ts: seq<Token>, i: nat, abcName: string, needsImport: bool, pending: set<string>)
    : (r: Patched)
    requires i <= |ts|
    ensures var j := FindSrc(ts, i, "collections");
      && r.pending == (if needsImport && j < |ts| then pending + {abcName} else pending)
      && (j == |ts| ==> r.tokens == ts)
      && (j < |ts| ==>
            var e := SkipSeparators(ts, j + 1);
            if e < |ts| && ts[e].src == abcName then
              && |r.tokens| == |ts| - (e - j)
              && r.tokens[..j] == ts[..j]
              && r.tokens[j] == ts[j].(src := abcName)
              && r.tokens[j + 1..] == ts[e + 1..]
            else r.tokens == ts)
  {
    var j := FindSrc(ts, i, "collections");
    if j >= |ts| then Patched(ts, pending)
    else
      var e := SkipSeparators(ts, j + 1);
      var tokens := if e < |ts| && ts[e].src == abcName then Splice(ts, j, e + 1, ts[j].(src := abcName)) else ts;
      Patched(tokens, if needsImport then pending + {abcName} else pending)
  }

  /** Where the attribute edit finds `collections`, and the name after it. */
  function AbcStart(ts: seq<Token>, i: nat): nat
    requires i <= |ts|
  {
    FindSrc(ts, i, "collections")
  }

  function AbcEnd(ts: seq<Token>, i: nat): nat
    requires i <= |ts| && AbcStart(ts, i) < |ts|
  {
    SkipSeparators(ts, AbcStart(ts, i) + 1)
  }

  /** The text the attribute edit looks at: `collections`, separators
      (dots and empty tokens) and the ABC name. */
  lemma {:induction false} AttributeInText(ts: seq<Token>, i: nat, abcName: string)
    requires i <= |ts| && AbcStart(ts, i) < |ts|
    requires AbcEnd(ts, i) < |ts| && ts[AbcEnd(ts, i)].src == abcName
    ensures Concat(ts) == Concat(ts[..AbcStart(ts, i)]) + "collections"
                          + Concat(ts[AbcStart(ts, i) + 1..AbcEnd(ts, i)]) + abcName
                          + Concat(ts[AbcEnd(ts, i) + 1..])
  {
    ConcatAround(ts, AbcStart(ts, i), AbcEnd(ts, i));
  }

  /** In text terms `collections`, the separators after it and the ABC
      name become the ABC name alone: `collections.Sized` reads `Sized`. */
  lemma {:induction false} AttributeCollapseInText(ts: seq<Token>, i: nat, abcName: string, needsImport: bool,
                                                   pending: set<string>)
    requires i <= |ts| && AbcStart(ts, i) < |ts|
    requires AbcEnd(ts, i) < |ts| && ts[AbcEnd(ts, i)].src == abcName
    ensures Concat(FixAbcAttribute(ts, i, abcName, needsImport, pending).tokens)
            == Concat(ts[..AbcStart(ts, i)]) + abcName + Concat(ts[AbcEnd(ts, i) + 1..])
  {
    var j := AbcStart(ts, i);
    var r := FixAbcAttribute(ts, i, abcName, needsImport, pending).tokens;
    AttributeCollapseIsSplice(ts, i, abcName, needsImport, pending);
    SpliceText(r, ts, j, AbcEnd(ts, i) + 1, ts[j].(src := abcName));
  }

  lemma AttributeCollapseIsSplice(ts: seq<Token>, i: nat, abcName: string, needsImport: bool,
                                  pending: set<string>)
    requires i <= |ts| && AbcStart(ts, i) < |ts|
    requires AbcEnd(ts, i) < |ts| && ts[AbcEnd(ts, i)].src == abcName
    ensures FixAbcAttribute(ts, i, abcName, needsImport, pending).tokens
            == Splice(ts, AbcStart(ts, i), AbcEnd(ts, i) + 1, ts[AbcStart(ts, i)].(src := abcName))
  {
  }

  /** `visit_Attribute`: only `collections.<ABC>` on a bare name registers,
      and it needs an import unless this file already has
      `from collections.abc import <ABC>`. */
  function VisitAttribute(node: Node, st: State): (regs: seq<Registration>)
    requires node.Attribute?
    ensures |regs| <= 1
    ensures |regs| == 1 <==> node.value == NameExpr("collections") && node.attr in AbcNames
    ensures |regs| == 1 ==> regs[0].at == node.at && regs[0].edit.AbcAttribute?
                            && regs[0].edit.abcName == node.attr
    ensures |regs| == 1 ==>
      (regs[0].edit.needsImport <==> node.attr !in ImportedFrom(st, "collections.abc"))
  {
    if node.value == NameExpr("collections") && node.attr in AbcNames then
      var alreadyImported := node.attr in ImportedFrom(st, "collections.abc");
      [Registration(node.at, AbcAttribute(node.attr, !alreadyImported))]
    else []
  }

  /** `from collections import namedtuple, Mapping` splits into exactly
      `from collections import namedtuple` and
      `from collections.abc import Mapping`. */
  lemma MixedImportSplitsInSourceOrder()
    ensures var p := Partition([Alias("namedtuple", None), Alias("Mapping", None)]);
      p == Split(["Mapping"], ["namedtuple"])
      && ImportLines(p.abc, p.nonAbc)
         == "from collections import " + "namedtuple" + "\n" + "from collections.abc import " + "Mapping" + "\n"
  {
    var names := [Alias("namedtuple", None), Alias("Mapping", None)];
    assert names[1..] == [Alias("Mapping", None)];
    assert names[1..][1..] == [];
    assert "namedtuple" !in AbcNames;
    var p := Partition(names);
    assert p == Split(["Mapping"], ["namedtuple"]);
    assert Join(["namedtuple"], ", ") == "namedtuple";
    assert Join(["Mapping"], ", ") == "Mapping";
  }
}
