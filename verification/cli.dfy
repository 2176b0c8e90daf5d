/** The exit-code decisions of `_fix_file` and the aggregation in `main`.
    Reading files and stdin, decoding, argument parsing, printing and
    writing are not part of this model: a file arrives as its decoded text
    (or the fact that it is not UTF-8) and its parse, and the outcome says
    what would be written and which code is returned. */
module Cli {
  import opened Basics
  import opened Tokens
  import opened Syntax
  import opened Versions
  import Checks
  import Engine
  import Dispatch

  const ExitOk := 0
  const ExitChanges := 1
  const ExitFatal := 2

  /** One command-line file. `decoded` is `None` when the bytes are not
      UTF-8; `tree` is the parse (`None` on a SyntaxError); `fromImports`
      is what the walk in `_data.py` (not part of this model) gathers from
      the tree; `isStdin` is the file name `-`. */
  datatype SourceFile = SourceFile(
    decoded: Option<string>,
    tree: Option<seq<Node>>,
    fromImports: map<string, set<string>>,
    isStdin: bool)

  /** What `_fix_file` decides: its return code, the errors and warnings
      it reports, the text it writes back (to the file, or to stdout for
      `-`), and the module-level pending set it leaves behind. */
  datatype FileOutcome = FileOutcome(
    code: int,
    errors: seq<Checks.RemovedError>,
    warnings: seq<Checks.Warning>,
    written: Option<string>,
    pending: set<string>)

  /** The decisions of `_fix_file` once `_fix_plugins` has produced
      `rewritten` from the file's text (the pipeline is put together in
      `FixFile`). Not UTF-8: CHANGES. Removed modules: FATAL, before any
      rewrite, and nothing written. Otherwise CHANGES exactly when the
      rewrite changed the text, in check mode and out of it; check mode
      writes nothing, stdin always gets the text back, a file only when it
      changed. Errors are reported only with FATAL; warnings only for a
      file (not stdin) past the removed-module check, in check mode too. */
  function Decide(f: SourceFile, stale: set<string>, rewritten: Engine.FixResult, checkOnly: bool)
    : (r: FileOutcome)
    ensures r.code == ExitOk || r.code == ExitChanges || r.code == ExitFatal
    ensures f.decoded == None ==> r.code == ExitChanges && r.written == None && r.pending == stale
    ensures r.code == ExitFatal <==> f.decoded.Some? && Checks.CheckRemovedModules(f.tree) != []
    ensures r.code == ExitFatal ==> r.written == None && r.pending == stale
                                    && r.errors == Checks.CheckRemovedModules(f.tree)
    ensures f.decoded.Some? && r.code != ExitFatal ==>
      var text := f.decoded.value;
      && (r.code == ExitChanges <==> rewritten.text != text)
      && r.pending == rewritten.pending
      && (checkOnly ==> r.written == None)
      && (!checkOnly && (f.isStdin || rewritten.text != text) ==> r.written == Some(rewritten.text))
      && (!checkOnly && !f.isStdin && rewritten.text == text ==> r.written == None)
    ensures r.code != ExitFatal ==> r.errors == []
    ensures f.decoded == None || r.code == ExitFatal || f.isStdin ==> r.warnings == []
    ensures f.decoded.Some? && r.code != ExitFatal && !f.isStdin ==>
              r.warnings == Checks.CheckPotentialDeprecatedMethods(f.tree)
  {
    match f.decoded
    case None => FileOutcome(ExitChanges, [], [], None, stale)
    case Some(text) =>
      var errors := Checks.CheckRemovedModules(f.tree);
      if errors != [] then FileOutcome(ExitFatal, errors, [], None, stale)
      else
        var warnings := if f.isStdin then [] else Checks.CheckPotentialDeprecatedMethods(f.tree);
        var code := if rewritten.text != text then ExitChanges else ExitOk;
        if checkOnly then FileOutcome(code, [], warnings, None, rewritten.pending)
        else
          var written := if f.isStdin || rewritten.text != text then Some(rewritten.text) else None;
          FileOutcome(code, [], warnings, written, rewritten.pending)
  }

  /** `_fix_file`, with the target version fixed at 3.12 as `main` does:
      the decoded text goes through `_fix_plugins`, whose result is only
      looked at when the file decodes and has no removed-module imports. */
  function FixFile(f: SourceFile, stale: set<string>, tokenize: Engine.Tokenizer, checkOnly: bool, h: TokenHelpers)
    : FileOutcome
  {
    var rewritten :=
      if f.decoded.Some?
      then Engine.FixPlugins(stale, f.decoded.value, f.tree, tokenize,
                             State(Settings(Py312, checkOnly), f.fromImports), h)
      else Engine.FixResult("", stale);
    Decide(f, stale, rewritten, checkOnly)
  }

  /** `--check` changes what is written, never the code. */
  lemma CheckModeKeepsCode(f: SourceFile, stale: set<string>, tokenize: Engine.Tokenizer, h: TokenHelpers)
    ensures FixFile(f, stale, tokenize, true, h).code == FixFile(f, stale, tokenize, false, h).code
  {
    if f.tree.Some? {
      Dispatch.VisitIgnoresCheckFlag(f.tree.value, Settings(Py312, true), Settings(Py312, false), f.fromImports);
    }
  }

  /** A file that does not parse is left alone and is OK. */
  lemma SyntaxErrorIsOk(text: string, fromImports: map<string, set<string>>, isStdin: bool, stale: set<string>,
                        tokenize: Engine.Tokenizer, checkOnly: bool, h: TokenHelpers)
    ensures FixFile(SourceFile(Some(text), None, fromImports, isStdin), stale, tokenize, checkOnly, h).code == ExitOk
  {
  }

  /** What an earlier file left pending does not change a file's code. */
  lemma CodeIgnoresStale(f: SourceFile, a: set<string>, b: set<string>, tokenize: Engine.Tokenizer,
                         checkOnly: bool, h: TokenHelpers)
    ensures FixFile(f, a, tokenize, checkOnly, h).code == FixFile(f, b, tokenize, checkOnly, h).code
  {
    if f.decoded.Some? {
      Engine.PendingIsolation(a, b, f.decoded.value, f.tree, tokenize,
                              State(Settings(Py312, checkOnly), f.fromImports), h);
    }
  }

  /** The worst code of a batch under OK < CHANGES < FATAL; 0 when empty. */
  function MaxCode(codes: seq<int>): int {
    if |codes| == 0 then ExitOk
    else
      var m := MaxCode(codes[..|codes| - 1]);
      var c := codes[|codes| - 1];
      if c > m then c else m
  }

  predicate ValidCodes(codes: seq<int>) {
    forall i :: 0 <= i < |codes| ==> codes[i] == ExitOk || codes[i] == ExitChanges || codes[i] == ExitFatal
  }

  /** The batch is FATAL iff some file is, OK iff every file is, and
      CHANGES otherwise. */
  lemma {:induction false} MaxCodeCases(codes: seq<int>)
    requires ValidCodes(codes)
    ensures var m := MaxCode(codes);
      && (m == ExitOk || m == ExitChanges || m == ExitFatal)
      && (m == ExitFatal <==> exists i :: 0 <= i < |codes| && codes[i] == ExitFatal)
      && (m == ExitOk <==> forall i :: 0 <= i < |codes| ==> codes[i] == ExitOk)
  {
    if |codes| > 0 {
      var init := codes[..|codes| - 1];
      assert ValidCodes(init);
      MaxCodeCases(init);
      assert forall i :: 0 <= i < |init| ==> init[i] == codes[i];
      if exists i :: 0 <= i < |init| && init[i] == ExitFatal {
        var i :| 0 <= i < |init| && init[i] == ExitFatal;
        assert codes[i] == ExitFatal;
      }
    }
  }

  /** `main`'s loop over the per-file results (each one of the three
      codes, as `_fix_file` returns them): a FATAL result sticks, and
      CHANGES only replaces OK. The status is the worst code under
      OK < CHANGES < FATAL, and 0 for no files. */
  method Aggregate(results: seq<int>) returns (ret: int)
    requires ValidCodes(results)
    ensures ret == MaxCode(results)
    ensures ret == ExitFatal <==> exists i :: 0 <= i < |results| && results[i] == ExitFatal
    ensures ret == ExitOk <==> forall i :: 0 <= i < |results| ==> results[i] == ExitOk
    ensures |results| == 0 ==> ret == ExitOk
  {
    ret := ExitOk;
    for n := 0 to |results|
      invariant ret == MaxCode(results[..n])
    {
      var result := results[n];
      assert ValidCodes(results[..n]);
      MaxCodeCases(results[..n]);
      if result == ExitFatal {
        ret := ExitFatal;
      } else if result == ExitChanges && ret != ExitFatal {
        ret := ExitChanges;
      }
      assert results[..n + 1][..n] == results[..n];
    }
    assert results[..|results|] == results;
    MaxCodeCases(results);
  }
}
