# PyBreakingFix core, modelled in Dafny

PyBreakingFix rewrites Python sources so they keep working on newer Python
versions. Its core is a token-patch engine. The file is parsed and every
rewrite rule walks the syntax tree. A rule that recognises a node registers
an edit at the node's source offset. The file is then tokenized losslessly,
and one repair pass moves whitespace tokens past DEDENT tokens. The token
list is then walked from the last index to the first. At each token with
text, the edits registered at its offset run against the live list. The
result is the concatenated token text with its leading whitespace removed.
A sorted `from collections.abc import ...` line goes in front when an edit
asked for one.

There are four rules:

- collections ABCs move to `collections.abc`, both in `from collections import`
  lines and in `collections.<ABC>` attribute uses;
- `fractions.gcd` becomes `math.gcd`;
- `asyncio.Task.current_task/all_tasks` become module functions;
- `base64.encodestring/decodestring` become `encodebytes/decodebytes`.

Two detection-only scans run next to them. One reports imports of modules
removed in Python 3.12, which is fatal for the file. The other warns about
method calls that may be deprecated but cannot be rewritten without knowing
the receiver's type. Each file ends with one of three exit codes, and the
batch returns the worst of them.

The modules follow the program:

- `Tokens` holds the token list, `tokens_to_src` and the find/splice primitives.
- `Syntax` holds the tree subset the rules read and the tagged `Edit` that replaces each `functools.partial` callback.
- `CollectionsAbc`, `FractionsGcd`, `AsyncioMethods` and `DeprecatedMethods` are the plugins.
- `Dispatch` is the walk that collects registrations.
- `Engine` holds `_fixup_dedent_tokens` and `_fix_plugins`.
- `Checks` holds the two scans.
- `Cli` holds the exit-code logic of `_fix_file` and `main`.

`Versions` and `Basics` hold the tuple comparison and the string helpers (strip, string order, sorted sets).

Every edit has two contracts. One is on the token list: which indices change, what text they get, and how the length changes. The other is a lemma in text terms that says what the edit does to the source text (`...InText`). The patch pass is modelled twice:

- `Engine.PatchFrom`, a recursive reference definition;
- `Engine.PatchPass`, the loop over the live list.

The loop also returns the token it read at each index and the sequence of callback invocations, so the order of invocations can be stated.

Where the code and its documentation disagree, the model follows the code:

- The collections-ABC rule has no target-version gate. Only the fractions, asyncio and base64 rules check `min_version < (3, 9)`.
- The result is `lstrip()`ped as a whole. Leading whitespace that was already in the file is removed as well, not only whitespace an edit introduced.
- The fractions import visitor does not look at the import level, so `from .fractions import gcd` matches as well.
- The removed-module check does not look at the import level either: `from .imp import reload` is reported as `imp`.
- In the patch pass, invocations go to non-increasing indices. Several edits registered at one offset all run at the same index, in registration order.

## Model

| member | source | states |
|---|---|---|
| Cli.Decide | pybreakingfix/_main.py:192-244 | Non-UTF-8 input is CHANGES and nothing is written. FATAL happens exactly when the text decodes and the removed-module scan reports something; then nothing is written and the errors are that scan's, and errors are reported with FATAL only. Otherwise the code is CHANGES exactly when the rewrite changed the text. Check mode writes nothing, stdin always gets the text back, and a file is written only when it changed. Warnings are exactly the deprecated-method scan's for a decoded file (not stdin) past the removed-module check, in check mode too, and none otherwise. |
| Cli.CheckModeKeepsCode | pybreakingfix/_main.py:223-244 | `--check` changes what is written, never the exit code. |
| Cli.SyntaxErrorIsOk | pybreakingfix/_main.py:74-77 | A file that decodes but does not parse is OK. |
| Cli.CodeIgnoresStale | pybreakingfix/_main.py:71-72 | What an earlier file left in the pending set does not change a file's code. |
| Cli.MaxCodeCases | pybreakingfix/_main.py:262-270 | The worst code of a batch is FATAL iff some file is FATAL, OK iff every file is OK, and CHANGES otherwise. |
| Cli.Aggregate | pybreakingfix/_main.py:262-270 | `main`'s loop returns the worst code under OK < CHANGES < FATAL: FATAL iff some file is FATAL, OK iff all are OK, and 0 for no files. |
| Checks.AliasErrors | pybreakingfix/_main.py:123-131 | One error per alias whose top-level module is removed, each carrying that module and its advice. Every offending alias is reported; how many times and in what order is stated by `Checks.AliasErrorsIsFlatMap`. |
| Checks.NodeErrors | pybreakingfix/_main.py:122-140 | The errors are exactly those the node reports: for an `import`, one per alias whose top-level module is removed, on the node's line, naming that module with its advice; for a `from` import with a non-empty module (at any level) whose top-level component is removed, that component on the node's line. For an `import`, the list is `AliasErrors` of its aliases, so `Checks.AliasErrorsIsFlatMap` gives its multiplicity and order. |
| Checks.CheckRemovedModules | pybreakingfix/_main.py:111-142 | Nothing is reported on a syntax error. Otherwise an error is reported iff some node of the walk reports it: an offending `import` alias or an offending `from` import, on that node's line, naming the catalogued module with its advice. Multiplicity and order are stated by `Checks.RemovedModulesInWalkOrder`. |
| Checks.AliasErrorsSingle | pybreakingfix/_main.py:125-131 | A single alias gives one error, for its top-level module, exactly when that module is removed, and none otherwise. |
| Checks.AliasErrorsIsFlatMap | pybreakingfix/_main.py:125-131 | The aliases' errors are the per-alias errors concatenated in source order: one error for each offending alias, repeats included: the three aliases of `import imp.a, imp.b, distutils` give three errors, each for its own alias, in that order. |
| Checks.AliasErrorsAppend | pybreakingfix/_main.py:125-131 | The errors of two runs of aliases are the first run's errors followed by the second's. |
| Checks.AllErrorsSingle | pybreakingfix/_main.py:122-140 | A one-node walk gives exactly that node's errors. |
| Checks.AllErrorsIsFlatMap | pybreakingfix/_main.py:122-140 | The walk's errors are each node's errors concatenated in walk order. |
| Checks.AllErrorsAppend | pybreakingfix/_main.py:122-140 | The errors of two runs of nodes are the first run's errors followed by the second's. |
| Checks.RemovedModulesInWalkOrder | pybreakingfix/_main.py:111-142 | For a parsed file, the report for `a + b` is the report for `a` followed by the report for `b`, and a one-node file reports exactly that node's errors: every error appears once per offending node or alias, in walk order. |
| Checks.RemovedErrorsIffOffendingNode | pybreakingfix/_main.py:122-140 | A parsed file has removed-module errors iff some node imports a removed module. |
| Checks.RelativeImportsNotReported | pybreakingfix/_main.py:133 | `from . import x` is never reported. |
| Checks.DottedImportReportsTopLevel | pybreakingfix/_main.py:125-131 | `import distutils.core` is reported as `distutils` with the setuptools advice. |
| Checks.FromImportReportsItsModule | pybreakingfix/_main.py:132-140 | `from imp import reload` is reported as `imp` on the node's line with the importlib advice, at any import level. |
| Checks.AllWarnings | pybreakingfix/_main.py:160-180 | A warning is reported iff some call that is not exempt, whose callee is an attribute named in the catalogue, produces it: the call's line, the method name and that method's catalogue entry. Multiplicity and order are stated by `Checks.AllWarningsIsFlatMap`. |
| Checks.CheckPotentialDeprecatedMethods | pybreakingfix/_main.py:145-182 | No warnings on a syntax error. Otherwise a warning is reported iff some warned call of the walk produces it, with its line and its catalogue entry. Multiplicity and order are stated by `Checks.WarningsInWalkOrder`. |
| Checks.AllWarningsSingle | pybreakingfix/_main.py:160-180 | A single node gives one warning, with its line, method name and catalogue entry, exactly when it warns, and none otherwise. |
| Checks.AllWarningsIsFlatMap | pybreakingfix/_main.py:160-180 | The warnings are the per-node warnings concatenated in walk order: one per warned call, repeats included: the three calls of `a.isAlive(); b.isAlive(); c.getchildren()` give three warnings, each for its own call, in that order. |
| Checks.AllWarningsAppend | pybreakingfix/_main.py:160-180 | The warnings of two runs of nodes are the first run's warnings followed by the second's. |
| Checks.WarningsInWalkOrder | pybreakingfix/_main.py:145-182 | For a parsed file, the warnings for `a + b` are those for `a` followed by those for `b`, and a one-node file gives exactly that node's warning if it warns. |
| Checks.EtreeExemptionIsNarrow | pybreakingfix/_main.py:165-171 | `etree.tostring` is exempt, but `arr.tostring` and `ET.getchildren` still warn. |
| Engine.SwapNext | pybreakingfix/_main.py:67 | The swap exchanges exactly the two neighbours and leaves every other index alone. |
| Engine.FixupPermutes | pybreakingfix/_main.py:55-67 | The dedent fixup keeps the length and the multiset of tokens. |
| Engine.FixupKeepsOthers | pybreakingfix/_main.py:65-67 | The fixup only moves whitespace and DEDENT tokens. Every other token stays at its index. |
| Engine.FixupFailsIffTrailingWs | pybreakingfix/_main.py:65-67 | The fixup raises (`tokens[i + 1]` out of range) iff the list ends in a whitespace token followed only by DEDENTs. |
| Engine.FixupKeepsText | pybreakingfix/_main.py:65-67 | When DEDENTs carry no text, the fixup leaves the source text unchanged. |
| Engine.FixupOnTokenization | pybreakingfix/_main.py:84-89 | On tokenizer output the fixup never raises and keeps the text. |
| Engine.WhitespaceBubblesPastDedents | pybreakingfix/_main.py:55-67 | In the docstring's case, one whitespace token before two DEDENTs ends up after both, because the loop meets it again on the live list. |
| Engine.ApplyEdit | pybreakingfix/_main.py:96-97 | Any edit run at index `i` leaves indices below `i - 1` alone. Index `i - 1` keeps its token or gets one without an offset. The pending set only grows, by the attribute's ABC name, and only when an import is needed. |
| Engine.ApplyAbcEdit | pybreakingfix/_plugins/imports.py:49-184 | The collections-ABC edits never touch tokens below `i - 1`. The only one that changes the pending set is the attribute edit that needs an import. |
| Engine.ApplyOtherEdit | pybreakingfix/_main.py:96-97 | The fractions, asyncio and rename edits never change a token below their index. |
| Engine.RunGroup | pybreakingfix/_main.py:96-97 | The edits of one offset, run in registration order, keep the cursor property and add to the pending set only names some of them request. |
| Engine.Group | pybreakingfix/_main.py:92-96 | An empty token, or one without an offset, runs nothing. For any other token, an edit runs iff it is registered at the token's offset. |
| Engine.PatchFrom | pybreakingfix/_main.py:91-97 | The reverse pass only adds requested ABC names to the pending set. |
| Engine.NoRegistrationsNoChange | pybreakingfix/_main.py:91-97 | With nothing registered, the pass changes nothing. |
| Engine.RunGroupInPlace | pybreakingfix/_main.py:96-97 | The in-place inner loop computes the same list and pending set as `RunGroup`. |
| Engine.PatchPass | pybreakingfix/_main.py:91-97 | The loop over the live list equals the reference pass. Each token read is the original or one an edit built. Invocations go to non-increasing indices. Each runs an edit registered at the original token's offset, never at an empty token. At each index exactly the edits registered there run, in order. |
| Engine.TraceAboveDescends | pybreakingfix/_main.py:91 | A top-down trace only goes to visited indices, in non-increasing order. |
| Engine.TraceAboveEdits | pybreakingfix/_main.py:96-97 | A visited index sees exactly the edits that ran there, in order. Any other index sees none. |
| Engine.SerializeShape | pybreakingfix/_main.py:99-106 | The result is the patched text without exactly its leading whitespace. The import line is in front iff some name is pending. |
| Engine.ImportLineIsSorted | pybreakingfix/_main.py:103-104 | The pending names `Sized` and `Mapping` give one line naming them in ascending order. |
| Engine.FixPlugins | pybreakingfix/_main.py:70-108 | The text comes back unchanged, with nothing pending, on a syntax error, with no registrations, or when tokenizing fails. Only ABC names not yet imported from collections.abc, and asked for by some attribute registration of the file, can be pending. The main-path text is stated by `FixPluginsMainPath`. |
| Engine.FixPluginsMainPath | pybreakingfix/_main.py:84-106 | When the file parses, something registers and it tokenizes, the result is the text of the tokens patched after the dedent fixup, minus exactly its leading whitespace, behind the sorted import line exactly when a name is pending; the pending names are the pass's. |
| Engine.PendingIsolation | pybreakingfix/_main.py:71-72 | The result does not depend on what an earlier file left pending. |
| Dispatch.VisitNode | pybreakingfix/_plugins/imports.py:99-206 | At most one registration per node, at the node's offset. Plain imports register nothing. Below 3.9 only collections-ABC edits register. An attribute edit that needs an import names an ABC the file does not import yet. Each node kind's registrations are given exactly by `RuleOrderIrrelevant`. Besides the import rewrites, it offers call nodes to the fractions (`pybreakingfix/_plugins/fractions_gcd.py:54-109`), asyncio (`pybreakingfix/_plugins/asyncio_methods.py:79-101`) and base64 (`pybreakingfix/_plugins/deprecated_methods.py:50-77`) visitors. |
| Dispatch.VisitCallNode | pybreakingfix/_plugins/asyncio_methods.py:79-101 | The three call visitors together register at most once per call, and nothing below 3.9. |
| Dispatch.VisitImportFromNode | pybreakingfix/_plugins/fractions_gcd.py:89-109 | The two `from` import visitors register at most once per node. Below 3.9 only the ABC edit registers. |
| Dispatch.RuleOrderIrrelevant | pybreakingfix/_plugins/imports.py:99-140 | Consulting the rules in the opposite order registers the same edits; an attribute node's registrations are exactly the ABC attribute visitor's. |
| Dispatch.Visit | pybreakingfix/_main.py:79 | At most one registration per node; a registration is in the walk's result iff some node's visitors produce it. The version gate and the pending-name bound hold for all of them. |
| Dispatch.VisitSingle | pybreakingfix/_main.py:79 | Walking one node registers exactly that node's visitors' edits. |
| Dispatch.VisitAppend | pybreakingfix/_main.py:79 | Walking two node sequences one after the other registers the first's edits and then the second's, so walk order is kept. |
| Dispatch.VisitIgnoresCheckFlag | pybreakingfix/_main.py:223-229 | The walk reads the target version and the imports, never the check flag. |
| Dispatch.AmbiguousCallsNeverRegister | pybreakingfix/_plugins/deprecated_methods.py:24-32 | A call of any method the warning scan catalogues is never rewritten, whatever its receiver or target version. |
| Dispatch.NoCandidateNodesNoEdits | pybreakingfix/_main.py:79-82 | A tree with no calls, `from` imports or attributes registers nothing. |
| CollectionsAbc.Partition | pybreakingfix/_plugins/imports.py:109-124 | Every alias lands in exactly one list, by whether it is an ABC, rendered as `name as asname` when aliased. Both lists keep source order. |
| CollectionsAbc.PartitionOnlyFromNames | pybreakingfix/_plugins/imports.py:109-124 | Each list holds only renderings of aliases of its own class. |
| CollectionsAbc.VisitImportFrom | pybreakingfix/_plugins/imports.py:99-140 | It registers iff the import is absolute, from exactly `collections`, and names some ABC. The edit is the pure rename iff every name is an ABC, and the split otherwise. |
| CollectionsAbc.FixImportPure | pybreakingfix/_plugins/imports.py:49-61 | Only the first `collections` token at or after `i` changes, to `collections.abc`. The length stays, and there is no change when no such token exists. |
| CollectionsAbc.ImportPureInText | pybreakingfix/_plugins/imports.py:57-61 | In the text, that `collections` becomes `collections.abc` and everything around it stays. |
| CollectionsAbc.ImportLines | pybreakingfix/_plugins/imports.py:86-93 | The replacement is the non-ABC line, then the collections.abc line, each ending in a newline. A line is absent when its list is empty. |
| CollectionsAbc.FixImportMixed | pybreakingfix/_plugins/imports.py:64-96 | The statement, from the space before it when there is one to its end, becomes one CODE token holding the import lines. Tokens before and after stay. |
| CollectionsAbc.ImportMixedInText | pybreakingfix/_plugins/imports.py:79-96 | In the text, the statement is replaced by the import lines and the text around it stays. |
| CollectionsAbc.SkipSeparators | pybreakingfix/_plugins/imports.py:172-174 | It stops at the first token whose text is neither empty nor `.`, and only skips such tokens. |
| CollectionsAbc.FixAbcAttribute | pybreakingfix/_plugins/imports.py:148-184 | `collections`, the separators and the ABC name collapse into one token with the ABC's text, keeping the kind and offset of `collections`. Otherwise the list is unchanged. The name becomes pending iff an import is needed and a `collections` token was found. |
| CollectionsAbc.AttributeInText | pybreakingfix/_plugins/imports.py:161-177 | The matched range reads `collections`, then separators, then the ABC name. |
| CollectionsAbc.AttributeCollapseInText | pybreakingfix/_plugins/imports.py:177-180 | In the text, that range becomes the ABC name alone and the text around it stays. |
| CollectionsAbc.VisitAttribute | pybreakingfix/_plugins/imports.py:187-206 | It registers iff the node is `collections.<ABC>` on a bare name. An import is needed iff the file does not already import that ABC from collections.abc. |
| CollectionsAbc.MixedImportSplitsInSourceOrder | pybreakingfix/_plugins/imports.py:109-140 | `from collections import namedtuple, Mapping` splits into a `namedtuple` line and then a `Mapping` line. |
| FractionsGcd.FixGcdCall | pybreakingfix/_plugins/fractions_gcd.py:16-31 | Only the first `fractions` token at or after `i` changes, to `math`. The length and every other token stay. |
| FractionsGcd.FixGcdImport | pybreakingfix/_plugins/fractions_gcd.py:37-51 | The module token becomes `math` and the imported names are untouched. |
| FractionsGcd.MathImportFlagHasNoEffect | pybreakingfix/_plugins/fractions_gcd.py:16-51 | `has_math_import` never changes either edit's result. |
| FractionsGcd.NoFractionsTokenNoChange | pybreakingfix/_plugins/fractions_gcd.py:27-28 | With no `fractions` token at or after `i`, both edits are no-ops. |
| FractionsGcd.GcdEditsRenameModuleInText | pybreakingfix/_plugins/fractions_gcd.py:24-31 | In the text, the first `fractions` after the node becomes `math` and everything around it stays. |
| FractionsGcd.VisitCall | pybreakingfix/_plugins/fractions_gcd.py:54-86 | It registers iff the target is at least 3.9 and the callee is `fractions.gcd` on a bare name. A bare `gcd(...)` registers nothing. |
| FractionsGcd.VisitImportFrom | pybreakingfix/_plugins/fractions_gcd.py:89-109 | It registers iff the target is at least 3.9, the module is `fractions`, and some alias is named `gcd`. |
| AsyncioMethods.TaskMethodsMoveToModule | pybreakingfix/_plugins/asyncio_methods.py:19-22 | Each table entry is the same function name, on the module. |
| AsyncioMethods.FindClose | pybreakingfix/_plugins/asyncio_methods.py:43-55 | The scan stops at the first `)` that brings the depth counted from `asyncio` back to 0, or at the end. |
| AsyncioMethods.OpenParenBeforeClose | pybreakingfix/_plugins/asyncio_methods.py:61-68 | When a closing `)` is found, a `(` precedes it, so the "no paren" exit is unreachable. |
| AsyncioMethods.FixTaskMethod | pybreakingfix/_plugins/asyncio_methods.py:25-76 | The list is unchanged with no `asyncio` token or no closing `)`. Otherwise `asyncio` through the `)` becomes one token `new_call(args)`, where args is the stripped text between the first `(` and that `)`. Tokens before and after stay, and the length drops by the range size minus one. |
| AsyncioMethods.TaskMethodInText | pybreakingfix/_plugins/asyncio_methods.py:70-76 | In the text, the old call is replaced by the module-level call with the same stripped arguments, and the text around it stays. |
| AsyncioMethods.VisitCall | pybreakingfix/_plugins/asyncio_methods.py:79-101 | It registers iff the target is at least 3.9 and the callee is `asyncio.Task.<m>` for a table method, bound to that method's module-level name. |
| DeprecatedMethods.FixRename | pybreakingfix/_plugins/deprecated_methods.py:35-47 | Only the first token at or after `i` with the old name changes, to the new name. The length stays, and there is no change when there is no match. |
| DeprecatedMethods.RenameInText | pybreakingfix/_plugins/deprecated_methods.py:43-47 | In the text, that occurrence of the old name becomes the new name and the rest stays. |
| DeprecatedMethods.VisitCall | pybreakingfix/_plugins/deprecated_methods.py:50-77 | It registers iff the target is at least 3.9, the receiver is a bare name, and `(module, attr)` is a table key, with that key's new name. |
| DeprecatedMethods.OnlyBase64Renames | pybreakingfix/_plugins/deprecated_methods.py:18-22 | Only `base64.encodestring` and `base64.decodestring` are renamed, each to its `...bytes` counterpart. |
| Syntax.EditsAt | pybreakingfix/_main.py:96 | A token without an offset matches nothing. An edit is found iff it is registered at that offset. |
| Syntax.EditsAtAppend | pybreakingfix/_main.py:79-96 | Registering more later only appends to an offset's edits, so registration order is kept. |
| Syntax.EditsAtInRegistrationOrder | pybreakingfix/_main.py:79-96 | The lookup at an offset returns exactly the edits registered there, in the order they were registered. |
| Versions.LtIsTupleLt | pybreakingfix/_plugins/fractions_gcd.py:61 | The `(major, minor)` comparison is Python's tuple `<`, in both directions. |
| Versions.GateAtFixedTargets | pybreakingfix/_main.py:259-260 | The fixed 3.12 target enables the 3.9-gated rules, and a 3.8 target disables them. |
| Tokens.FindSrc | pybreakingfix/_plugins/imports.py:57-59 | The scan finds the first index at or after `i` with the given text, or the end when there is none. |
| Tokens.ReplaceFirst | pybreakingfix/_plugins/fractions_gcd.py:24-31 | Only that first match changes. It gets the new text and keeps its kind and offset. |
| Tokens.Splice | pybreakingfix/_plugins/imports.py:96 | Replacing a range by one token keeps the prefix and the suffix and shrinks the list by `b - a - 1`. |
| Tokens.SpliceConcat | pybreakingfix/_plugins/imports.py:96 | The text of a spliced list is the text around the range with the new token's text in its place. |
| Tokens.ReplaceFirstText | pybreakingfix/_plugins/deprecated_methods.py:43-47 | Renaming the first match replaces exactly that occurrence in the text. |
| Basics.LStripSpec | pybreakingfix/_main.py:99 | `lstrip` removes exactly the leading whitespace. |
| Basics.SortedSet | pybreakingfix/_main.py:103 | Sorting a set yields exactly the set's members, strictly ascending. |
| Basics.FirstComponent | pybreakingfix/_main.py:125 | The first dotted component is the part before the first dot, or the whole name. |

## Left out

- Python's `ast` parser and `ast.walk`. The tree is a sequence of nodes of a small datatype (Import, ImportFrom, Call, Attribute, other), and a parse failure is `None`. The node offsets stand in for `ast_to_offset`.
- `src_to_tokens` from tokenize_rt. `Engine.Tokenizer` is a parameter that either fails or keeps the tokenizer's promise: the text round-trips, the list ends in ENDMARKER, and DEDENTs are empty.
- `_data.py` (the registry, `visit`, `State`, `Settings`) is not part of this model. The walk is `Dispatch.Visit`. The `from_imports` map the walk gathers arrives as an input.
- `_token_helpers.py` is not part of this model. `find_end` and `has_space_before` are parameters known only by their index bounds.
- File and stdin reading, UTF-8 decoding, argparse, printing, ANSI colours and file writing. A file arrives as its decoded text (or `None`) and its parse. `Cli.Decide` says what would be written.
- The text of the printed messages. The errors and warnings are modelled as tuples.
- `pybreakingfix/_plugins/removed_modules.py` is an unreferenced data table. The live catalogue is the one in `_main.py`.
- Cli.FixFile: it carries no contract of its own. It composes `Engine.FixPlugins` and `Cli.Decide` at the fixed 3.12 target, and the lemmas about it (`CheckModeKeepsCode`, `SyntaxErrorIsOk`, `CodeIgnoresStale`) state its properties.
- Engine.FixPlugins: its own contract states the early exits and the pending bounds only. The main-path result is stated by the lemma `Engine.FixPluginsMainPath`, which keeps the function's own proof small.
- Engine.PatchPass: the source's invocations are "strictly decreasing" only across indices. Several edits at one offset run at the same index, so the contract states non-increasing indices plus in-order runs per index.
- The IndexError `_fixup_dedent_tokens` raises when whitespace reaches the last index is modelled as `None`. On tokenizer output it cannot happen (`Engine.FixupOnTokenization`).
