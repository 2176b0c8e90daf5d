/** The token-patch engine of `_main.py`: `_fixup_dedent_tokens`, the
    reverse pass that runs every registered edit at the token carrying its
    offset, and `_fix_plugins`, which puts the parse, the walk, the
    tokenizer, the pass and the import injection together. */
module Engine {
  import opened Basics
  import opened Tokens
  import opened Syntax
  import CollectionsAbc
  import FractionsGcd
  import AsyncioMethods
  import DeprecatedMethods
  import Dispatch

  // ----- _fixup_dedent_tokens -----

  /** Exchange the token at `i` with the one after it. */
  function SwapNext(ts: seq<Token>, i: nat): (r: seq<Token>)
    requires i + 1 < |ts|
    ensures |r| == |ts|
    ensures r[i] == ts[i + 1] && r[i + 1] == ts[i]
    ensures forall m :: 0 <= m < |ts| && m != i && m != i + 1 ==> r[m] == ts[m]
  {
    ts[..i] + [ts[i + 1], ts[i]] + ts[i + 2..]
  }

  lemma SwapPermutes(ts: seq<Token>, i: nat)
    requires i + 1 < |ts|
    ensures multiset(SwapNext(ts, i)) == multiset(ts)
  {
    assert ts == ts[..i] + [ts[i], ts[i + 1]] + ts[i + 2..];
  }

  /** The loop of `_fixup_dedent_tokens` from index `i` on. It enumerates
      the live list, so a whitespace token swapped forward is met again at
      the next index and keeps moving past a run of DEDENTs. `None` is the
      IndexError the source raises when a whitespace token reaches the last
      index (`tokens[i + 1]` does not exist). */
  function FixupFrom(ts: seq<Token>, i: nat): Option<seq<Token>>
    requires i <= |ts|
    decreases |ts| - i
  {
    if i == |ts| then Some(ts)
    else if ts[i].name != UnimportantWs then FixupFrom(ts, i + 1)
    else if i + 1 == |ts| then None
    else if ts[i + 1].name != Dedent then FixupFrom(ts, i + 1)
    else FixupFrom(SwapNext(ts, i), i + 1)
  }

  function FixupDedentTokens(ts: seq<Token>): Option<seq<Token>> {
    FixupFrom(ts, 0)
  }

  /** The fixup only swaps neighbours: the length and the multiset of
      tokens stay. */
  lemma {:induction false} FixupPermutes(ts: seq<Token>, i: nat)
    requires i <= |ts|
    ensures var r := FixupFrom(ts, i);
      r.Some? ==> |r.value| == |ts| && multiset(r.value) == multiset(ts)
    decreases |ts| - i
  {
    if i == |ts| {
    } else if ts[i].name != UnimportantWs || (i + 1 < |ts| && ts[i + 1].name != Dedent) {
      FixupPermutes(ts, i + 1);
    } else if i + 1 < |ts| {
      FixupPermutes(SwapNext(ts, i), i + 1);
      SwapPermutes(ts, i);
    }
  }

  /** The part before `i` stays, and so does every token that is neither
      whitespace nor a DEDENT. */
  lemma {:induction false} FixupKeepsOthers(ts: seq<Token>, i: nat)
    requires i <= |ts|
    ensures var r := FixupFrom(ts, i);
      r.Some? && |r.value| == |ts| ==>
        && (forall m :: 0 <= m < i ==> r.value[m] == ts[m])
        && (forall m :: i <= m < |ts| && ts[m].name != UnimportantWs && ts[m].name != Dedent ==>
              r.value[m] == ts[m])
    decreases |ts| - i
  {
    if i == |ts| {
    } else if ts[i].name != UnimportantWs || (i + 1 < |ts| && ts[i + 1].name != Dedent) {
      FixupKeepsOthers(ts, i + 1);
    } else if i + 1 < |ts| {
      FixupKeepsOthers(SwapNext(ts, i), i + 1);
    }
  }

  /** A whitespace token at `j` followed only by DEDENTs. */
  predicate WsThenDedents(ts: seq<Token>, j: nat)
    requires j < |ts|
  {
    ts[j].name == UnimportantWs && forall m :: j < m < |ts| ==> ts[m].name == Dedent
  }

  /** From index `i` on, the list ends with a whitespace token followed
      only by DEDENTs. */
  predicate TrailingWs(ts: seq<Token>, i: nat) {
    exists j :: i <= j < |ts| && WsThenDedents(ts, j)
  }

  /** A swap at `i` carries a trailing run back to the original list... */
  lemma TrailingWsUnswap(ts: seq<Token>, i: nat, j: nat)
    requires i + 1 < |ts| && ts[i].name == UnimportantWs && ts[i + 1].name == Dedent
    requires i + 1 <= j < |ts| && WsThenDedents(SwapNext(ts, i), j)
    ensures TrailingWs(ts, i)
  {
    var s := SwapNext(ts, i);
    var jt := if j == i + 1 then i else j;
    forall m | jt < m < |ts|
      ensures ts[m].name == Dedent
    {
      if m != i + 1 {
        assert ts[m] == s[m];
      }
    }
    assert WsThenDedents(ts, jt);
  }

  /** ...and the original's forward to the swapped list. */
  lemma TrailingWsSwapForward(ts: seq<Token>, i: nat, j: nat)
    requires i + 1 < |ts| && ts[i].name == UnimportantWs && ts[i + 1].name == Dedent
    requires i <= j < |ts| && WsThenDedents(ts, j)
    ensures TrailingWs(SwapNext(ts, i), i + 1)
  {
    var s := SwapNext(ts, i);
    var js := if j == i then i + 1 else j;
    forall m | js < m < |s|
      ensures s[m].name == Dedent
    {
      assert s[m] == ts[m];
    }
    assert WsThenDedents(s, js);
  }

  /** A swap at `i` moves the trailing whitespace token one step on. */
  lemma TrailingWsSwap(ts: seq<Token>, i: nat)
    requires i + 1 < |ts| && ts[i].name == UnimportantWs && ts[i + 1].name == Dedent
    ensures TrailingWs(SwapNext(ts, i), i + 1) <==> TrailingWs(ts, i)
  {
    var s := SwapNext(ts, i);
    if TrailingWs(s, i + 1) {
      var j :| i + 1 <= j < |s| && WsThenDedents(s, j);
      TrailingWsUnswap(ts, i, j);
    }
    if TrailingWs(ts, i) {
      var j :| i <= j < |ts| && WsThenDedents(ts, j);
      TrailingWsSwapForward(ts, i, j);
    }
  }

  /** A token that is not whitespace, or whitespace before something other
      than a DEDENT, cannot start the trailing run. */
  lemma TrailingWsSkip(ts: seq<Token>, i: nat)
    requires i < |ts|
    requires ts[i].name != UnimportantWs || (i + 1 < |ts| && ts[i + 1].name != Dedent)
    ensures TrailingWs(ts, i) <==> TrailingWs(ts, i + 1)
  {
    if TrailingWs(ts, i) {
      var j :| i <= j < |ts| && WsThenDedents(ts, j);
      assert j != i;
    }
  }

  /** The fixup raises exactly when the list ends in a whitespace token and
      a (possibly empty) run of DEDENTs. */
  lemma {:induction false} FixupFailsIffTrailingWs(ts: seq<Token>, i: nat)
    requires i <= |ts|
    ensures FixupFrom(ts, i) == None <==> TrailingWs(ts, i)
    decreases |ts| - i
  {
    if i == |ts| {
    } else if ts[i].name != UnimportantWs || (i + 1 < |ts| && ts[i + 1].name != Dedent) {
      FixupFailsIffTrailingWs(ts, i + 1);
      TrailingWsSkip(ts, i);
    } else if i + 1 == |ts| {
      assert WsThenDedents(ts, i);
    } else {
      FixupFailsIffTrailingWs(SwapNext(ts, i), i + 1);
      TrailingWsSwap(ts, i);
    }
  }

  /** Every DEDENT from index `i` on is empty text, as tokenize_rt makes them. */
  predicate EmptyDedents(ts: seq<Token>, i: nat) {
    forall m :: i <= m < |ts| && ts[m].name == Dedent ==> ts[m].src == ""
  }

  lemma ConcatPair(two: seq<Token>)
    requires |two| == 2
    ensures Concat(two) == two[0].src + two[1].src
  {
    assert two[..1][..0] == [];
    assert Concat(two[..1]) == two[0].src;
  }

  /** Swapping a pair whose first token has no text keeps the text. */
  lemma SwapKeepsText(ts: seq<Token>, i: nat)
    requires i + 1 < |ts| && ts[i + 1].src == ""
    ensures Concat(SwapNext(ts, i)) == Concat(ts)
  {
    var a, b := ts[..i], ts[i + 2..];
    var p, q := [ts[i], ts[i + 1]], [ts[i + 1], ts[i]];
    assert ts == a + p + b;
    assert SwapNext(ts, i) == a + q + b;
    ConcatAppend(a + p, b);
    ConcatAppend(a, p);
    ConcatAppend(a + q, b);
    ConcatAppend(a, q);
    ConcatPair(p);
    ConcatPair(q);
    assert Concat(a + p + b) == Concat(a) + (ts[i].src + ts[i + 1].src) + Concat(b);
    assert Concat(a + q + b) == Concat(a) + (ts[i + 1].src + ts[i].src) + Concat(b);
    assert ts[i + 1].src + ts[i].src == ts[i].src + ts[i + 1].src;
  }

  /** Moving whitespace past empty DEDENTs does not change the text. */
  lemma {:induction false} FixupKeepsText(ts: seq<Token>, i: nat)
    requires i <= |ts| && EmptyDedents(ts, i)
    ensures FixupFrom(ts, i).Some? ==> Concat(FixupFrom(ts, i).value) == Concat(ts)
    decreases |ts| - i
  {
    if i == |ts| {
    } else if ts[i].name != UnimportantWs || (i + 1 < |ts| && ts[i + 1].name != Dedent) {
      FixupKeepsText(ts, i + 1);
    } else if i + 1 < |ts| {
      var s := SwapNext(ts, i);
      assert EmptyDedents(s, i + 1);
      FixupKeepsText(s, i + 1);
      SwapKeepsText(ts, i);
    }
  }

  /** What `src_to_tokens` promises: the texts concatenate back to the
      source, the list ends with ENDMARKER and DEDENTs carry no text. */
  predicate Tokenization(text: string, ts: seq<Token>) {
    && Concat(ts) == text
    && |ts| > 0 && ts[|ts| - 1].name == EndMarker
    && EmptyDedents(ts, 0)
  }

  /** On tokenizer output the fixup never raises and keeps the text. */
  lemma FixupOnTokenization(text: string, ts: seq<Token>)
    requires Tokenization(text, ts)
    ensures FixupDedentTokens(ts).Some?
    ensures Concat(FixupDedentTokens(ts).value) == text
  {
    FixupFailsIffTrailingWs(ts, 0);
    FixupKeepsText(ts, 0);
  }

  /** The docstring's case: one whitespace token before two DEDENTs ends up
      after both of them. */
  lemma WhitespaceBubblesPastDedents(ws: Token, d1: Token, d2: Token, end: Token)
    requires ws.name == UnimportantWs && d1.name == Dedent && d2.name == Dedent && end.name == EndMarker
    ensures FixupDedentTokens([ws, d1, d2, end]) == Some([d1, d2, ws, end])
  {
    var s0 := [ws, d1, d2, end];
    var s1 := SwapNext(s0, 0);
    assert s1 == [d1, ws, d2, end];
    var s2 := SwapNext(s1, 1);
    assert s2 == [d1, d2, ws, end];
    calc {
      FixupFrom(s0, 0);
      FixupFrom(s1, 1);
      FixupFrom(s2, 2);
      FixupFrom(s2, 3);
      FixupFrom(s2, 4);
    }
  }

  // ----- the patch pass -----

  /** Run one registered edit (the bound `functools.partial`) at index `i`
      of the live list. Whatever it does, it leaves the indices below
      `i - 1` alone, and index `i - 1` either alone or replaced by a token
      without an offset (the mixed import edit starts there when a space
      precedes the statement), so the pass can go on at `i - 1`. */
  function ApplyEdit(e: Edit, i: nat, p: Patched, h: TokenHelpers): (r: Patched)
    requires i <= |p.tokens|
    ensures i <= |r.tokens|
    ensures forall m :: 0 <= m < i - 1 ==> r.tokens[m] == p.tokens[m]
    ensures i >= 1 ==> r.tokens[i - 1] == p.tokens[i - 1] || r.tokens[i - 1].pos == None
    ensures r.pending == p.pending
            || (e.AbcAttribute? && e.needsImport && r.pending == p.pending + {e.abcName})
  {
    if e.AbcImportPure? || e.AbcImportMixed? || e.AbcAttribute? then ApplyAbcEdit(e, i, p, h)
    else Patched(ApplyOtherEdit(e, i, p.tokens), p.pending)
  }

  /** The edits of the collections-ABC rule. */
  function ApplyAbcEdit(e: Edit, i: nat, p: Patched, h: TokenHelpers): (r: Patched)
    requires i <= |p.tokens| && (e.AbcImportPure? || e.AbcImportMixed? || e.AbcAttribute?)
    ensures i <= |r.tokens|
    ensures forall m :: 0 <= m < i - 1 ==> r.tokens[m] == p.tokens[m]
    ensures i >= 1 ==> r.tokens[i - 1] == p.tokens[i - 1] || r.tokens[i - 1].pos == None
    ensures r.pending == p.pending
            || (e.AbcAttribute? && e.needsImport && r.pending == p.pending + {e.abcName})
  {
    var ts := p.tokens;
    match e
    case AbcImportPure => Patched(CollectionsAbc.FixImportPure(ts, i), p.pending)
    case AbcImportMixed(abc, nonAbc) => Patched(CollectionsAbc.FixImportMixed(ts, i, abc, nonAbc, h), p.pending)
    case AbcAttribute(name, needsImport) =>
      var r := CollectionsAbc.FixAbcAttribute(ts, i, name, needsImport, p.pending);
      var j := FindSrc(ts, i, "collections");
      assert forall m :: 0 <= m < j && m < |r.tokens| ==> r.tokens[m] == r.tokens[..j][m];
      r
  }

  /** The edits of the other rules, which never touch the pending imports. */
  function ApplyOtherEdit(e: Edit, i: nat, ts: seq<Token>): (r: seq<Token>)
    requires i <= |ts| && !(e.AbcImportPure? || e.AbcImportMixed? || e.AbcAttribute?)
    ensures i <= |r|
    ensures forall m :: 0 <= m < i ==> r[m] == ts[m]
  {
    match e
    case FractionsGcdCall(b) => FractionsGcd.FixGcdCall(ts, i, b)
    case FractionsGcdImport(b) => FractionsGcd.FixGcdImport(ts, i, b)
    case AsyncioTaskMethod(newCall) => AsyncioMethods.FixTaskMethod(ts, i, newCall)
    case ModuleFunctionRename(oldName, newName) => DeprecatedMethods.FixRename(ts, i, oldName, newName)
  }

  /** Names some edit of `es` may add to the pending imports. */
  function AbcRequests(es: seq<Edit>): set<string> {
    set e | e in es && e.AbcAttribute? && e.needsImport :: e.abcName
  }

  /** Names some registration may add to the pending imports. */
  function Requested(regs: seq<Registration>): set<string> {
    set r | r in regs && r.edit.AbcAttribute? && r.edit.needsImport :: r.edit.abcName
  }

  /** The edits of one offset, run one after another at index `i` in the
      order they were registered. */
  function RunGroup(es: seq<Edit>, i: nat, p: Patched, h: TokenHelpers): (r: Patched)
    requires i <= |p.tokens|
    ensures i <= |r.tokens|
    ensures forall m :: 0 <= m < i - 1 ==> r.tokens[m] == p.tokens[m]
    ensures i >= 1 ==> r.tokens[i - 1] == p.tokens[i - 1] || r.tokens[i - 1].pos == None
    ensures p.pending <= r.pending && r.pending <= p.pending + AbcRequests(es)
  {
    if |es| == 0 then p
    else
      var q := ApplyEdit(es[0], i, p, h);
      var r := RunGroup(es[1..], i, q, h);
      assert AbcRequests(es[1..]) <= AbcRequests(es) by {
        assert forall e :: e in es[1..] ==> e in es;
      }
      assert es[0] in es;
      r
  }

  /** What runs at a visited token: nothing for an empty token, otherwise
      the edits registered at its offset. */
  function Group(tok: Token, regs: seq<Registration>): (es: seq<Edit>)
    ensures tok.src == "" || tok.pos == None ==> es == []
    ensures forall e :: e in es ==> tok.pos.Some? && Registration(tok.pos.value, e) in regs
    ensures tok.src != "" && tok.pos.Some? ==>
              forall r :: r in regs && r.at == tok.pos.value ==> r.edit in es
  {
    if tok.src == "" then [] else EditsAt(regs, tok.pos)
  }

  /** The reverse pass as a recursive definition: visit index `k - 1`,
      then everything below it. */
  function PatchFrom(k: nat, p: Patched, regs: seq<Registration>, h: TokenHelpers): (r: Patched)
    requires k <= |p.tokens|
    ensures p.pending <= r.pending && r.pending <= p.pending + Requested(regs)
    decreases k
  {
    if k == 0 then p
    else
      var es := Group(p.tokens[k - 1], regs);
      var q := RunGroup(es, k - 1, p, h);
      assert AbcRequests(es) <= Requested(regs);
      PatchFrom(k - 1, q, regs, h)
  }

  /** With nothing registered the pass changes nothing. */
  lemma {:induction false} NoRegistrationsNoChange(k: nat, p: Patched, h: TokenHelpers)
    requires k <= |p.tokens|
    ensures PatchFrom(k, p, [], h) == p
  {
    if k > 0 {
      assert Group(p.tokens[k - 1], []) == [];
      assert RunGroup([], k - 1, p, h) == p;
      NoRegistrationsNoChange(k - 1, p, h);
    }
  }

  /** One callback invocation of the pass: the index it was given and the
      edit it ran. */
  datatype Invocation = Invocation(index: nat, edit: Edit)

  function Tag(es: seq<Edit>, i: nat): (r: seq<Invocation>)
    ensures |r| == |es| && forall n :: 0 <= n < |r| ==> r[n] == Invocation(i, es[n])
  {
    if |es| == 0 then [] else [Invocation(i, es[0])] + Tag(es[1..], i)
  }

  /** The edits run at index `i`, in the order they ran. */
  function EditsRunAt(calls: seq<Invocation>, i: nat): seq<Edit> {
    if |calls| == 0 then []
    else (if calls[0].index == i then [calls[0].edit] else []) + EditsRunAt(calls[1..], i)
  }

  lemma {:induction false} EditsRunAtAppend(a: seq<Invocation>, b: seq<Invocation>, i: nat)
    ensures EditsRunAt(a + b, i) == EditsRunAt(a, i) + EditsRunAt(b, i)
  {
    if |a| > 0 {
      assert (a + b)[1..] == a[1..] + b;
      EditsRunAtAppend(a[1..], b, i);
    } else {
      assert a + b == b;
    }
  }

  lemma {:induction false} EditsRunAtTag(es: seq<Edit>, i: nat, j: nat)
    ensures EditsRunAt(Tag(es, i), j) == if i == j then es else []
  {
    if |es| > 0 {
      EditsRunAtTag(es[1..], i, j);
      assert Tag(es, i)[1..] == Tag(es[1..], i);
    }
  }

  /** The tokens below the cursor `k` are the original ones, and the one at
      `k - 1` (read next) is the original or was built by an edit. */
  predicate BelowCursorUntouched(t0: seq<Token>, k: nat, tokens: seq<Token>) {
    && k <= |tokens| && k <= |t0|
    && (forall m :: 0 <= m < k - 1 ==> tokens[m] == t0[m])
    && (k >= 1 ==> tokens[k - 1] == t0[k - 1] || tokens[k - 1].pos == None)
  }

  /** Running the edits at `k` keeps the cursor property one step down. */
  lemma CursorStep(t0: seq<Token>, k: nat, p: Patched, es: seq<Edit>, h: TokenHelpers)
    requires BelowCursorUntouched(t0, k + 1, p.tokens)
    ensures BelowCursorUntouched(t0, k, RunGroup(es, k, p, h).tokens)
  {
  }

  /** The invocations of a pass that has visited indices `k..n - 1`, from
      the top down, having run the edits `ran[i]` at index `i`. */
  function TraceAbove(ran: seq<seq<Edit>>, k: nat, n: nat): seq<Invocation>
    requires k <= n <= |ran|
    decreases n - k
  {
    if k == n then [] else TraceAbove(ran, k + 1, n) + Tag(ran[k], k)
  }

  /** The trace of indices `k..n - 1` only depends on what ran there. */
  lemma {:induction false} TraceAboveFrame(ran: seq<seq<Edit>>, other: seq<seq<Edit>>, k: nat, n: nat)
    requires k <= n <= |ran| && |other| == |ran|
    requires forall i :: k <= i < n ==> ran[i] == other[i]
    ensures TraceAbove(ran, k, n) == TraceAbove(other, k, n)
    decreases n - k
  {
    if k < n {
      TraceAboveFrame(ran, other, k + 1, n);
    }
  }

  predicate Descending(calls: seq<Invocation>) {
    forall a, b :: 0 <= a < b < |calls| ==> calls[b].index <= calls[a].index
  }

  lemma TagMembers(es: seq<Edit>, i: nat)
    ensures forall c :: c in Tag(es, i) ==> c.index == i && c.edit in es
  {
    var tag := Tag(es, i);
    forall c | c in tag
      ensures c.index == i && c.edit in es
    {
      var n :| 0 <= n < |tag| && tag[n] == c;
    }
  }

  /** Every invocation of the trace goes to an index in `k..n - 1` and runs
      one of the edits that ran there. */
  predicate RanThere(calls: seq<Invocation>, ran: seq<seq<Edit>>, k: nat, n: nat)
    requires n <= |ran|
  {
    forall c :: c in calls ==> k <= c.index < n && c.edit in ran[c.index]
  }

  /** A descending trace above `k` followed by the invocations of `k`. */
  lemma DescendingAppend(rest: seq<Invocation>, ran: seq<seq<Edit>>, k: nat, n: nat)
    requires k < n <= |ran| && RanThere(rest, ran, k + 1, n) && Descending(rest)
    ensures RanThere(rest + Tag(ran[k], k), ran, k, n) && Descending(rest + Tag(ran[k], k))
  {
    var tag := Tag(ran[k], k);
    var calls := rest + tag;
    TagMembers(ran[k], k);
    forall a, b | 0 <= a < b < |calls|
      ensures calls[b].index <= calls[a].index
    {
      if a < |rest| {
        assert calls[a] == rest[a];
        if b < |rest| {
          assert calls[b] == rest[b];
        } else {
          assert calls[b] == tag[b - |rest|];
        }
      } else {
        assert calls[a] == tag[a - |rest|] && calls[b] == tag[b - |rest|];
      }
    }
  }

  /** The pass walks the indices downwards: every invocation is in the
      visited range, runs an edit that ran there, and none goes to a
      higher index than the one before. */
  lemma {:induction false} TraceAboveDescends(ran: seq<seq<Edit>>, k: nat, n: nat)
    requires k <= n <= |ran|
    ensures RanThere(TraceAbove(ran, k, n), ran, k, n) && Descending(TraceAbove(ran, k, n))
    decreases n - k
  {
    if k < n {
      TraceAboveDescends(ran, k + 1, n);
      DescendingAppend(TraceAbove(ran, k + 1, n), ran, k, n);
    }
  }

  /** At a visited index exactly the edits that ran there appear, in the
      order they ran; at any other index nothing does. */
  lemma {:induction false} TraceAboveEdits(ran: seq<seq<Edit>>, k: nat, n: nat, i: nat)
    requires k <= n <= |ran|
    ensures EditsRunAt(TraceAbove(ran, k, n), i) == if k <= i < n then ran[i] else []
    decreases n - k
  {
    if k < n {
      TraceAboveEdits(ran, k + 1, n, i);
      EditsRunAtAppend(TraceAbove(ran, k + 1, n), Tag(ran[k], k), i);
      EditsRunAtTag(ran[k], k, i);
    }
  }

  /** The token read at each visited index is the original one or one an
      edit built (which has no offset). */
  predicate ReadOriginalOrBuilt(t0: seq<Token>, visited: seq<Token>, k: nat) {
    |visited| == |t0| && forall i :: k <= i < |t0| ==> visited[i] == t0[i] || visited[i].pos == None
  }

  /** Every invocation runs an edit registered at the offset of the
      original token at its index, and never at an empty token. */
  predicate Registered(t0: seq<Token>, regs: seq<Registration>, calls: seq<Invocation>) {
    forall c :: c in calls ==>
      && c.index < |t0| && t0[c.index].src != "" && t0[c.index].pos.Some?
      && Registration(t0[c.index].pos.value, c.edit) in regs
  }

  /** What ran at each index is what is registered at the token read
      there. */
  predicate RanRegistered(ran: seq<seq<Edit>>, visited: seq<Token>, regs: seq<Registration>, k: nat)
    requires |ran| == |visited|
  {
    forall i :: k <= i < |ran| ==> ran[i] == Group(visited[i], regs)
  }

  lemma CallsRegistered(t0: seq<Token>, visited: seq<Token>, ran: seq<seq<Edit>>, regs: seq<Registration>,
                        calls: seq<Invocation>)
    requires ReadOriginalOrBuilt(t0, visited, 0) && |ran| == |t0|
    requires RanRegistered(ran, visited, regs, 0) && RanThere(calls, ran, 0, |t0|)
    ensures Registered(t0, regs, calls)
  {
    forall c | c in calls
      ensures t0[c.index].src != "" && t0[c.index].pos.Some?
              && Registration(t0[c.index].pos.value, c.edit) in regs
    {
      var tok := visited[c.index];
      assert c.edit in Group(tok, regs);
      assert tok == t0[c.index];
    }
  }

  /** The inner loop of the pass: every callback of the token's offset, in turn. */
  method RunGroupInPlace(es: seq<Edit>, i: nat, t: seq<Token>, pend: set<string>, h: TokenHelpers)
    returns (tokens: seq<Token>, pending: set<string>)
    requires i <= |t|
    ensures Patched(tokens, pending) == RunGroup(es, i, Patched(t, pend), h)
  {
    tokens, pending := t, pend;
    var n := 0;
    while n < |es|
      invariant 0 <= n <= |es| && i <= |tokens|
      invariant RunGroup(es[n..], i, Patched(tokens, pending), h) == RunGroup(es, i, Patched(t, pend), h)
      decreases |es| - n
    {
      var q := ApplyEdit(es[n], i, Patched(tokens, pending), h);
      assert es[n..][1..] == es[n + 1..];
      tokens, pending := q.tokens, q.pending;
      n := n + 1;
    }
    assert es[n..] == [];
  }

  /** One step of the reverse pass. */
  lemma PatchStep(k: nat, p: Patched, regs: seq<Registration>, h: TokenHelpers)
    requires k < |p.tokens|
    ensures PatchFrom(k + 1, p, regs, h) == PatchFrom(k, RunGroup(Group(p.tokens[k], regs), k, p, h), regs, h)
  {
  }

  /** Visiting index `k` extends the trace by what ran there. */
  lemma TraceStep(ran: seq<seq<Edit>>, k: nat, n: nat, es: seq<Edit>)
    requires k < n <= |ran|
    ensures TraceAbove(ran[k := es], k, n) == TraceAbove(ran, k + 1, n) + Tag(es, k)
  {
    TraceAboveFrame(ran, ran[k := es], k + 1, n);
  }

  /** Reading `tok` at index `k` keeps the record of what was read and
      what ran one step down. */
  lemma RecordStep(t0: seq<Token>, visited: seq<Token>, ran: seq<seq<Edit>>, regs: seq<Registration>, k: nat,
                   tok: Token)
    requires k < |t0| && |ran| == |t0| && (tok == t0[k] || tok.pos == None)
    requires ReadOriginalOrBuilt(t0, visited, k + 1) && RanRegistered(ran, visited, regs, k + 1)
    ensures ReadOriginalOrBuilt(t0, visited[k := tok], k)
    ensures RanRegistered(ran[k := Group(tok, regs)], visited[k := tok], regs, k)
  {
  }

  /** The loop of `_fix_plugins` over the indices from last to first: the
      index range is fixed when the loop starts and the token is read from
      the live list at each index. Besides the patched list and the pending
      imports it returns the token read at each index and the invocations
      in the order they happened. The token read is the original one or
      one an edit built (which has no offset, so nothing runs there);
      invocations go to non-increasing indices, each runs an edit
      registered at the original token's offset and never at an empty
      token, and at each index exactly the edits registered at the read
      token's offset run, in registration order; the result is
      `PatchFrom`. */
  method PatchPass(t0: seq<Token>, regs: seq<Registration>, h: TokenHelpers)
    returns (tokens: seq<Token>, pending: set<string>, visited: seq<Token>, calls: seq<Invocation>)
    ensures Patched(tokens, pending) == PatchFrom(|t0|, Patched(t0, {}), regs, h)
    ensures ReadOriginalOrBuilt(t0, visited, 0)
    ensures Descending(calls) && Registered(t0, regs, calls)
    ensures forall i :: 0 <= i < |t0| ==> EditsRunAt(calls, i) == Group(visited[i], regs)
  {
    var init := Patched(t0, {});
    tokens, pending, visited, calls := t0, {}, t0, [];
    ghost var ran: seq<seq<Edit>> := seq(|t0|, i => []);
    var k: nat := |t0|;
    while k > 0
      invariant BelowCursorUntouched(t0, k, tokens)
      invariant ReadOriginalOrBuilt(t0, visited, k)
      invariant |ran| == |t0| && RanRegistered(ran, visited, regs, k)
      invariant calls == TraceAbove(ran, k, |t0|)
      invariant PatchFrom(k, Patched(tokens, pending), regs, h) == PatchFrom(|t0|, init, regs, h)
      decreases k
    {
      k := k - 1;
      var tok := tokens[k];
      assert tok == t0[k] || tok.pos == None;
      RecordStep(t0, visited, ran, regs, k, tok);
      var es := Group(tok, regs);
      CursorStep(t0, k, Patched(tokens, pending), es, h);
      PatchStep(k, Patched(tokens, pending), regs, h);
      TraceStep(ran, k, |t0|, es);
      tokens, pending := RunGroupInPlace(es, k, tokens, pending, h);
      visited := visited[k := tok];
      ran := ran[k := es];
      calls := calls + Tag(es, k);
    }
    TraceAboveDescends(ran, 0, |t0|);
    forall i | 0 <= i < |t0|
      ensures EditsRunAt(calls, i) == Group(visited[i], regs)
    {
      TraceAboveEdits(ran, 0, |t0|, i);
    }
    CallsRegistered(t0, visited, ran, regs, calls);
  }

  // ----- the result text -----

  /** The line `_fix_plugins` prepends: the pending names in ascending
      order, comma separated. */
  function AbcImportLine(names: set<string>): string {
    "from collections.abc import " + Join(SortedSet(names), ", ") + "\n"
  }

  /** What goes in front of the token text: the import line, or nothing
      when no name is pending. */
  function ImportPrefix(pending: set<string>): string {
    if pending == {} then "" else AbcImportLine(pending)
  }

  /** The token text with its leading whitespace stripped, with the import line in front when
      any ABC import is pending. */
  function Serialize(p: Patched): string {
    ImportPrefix(p.pending) + LStrip(Concat(p.tokens))
  }

  /** `text[d..]` is `text` without exactly its leading whitespace. */
  predicate LeadingSpaceEndsAt(text: string, d: nat) {
    d <= |text| && AllSpace(text[..d]) && (d == |text| || !IsSpace(text[d]))
  }

  /** Where the leading whitespace of `text` ends. */
  function LeadingSpace(text: string): (d: nat)
    ensures LeadingSpaceEndsAt(text, d)
    ensures text[d..] == LStrip(text)
  {
    LStripSpec(text);
    var d := |text| - |LStrip(text)|;
    assert d < |text| ==> text[d] == LStrip(text)[0];
    d
  }

  /** The result is the patched text minus exactly its leading whitespace,
      behind an import line exactly when some name is pending. */
  lemma {:induction false} SerializeShape(p: Patched)
    ensures exists d: nat :: LeadingSpaceEndsAt(Concat(p.tokens), d)
              && Serialize(p) == ImportPrefix(p.pending) + Concat(p.tokens)[d..]
    ensures Serialize(p) == ImportPrefix(p.pending) + Concat(p.tokens)[LeadingSpace(Concat(p.tokens))..]
  {
    var text := Concat(p.tokens);
    LStripSpec(text);
    var d := |text| - |LStrip(text)|;
    var line := ImportPrefix(p.pending);
    assert LStrip(text) == text[d..];
    if d < |text| {
      assert text[d] == LStrip(text)[0];
    }
    assert LeadingSpaceEndsAt(text, d);
    assert Serialize(p) == line + text[d..];
  }

  /** Two collapsed attributes, `collections.Sized` and
      `collections.Mapping`, give one line naming both in ascending order. */
  lemma ImportLineIsSorted()
    ensures AbcImportLine({"Sized", "Mapping"}) == "from collections.abc import " + "Mapping, Sized" + "\n"
  {
    var r := SortedSet({"Sized", "Mapping"});
    assert StrLt("Mapping", "Sized");
    assert "Mapping" in r && "Sized" in r;
    assert r == ["Mapping", "Sized"];
    assert r[1..] == ["Sized"];
  }

  /** `src_to_tokens`, which is not part of this model: a parameter that
      either fails (TokenError) or keeps its promise. */
  type Tokenizer = f: string -> Option<seq<Token>>
    | forall s: string :: f(s).Some? ==> Tokenization(s, f(s).value)
    witness (s: string) => None

  /** The fixed-up token list of a text that tokenizes: it spells the
      same text. */
  function FixedTokens(text: string, tokenize: Tokenizer): (fixed: seq<Token>)
    requires tokenize(text).Some?
    ensures Concat(fixed) == text
  {
    FixupOnTokenization(text, tokenize(text).value);
    FixupDedentTokens(tokenize(text).value).value
  }

  /** The pass `_fix_plugins` runs when the file parses and tokenizes: the
      walk's registrations applied to the fixed-up tokens, nothing pending
      at the start. */
  function MainPass(text: string, nodes: seq<Node>, tokenize: Tokenizer, st: State, h: TokenHelpers): (p: Patched)
    requires tokenize(text).Some?
    ensures p.pending <= Requested(Dispatch.Visit(nodes, st))
    ensures p.pending <= CollectionsAbc.AbcNames - ImportedFrom(st, "collections.abc")
  {
    var fixed := FixedTokens(text, tokenize);
    PatchFrom(|fixed|, Patched(fixed, {}), Dispatch.Visit(nodes, st), h)
  }

  /** What `_fix_plugins` returns, and what it leaves in the module-level
      pending set. */
  datatype FixResult = FixResult(text: string, pending: set<string>)

  /** `_fix_plugins`. `tree` is the parse (`None` for a SyntaxError),
      `stale` the pending set a previous file left behind; it is cleared
      first, so the result does not depend on it. The text comes back
      unchanged when the source does not parse, nothing is registered or
      it does not tokenize; otherwise the pass runs on the fixed-up token
      list (which spells the same text) and the result is serialized. Only
      ABC names the file does not import from collections.abc yet can be
      pending, and only names some attribute registration of this file
      asked to import. On the main path the text is the patched tokens'
      text without its leading whitespace, behind the import line exactly
      when a name is pending. */
  function FixPlugins(stale: set<string>, text: string, tree: Option<seq<Node>>, tokenize: Tokenizer,
                      st: State, h: TokenHelpers): (r: FixResult)
    ensures tree == None ==> r == FixResult(text, {})
    ensures tree.Some? && Dispatch.Visit(tree.value, st) == [] ==> r == FixResult(text, {})
    ensures tokenize(text) == None ==> r == FixResult(text, {})
    ensures r.pending <= CollectionsAbc.AbcNames - ImportedFrom(st, "collections.abc")
    ensures tree.Some? ==> r.pending <= Requested(Dispatch.Visit(tree.value, st))
  {
    var pending: set<string> := {};
    if tree == None then FixResult(text, pending)
    else
      var regs := Dispatch.Visit(tree.value, st);
      if regs == [] then FixResult(text, pending)
      else
        match tokenize(text)
        case None => FixResult(text, pending)
        case Some(_) =>
          var p := MainPass(text, tree.value, tokenize, st, h);
          FixResult(Serialize(p), p.pending)
  }

  /** On its main path, where the file parses, something is registered and
      it tokenizes, `_fix_plugins` returns the patched tokens' text without
      its leading whitespace, behind the import line exactly when a name
      is pending, and leaves the pass's pending names. */
  lemma FixPluginsMainPath(stale: set<string>, text: string, tree: Option<seq<Node>>, tokenize: Tokenizer,
                           st: State, h: TokenHelpers)
    requires tree.Some? && Dispatch.Visit(tree.value, st) != [] && tokenize(text).Some?
    ensures FixPlugins(stale, text, tree, tokenize, st, h).pending == MainPass(text, tree.value, tokenize, st, h).pending
    ensures FixPlugins(stale, text, tree, tokenize, st, h).text
            == ImportPrefix(MainPass(text, tree.value, tokenize, st, h).pending)
               + Concat(MainPass(text, tree.value, tokenize, st, h).tokens)
                   [LeadingSpace(Concat(MainPass(text, tree.value, tokenize, st, h).tokens))..]
  {
    var p := MainPass(text, tree.value, tokenize, st, h);
    assert FixPlugins(stale, text, tree, tokenize, st, h) == FixResult(Serialize(p), p.pending);
    SerializeShape(p);
  }

  /** The injected import depends only on the current file: two runs that
      differ only in what an earlier file left pending agree. */
  lemma PendingIsolation(a: set<string>, b: set<string>, text: string, tree: Option<seq<Node>>,
                         tokenize: Tokenizer, st: State, h: TokenHelpers)
    ensures FixPlugins(a, text, tree, tokenize, st, h) == FixPlugins(b, text, tree, tokenize, st, h)
  {
  }
}
