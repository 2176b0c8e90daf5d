/** The lossless token stream the rewriter patches (tokenize_rt's `Token`),
    `tokens_to_src`, and the two token-list primitives every edit is built
    from: "first token at or after `i` whose text is `s`" and "replace the
    range `[a, b)` by one token". */
module Tokens {
  import opened Basics

  /** The token names the rewriter looks at; the rest are `OtherKind`. */
  datatype Kind =
    | Name | Op | Number | Str | Newline | Nl | Comment
    | Indent | Dedent | UnimportantWs | EndMarker
    | Code       // a token built by an edit
    | OtherKind

  /** tokenize_rt's `Offset(line, utf8_byte_offset)`; AST node starts map to these. */
  datatype Offset = Offset(line: int, col: int)

  /** A token. `pos` is `None` for tokens an edit builds from scratch
      (a CODE token built from text alone has neither line nor byte offset). */
  datatype Token = Token(name: Kind, src: string, pos: Option<Offset>)

  /** A token made by an edit: it has no source offset. */
  function Synthetic(text: string): (t: Token)
    ensures t.name == Code && t.src == text && t.pos == None
  {
    Token(Code, text, None)
  }

  /** `tokens_to_src`: the concatenation of the token texts. */
  function Concat(ts: seq<Token>): string {
    if |ts| == 0 then "" else Concat(ts[..|ts| - 1]) + ts[|ts| - 1].src
  }

  lemma {:induction false} ConcatAppend(a: seq<Token>, b: seq<Token>)
    ensures Concat(a + b) == Concat(a) + Concat(b)
    decreases |b|
  {
    if |b| == 0 {
      assert a + b == a;
    } else {
      assert (a + b)[..|a + b| - 1] == a + b[..|b| - 1];
      assert (a + b)[|a + b| - 1] == b[|b| - 1];
      ConcatAppend(a, b[..|b| - 1]);
      var x, y, z := Concat(a), Concat(b[..|b| - 1]), b[|b| - 1].src;
      assert (x + y) + z == x + (y + z);
    }
  }

  /** `find_end(tokens, i)` from `_token_helpers.py`, which is not part of
      this model: only its bounds are assumed, the end of the statement
      starting at `i` lies between `i` and the end of the list. */
  type EndFinder = f: (seq<Token>, nat) -> nat
    | forall ts: seq<Token>, i: nat :: i <= |ts| ==> i <= f(ts, i) <= |ts|
    witness (ts: seq<Token>, i: nat) => if i <= |ts| then |ts| else i

  /** `has_space_before(i, tokens)` from `_token_helpers.py`: only assumed
      to hold at an index that has a token before it. */
  type SpaceTest = f: (seq<Token>, nat) -> bool
    | forall ts: seq<Token>, i: nat :: f(ts, i) ==> 1 <= i <= |ts|
    witness (ts: seq<Token>, i: nat) => false

  datatype TokenHelpers = TokenHelpers(findEnd: EndFinder, hasSpaceBefore: SpaceTest)

  /** The first index at or after `i` whose token text is `s`, or `|ts|`
      when there is none (the forward scan by token text
      scan the plugins share). */
  function FindSrc(ts: seq<Token>, i: nat, s: string): (j: nat)
    requires i <= |ts|
    ensures i <= j <= |ts|
    ensures forall m :: i <= m < j ==> ts[m].src != s
    ensures j < |ts| ==> ts[j].src == s
    decreases |ts| - i
  {
    if i == |ts| || ts[i].src == s then i else FindSrc(ts, i + 1, s)
  }

  /** Give the first token at or after `i` whose text is `from` the text
      `to`, keeping its kind and offset; no-op when there is none. */
  function ReplaceFirst(ts: seq<Token>, i: nat, from: string, to: string): (r: seq<Token>)
    requires i <= |ts|
    ensures |r| == |ts|
    ensures var j := FindSrc(ts, i, from);
      && (forall m :: 0 <= m < |ts| && m != j ==> r[m] == ts[m])
      && (j < |ts| ==> r[j] == ts[j].(src := to))
  {
    var j := FindSrc(ts, i, from);
    if j < |ts| then ts[j := ts[j].(src := to)] else ts
  }

  /** Replace the range `[a, b)` by the single token `tok`. */
  function Splice(ts: seq<Token>, a: nat, b: nat, tok: Token): (r: seq<Token>)
    requires a <= b <= |ts|
    ensures |r| == |ts| - (b - a) + 1
    ensures r[..a] == ts[..a] && r[a] == tok && r[a + 1..] == ts[b..]
  {
    ts[..a] + [tok] + ts[b..]
  }

  /** The text of a spliced list is the text around the range with the new
      token's text in its place. */
  lemma {:induction false} SpliceConcat(ts: seq<Token>, a: nat, b: nat, tok: Token)
    requires a <= b <= |ts|
    ensures Concat(Splice(ts, a, b, tok)) == Concat(ts[..a]) + tok.src + Concat(ts[b..])
  {
    var pre, post := ts[..a], ts[b..];
    assert Splice(ts, a, b, tok) == (pre + [tok]) + post;
    ConcatAppend(pre + [tok], post);
    ConcatAppend(pre, [tok]);
    assert [tok][..0] == [];
  }

  /** `SpliceConcat` for a list known to be the splice. */
  lemma SpliceText(r: seq<Token>, ts: seq<Token>, a: nat, b: nat, tok: Token)
    requires a <= b <= |ts| && r == Splice(ts, a, b, tok)
    ensures Concat(r) == Concat(ts[..a]) + tok.src + Concat(ts[b..])
  {
    SpliceConcat(ts, a, b, tok);
  }

  /** Cutting a list in three cuts its text in three. */
  lemma {:induction false} ConcatSplit(ts: seq<Token>, a: nat, b: nat)
    requires a <= b <= |ts|
    ensures Concat(ts) == Concat(ts[..a]) + Concat(ts[a..b]) + Concat(ts[b..])
  {
    var p, m, q := ts[..a], ts[a..b], ts[b..];
    assert p + m == ts[..b];
    assert ts[..b] + q == ts;
    ConcatAppend(ts[..b], q);
    ConcatAppend(p, m);
  }

  lemma ConcatSingle(t: Token)
    ensures Concat([t]) == t.src
  {
    assert [t][..0] == [];
  }

  /** Renaming the first `from` token replaces exactly that occurrence of
      `from` in the text by `to`. */
  lemma {:induction false} ReplaceFirstText(ts: seq<Token>, i: nat, from: string, to: string)
    requires i <= |ts| && FindSrc(ts, i, from) < |ts|
    ensures var j := FindSrc(ts, i, from);
      && Concat(ts) == Concat(ts[..j]) + from + Concat(ts[j + 1..])
      && Concat(ReplaceFirst(ts, i, from, to)) == Concat(ts[..j]) + to + Concat(ts[j + 1..])
  {
    var j := FindSrc(ts, i, from);
    var tok := ts[j].(src := to);
    ConcatSplit(ts, j, j + 1);
    assert ts[j..j + 1] == [ts[j]];
    ConcatSingle(ts[j]);
    assert ReplaceFirst(ts, i, from, to) == Splice(ts, j, j + 1, tok);
    SpliceConcat(ts, j, j + 1, tok);
  }

  /** The text of a range is its first token's text, then the rest's. */
  lemma {:induction false} ConcatRangeFirst(ts: seq<Token>, a: nat, b: nat)
    requires a < b <= |ts|
    ensures Concat(ts[a..b]) == ts[a].src + Concat(ts[a + 1..b])
  {
    var r := ts[a..b];
    assert r == [ts[a]] + ts[a + 1..b];
    ConcatAppend([ts[a]], ts[a + 1..b]);
    ConcatSingle(ts[a]);
  }

  /** The text of a range is the rest's text, then its last token's. */
  lemma {:induction false} ConcatRangeLast(ts: seq<Token>, a: nat, b: nat)
    requires a <= b < |ts|
    ensures Concat(ts[a..b + 1]) == Concat(ts[a..b]) + ts[b].src
  {
    assert ts[a..b + 1][..b - a] == ts[a..b];
  }

  /** The text of a list around two of its tokens. */
  lemma {:induction false} ConcatAround(ts: seq<Token>, j: nat, e: nat)
    requires j < e < |ts|
    ensures Concat(ts) == Concat(ts[..j]) + ts[j].src + Concat(ts[j + 1..e]) + ts[e].src + Concat(ts[e + 1..])
  {
    ConcatSplit(ts, j, e + 1);
    ConcatRangeFirst(ts, j, e + 1);
    ConcatRangeLast(ts, j + 1, e);
    assert Concat(ts[j..e + 1]) == ts[j].src + (Concat(ts[j + 1..e]) + ts[e].src);
    StringAssoc(Concat(ts[..j]), ts[j].src, Concat(ts[j + 1..e]), ts[e].src, Concat(ts[e + 1..]));
  }

  lemma StringAssoc(a: string, x: string, b: string, y: string, c: string)
    ensures a + (x + (b + y)) + c == a + x + b + y + c
  {
  }
}
