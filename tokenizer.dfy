/** lib/core/parser.js, lines 8-58: tokens, the token list and `tokenize`. */
module Tokenizer {
  import opened Results
  import opened Utils
  import opened Constants

  // ------------------------------------------------------------------ tokens

  /** What a `Token` holds at one moment: the index of its marker in the text, its type, and the flank
      labels pushed after the type (the private `#type` array is `[type, ...flanks]`). */
  datatype TokenValue = TokenValue(index: nat, kind: Kind, flanks: seq<Flank>) {
    /** The getter `leftFlanked`. */
    predicate LeftFlanked() {
      Left in flanks
    }

    /** The getter `rightFlanked`. */
    predicate RightFlanked() {
      Right in flanks
    }
  }

  /** The order of the token list on values: by index. */
  function ValueIndex(t: TokenValue): int {
    t.index
  }

  /** What `new Token(index, type, flank)` holds: the empty label (`''`, a falsy flank) is not pushed. */
  function NewValue(index: nat, kind: Kind, flank: Flank): (t: TokenValue)
    ensures t.index == index && t.kind == kind
    ensures t.LeftFlanked() <==> flank == Left
    ensures t.RightFlanked() <==> flank == Right
  {
    TokenValue(index, kind, if flank == NoFlank then [] else [flank])
  }

  /** `Token`: the index and the type never change; the `flank` setter grows the label list in place. */
  class Token {
    const index: nat
    const kind: Kind
    var flanks: seq<Flank>

    constructor (index: nat, kind: Kind, flank: Flank)
      ensures Value() == NewValue(index, kind, flank)
    {
      this.index := index;
      this.kind := kind;
      flanks := if flank == NoFlank then [] else [flank];
    }

    /** The token's current contents. */
    function Value(): TokenValue
      reads this
    {
      TokenValue(index, kind, flanks)
    }

    predicate LeftFlanked()
      reads this
    {
      Value().LeftFlanked()
    }

    predicate RightFlanked()
      reads this
    {
      Value().RightFlanked()
    }

    /** The setter `flank`: pushes one more label. */
    method SetFlank(flank: Flank)
      modifies this
      ensures Value() == old(Value()).(flanks := old(flanks) + [flank])
    {
      flanks := flanks + [flank];
    }
  }

  /** The strategy of `createTokensList`: tokens are ordered by index. */
  function TokenIndex(t: Token): int {
    t.index
  }

  /** `createTokensList`: an empty sorted list ordered by index. */
  method CreateTokensList() returns (list: SortedList<Token>)
    ensures fresh(list) && list.key == TokenIndex && list.items == [] && list.Valid()
  {
    list := new SortedList(TokenIndex);
  }

  /** The contents of a sequence of tokens. */
  function Values(ts: seq<Token>): (r: seq<TokenValue>)
    reads ts
    ensures |r| == |ts|
    decreases |ts|
  {
    if ts == [] then [] else [ts[0].Value()] + Values(ts[1..])
  }

  /** Each entry of the contents is the contents of the token at that position. */
  lemma {:induction false} ValuesAt(ts: seq<Token>)
    ensures forall i :: 0 <= i < |ts| ==> Values(ts)[i] == ts[i].Value()
    decreases |ts|
  {
    if ts != [] {
      ValuesAt(ts[1..]);
    }
  }

  lemma ValuesAppend(a: seq<Token>, b: seq<Token>)
    ensures Values(a + b) == Values(a) + Values(b)
  {
    ValuesAt(a + b);
    ValuesAt(a);
    ValuesAt(b);
    assert forall i :: 0 <= i < |a + b| ==> Values(a + b)[i] == (Values(a) + Values(b))[i];
  }

  /** Inserting a token object into a list and inserting its contents into the list's contents agree. */
  lemma {:induction false} ValuesInsert(ts: seq<Token>, t: Token)
    ensures Values(Insert(ts, t, TokenIndex)) == Insert(Values(ts), t.Value(), ValueIndex)
    decreases |ts|
  {
    if ts == [] {
    } else if t.index < ts[0].index {
      ValuesAppend([t], ts);
    } else {
      ValuesInsert(ts[1..], t);
      ValuesAppend([ts[0]], Insert(ts[1..], t, TokenIndex));
      assert Values(ts)[1..] == Values(ts[1..]);
    }
  }

  /** Strict order by index is the same on the objects and on their contents. */
  lemma ValuesStrictlySorted(ts: seq<Token>)
    ensures StrictlySorted(ts, TokenIndex) <==> StrictlySorted(Values(ts), ValueIndex)
  {
    ValuesAt(ts);
  }

  /** Two positions of a list strictly sorted by index hold different objects. */
  lemma StrictlySortedDistinct(ts: seq<Token>)
    requires StrictlySorted(ts, TokenIndex)
    ensures forall i, j :: 0 <= i < |ts| && 0 <= j < |ts| && i != j ==> ts[i] != ts[j]
  {
    forall i, j | 0 <= i < |ts| && 0 <= j < |ts| && i != j ensures ts[i] != ts[j] {
      if i < j { assert TokenIndex(ts[i]) < TokenIndex(ts[j]); }
      else { assert TokenIndex(ts[j]) < TokenIndex(ts[i]); }
    }
  }

  // ---------------------------------------------------------------- tokenize

  /** `new RegExp(rx, 'gmu')` for the pattern of `kind` run under `flank`, on the text `s`: the
      positions where it matches, lookarounds included. */
  function Rx(s: string, kind: Kind, flank: Flank): nat -> bool {
    (p: nat) => PatternAt(kind, flank, s, p)
  }

  /** `rx.exec(src)` of a `g` regex with `lastIndex` at `from`, on a text of length `n`: the first
      matching position at or after `from`, or `null`. */
  function Exec(rx: nat -> bool, n: nat, from: nat): (r: Option<nat>)
    ensures r.Some? ==> from <= r.value < n && rx(r.value)
    decreases n - from
  {
    if n <= from then None
    else if rx(from) then Some(from)
    else Exec(rx, n, from + 1)
  }

  /** `exec` returns the first match at or after `lastIndex`, and `null` exactly when there is none. */
  lemma {:induction false} ExecFirst(rx: nat -> bool, n: nat, from: nat)
    ensures Exec(rx, n, from).Some? ==> forall p :: from <= p < Exec(rx, n, from).value ==> !rx(p)
    ensures Exec(rx, n, from).None? <==> forall p :: from <= p < n ==> !rx(p)
    decreases n - from
  {
    if from < n && !rx(from) {
      ExecFirst(rx, n, from + 1);
    }
  }

  /** The positions the `while` loop over `exec` visits from `lastIndex == from` on, for markers of
      width `w`: after a hit at `p`, `lastIndex` moves on to `p + w`, so hits never overlap. */
  function Hits(rx: nat -> bool, n: nat, w: nat, from: nat): (r: seq<nat>)
    requires 0 < w
    ensures forall j :: 0 <= j < |r| ==> from <= r[j] < n && rx(r[j])
    decreases n - from
  {
    match Exec(rx, n, from)
    case None => []
    case Some(p) => [p] + Hits(rx, n, w, p + w)
  }

  /** Each position at least `w` past the one before. */
  ghost predicate Spaced(r: seq<nat>, w: nat) {
    forall j, k :: 0 <= j < k < |r| ==> r[j] + w <= r[k]
  }

  /** Hits come in ascending order, each at least a marker's width past the one before: like
      `exec` with the `g` flag, the scan never returns overlapping matches. */
  lemma {:induction false} HitsSpaced(rx: nat -> bool, n: nat, w: nat, from: nat)
    requires 0 < w
    ensures Spaced(Hits(rx, n, w, from), w)
    decreases n - from
  {
    var r := Hits(rx, n, w, from);
    if r != [] {
      var p := Exec(rx, n, from).value;
      var rest := Hits(rx, n, w, p + w);
      HitsSpaced(rx, n, w, p + w);
      assert r == [p] + rest;
      forall j, k | 0 <= j < k < |r| ensures r[j] + w <= r[k] {
        assert r[k] == rest[k - 1];
        if j == 0 {
          assert r[0] == p && p + w <= rest[k - 1];
        } else {
          assert r[j] == rest[j - 1];
          assert 0 <= j - 1 < k - 1 < |rest|;
          assert rest[j - 1] + w <= rest[k - 1];
        }
      }
    }
  }

  /** No matching position is skipped unless the marker of the hit just before it covers it. */
  lemma {:induction false} HitsComplete(rx: nat -> bool, n: nat, w: nat, from: nat, q: nat)
    requires 0 < w && from <= q < n && rx(q)
    ensures var r := Hits(rx, n, w, from);
      q in r || exists j :: 0 <= j < |r| && r[j] < q < r[j] + w
    decreases n - from
  {
    ExecFirst(rx, n, from);
    var p := Exec(rx, n, from).value;
    var r := Hits(rx, n, w, from);
    assert r[0] == p;
    if q >= p + w {
      HitsComplete(rx, n, w, p + w, q);
      var rest := Hits(rx, n, w, p + w);
      assert r[1..] == rest;
      if q !in rest {
        var j :| 0 <= j < |rest| && rest[j] < q < rest[j] + w;
        assert r[j + 1] == rest[j];
      }
    } else if q != p {
      assert r[0] < q < r[0] + w;
    }
  }

  /** The hits of the pattern of `kind` under `flank` in the whole of `s`. */
  function Matches(s: string, kind: Kind, flank: Flank): seq<nat> {
    Hits(Rx(s, kind, flank), |s|, |Marking(kind)|, 0)
  }

  /** The body of the `while` loop of `match` on the list contents: a hit at an index that already
      has a token adds the label to it (`token.flank = flank`); otherwise a new token is inserted in
      index order. */
  function Record(items: seq<TokenValue>, index: nat, kind: Kind, flank: Flank): seq<TokenValue> {
    match Find(items, (t: TokenValue) => t.index == index, 0)
    case Found(t, at) => items[at := t.(flanks := t.flanks + [flank])]
    case NotFound => Insert(items, NewValue(index, kind, flank), ValueIndex)
  }

  lemma RecordFound(items: seq<TokenValue>, index: nat, kind: Kind, flank: Flank, at: nat)
    requires at < |items| && items[at].index == index
    requires forall i :: 0 <= i < at ==> items[i].index != index
    ensures Record(items, index, kind, flank) == items[at := items[at].(flanks := items[at].flanks + [flank])]
  {
    var found := Find(items, (t: TokenValue) => t.index == index, 0);
    assert found.Found?;
  }

  /** A hit at an index no token has inserts a new token. */
  lemma RecordNotFound(items: seq<TokenValue>, index: nat, kind: Kind, flank: Flank)
    requires forall i :: 0 <= i < |items| ==> items[i].index != index
    ensures Record(items, index, kind, flank) == Insert(items, NewValue(index, kind, flank), ValueIndex)
  {
  }

  /** The whole `while` loop: every hit recorded in turn. */
  function RecordAll(items: seq<TokenValue>, hits: seq<nat>, kind: Kind, flank: Flank): seq<TokenValue>
    decreases |hits|
  {
    if hits == [] then items else RecordAll(Record(items, hits[0], kind, flank), hits[1..], kind, flank)
  }

  /** When `exec` finds nothing more, the loop records nothing more. */
  lemma MatchDone(items: seq<TokenValue>, rx: nat -> bool, n: nat, w: nat, from: nat, kind: Kind, flank: Flank)
    requires 0 < w && Exec(rx, n, from).None?
    ensures RecordAll(items, Hits(rx, n, w, from), kind, flank) == items
  {
  }

  /** One turn of the `exec` loop: the first hit `p` is recorded and the scan goes on from `p + w`,
      leaving the outcome of the whole loop as it was. */
  lemma MatchStep(before: seq<TokenValue>, after: seq<TokenValue>, rx: nat -> bool, n: nat, w: nat, from: nat, next: nat,
                  kind: Kind, flank: Flank, goal: seq<TokenValue>)
    requires 0 < w && Exec(rx, n, from).Some? && next == Exec(rx, n, from).value + w
    requires after == Record(before, Exec(rx, n, from).value, kind, flank)
    requires RecordAll(before, Hits(rx, n, w, from), kind, flank) == goal
    ensures RecordAll(after, Hits(rx, n, w, next), kind, flank) == goal
  {
  }

  /** What the patterns hit in a text: for each type and label, the positions `match` visits. */
  type Scan = (Kind, Flank) -> seq<nat>

  /** The hits of every pattern, under every label, in the whole of `s`. */
  function Scans(s: string): Scan {
    (kind: Kind, flank: Flank) => Matches(s, kind, flank)
  }

  /** The inner loop of `tokenize`: one pattern run under each of its labels in turn, each run
      recording the hits `scan` gives for it. */
  function MatchFlanks(items: seq<TokenValue>, scan: Scan, kind: Kind, flanks: seq<Flank>): seq<TokenValue>
    decreases |flanks|
  {
    if flanks == [] then items
    else
      var n := |flanks| - 1;
      RecordAll(MatchFlanks(items, scan, kind, flanks[..n]), scan(kind, flanks[n]), kind, flanks[n])
  }

  /** The outer loop of `tokenize`: the patterns `pats`, in order, on an initially empty list. */
  function MatchPatterns(scan: Scan, pats: seq<Pattern>): seq<TokenValue>
    decreases |pats|
  {
    if pats == [] then []
    else
      var n := |pats| - 1;
      MatchFlanks(MatchPatterns(scan, pats[..n]), scan, pats[n].kind, PatternFlanks(pats[n]))
  }

  /** `tokenize(src)` on values. */
  function Tokens(s: string): seq<TokenValue> {
    MatchPatterns(Scans(s), Patterns)
  }

  /** Contents that agree with `before` everywhere but at `at` are `before` updated at `at`. */
  lemma ValuesAfterUpdate(ts: seq<Token>, at: nat, before: seq<TokenValue>)
    requires at < |ts| == |before|
    requires forall i :: 0 <= i < |ts| && i != at ==> ts[i].Value() == before[i]
    ensures Values(ts) == before[at := ts[at].Value()]
  {
    ValuesAt(ts);
  }

  /** `token.flank = flank` on the token `tokens.find` returned. */
  method AddFlank(tokens: SortedList<Token>, found: Found<Token>, index: nat, kind: Kind, flank: Flank)
    requires tokens.key == TokenIndex && StrictlySorted(tokens.items, TokenIndex)
    requires found == Find(tokens.items, (t: Token) => t.index == index, 0) && found.Found?
    modifies set t | t in tokens.items
    ensures tokens.items == old(tokens.items)
    ensures Values(tokens.items) == Record(old(Values(tokens.items)), index, kind, flank)
  {
    ghost var before := Values(tokens.items);
    ghost var objects := tokens.items;
    ValuesAt(objects);
    assert found.item in tokens.items;
    assert forall i :: 0 <= i < |objects| && i != found.at ==> objects[i] != found.item by {
      StrictlySortedDistinct(objects);
    }
    found.item.SetFlank(flank);
    ValuesAfterUpdate(objects, found.at, before);
    RecordFound(before, index, kind, flank, found.at);
  }

  /** What pushing a token with a new index does to a strictly ordered list of tokens. */
  lemma PushedToken(objects: seq<Token>, token: Token, index: nat, kind: Kind, flank: Flank)
    requires StrictlySorted(objects, TokenIndex)
    requires Find(objects, (t: Token) => t.index == index, 0).NotFound?
    requires token.Value() == NewValue(index, kind, flank)
    ensures var r := InsertAll(objects, [token], TokenIndex);
      && StrictlySorted(r, TokenIndex)
      && (forall t :: t in r ==> t in objects || t == token)
      && Values(r) == Record(Values(objects), index, kind, flank)
  {
    var r := Insert(objects, token, TokenIndex);
    assert InsertAll(objects, [token], TokenIndex) == r;
    assert forall i :: 0 <= i < |objects| ==> objects[i].index != index;
    InsertStrictlySorted(objects, token, TokenIndex);
    InsertMultiset(objects, token, TokenIndex);
    forall t | t in r ensures t in objects || t == token {
      assert t in multiset(r);
    }
    ValuesInsert(objects, token);
    ValuesAt(objects);
    RecordNotFound(Values(objects), index, kind, flank);
  }

  /** `tokens.push(new Token(index, type, flank))` when no token has the index. */
  method PushToken(tokens: SortedList<Token>, index: nat, kind: Kind, flank: Flank)
    requires tokens.key == TokenIndex && StrictlySorted(tokens.items, TokenIndex)
    requires Find(tokens.items, (t: Token) => t.index == index, 0).NotFound?
    modifies tokens
    ensures tokens.key == TokenIndex && StrictlySorted(tokens.items, TokenIndex)
    ensures forall t :: t in tokens.items ==> t in old(tokens.items) || fresh(t)
    ensures Values(tokens.items) == Record(old(Values(tokens.items)), index, kind, flank)
  {
    ghost var objects := tokens.items;
    var token := new Token(index, kind, flank);
    var _ := tokens.Push([token]);
    PushedToken(objects, token, index, kind, flank);
  }

  /** The body of the `while` loop of `match`: the token at `index` gets the label, or a new token
      is pushed. */
  method RecordHit(tokens: SortedList<Token>, index: nat, kind: Kind, flank: Flank)
    requires tokens.key == TokenIndex && StrictlySorted(tokens.items, TokenIndex)
    modifies tokens, set t | t in tokens.items
    ensures tokens.key == TokenIndex && StrictlySorted(tokens.items, TokenIndex)
    ensures forall t :: t in tokens.items ==> t in old(tokens.items) || fresh(t)
    ensures Values(tokens.items) == Record(old(Values(tokens.items)), index, kind, flank)
  {
    var found := Find(tokens.items, (t: Token) => t.index == index, 0);
    if found.Found? {
      AddFlank(tokens, found, index, kind, flank);
    } else {
      PushToken(tokens, index, kind, flank);
    }
  }

  /** `match(tokens, src, rx, type, flank)`: the `exec` loop over the text, recording every hit in
      the shared list. */
  method Match(tokens: SortedList<Token>, src: string, rx: nat -> bool, kind: Kind, flank: Flank)
    requires tokens.key == TokenIndex && StrictlySorted(tokens.items, TokenIndex)
    modifies tokens, set t | t in tokens.items
    ensures tokens.key == TokenIndex && StrictlySorted(tokens.items, TokenIndex)
    ensures forall t :: t in tokens.items ==> t in old(tokens.items) || fresh(t)
    ensures Values(tokens.items) == RecordAll(old(Values(tokens.items)), Hits(rx, |src|, |Marking(kind)|, 0), kind, flank)
  {
    var w := |Marking(kind)|;
    var lastIndex: nat := 0;
    ghost var goal := RecordAll(Values(tokens.items), Hits(rx, |src|, w, 0), kind, flank);
    while true
      invariant tokens.key == TokenIndex && StrictlySorted(tokens.items, TokenIndex)
      invariant forall t :: t in tokens.items ==> t in old(tokens.items) || fresh(t)
      invariant RecordAll(Values(tokens.items), Hits(rx, |src|, w, lastIndex), kind, flank) == goal
      decreases |src| - lastIndex
    {
      var m := Exec(rx, |src|, lastIndex);
      if m.None? {
        MatchDone(Values(tokens.items), rx, |src|, w, lastIndex, kind, flank);
        break;
      }
      var index := m.value;
      ghost var before := Values(tokens.items);
      RecordHit(tokens, index, kind, flank);
      var next := index + w;
      MatchStep(before, Values(tokens.items), rx, |src|, w, lastIndex, next, kind, flank, goal);
      lastIndex := next;
    }
  }

  /** One turn of `tokenize`: the pattern matched under each of its labels, in order. */
  method MatchPattern(tokens: SortedList<Token>, src: string, pattern: Pattern)
    requires tokens.key == TokenIndex && StrictlySorted(tokens.items, TokenIndex)
    modifies tokens, set t | t in tokens.items
    ensures tokens.key == TokenIndex && StrictlySorted(tokens.items, TokenIndex)
    ensures forall t :: t in tokens.items ==> t in old(tokens.items) || fresh(t)
    ensures Values(tokens.items) == MatchFlanks(old(Values(tokens.items)), Scans(src), pattern.kind, PatternFlanks(pattern))
  {
    var flanks := PatternFlanks(pattern);
    for j := 0 to |flanks|
      invariant tokens.key == TokenIndex && StrictlySorted(tokens.items, TokenIndex)
      invariant forall t :: t in tokens.items ==> t in old(tokens.items) || fresh(t)
      invariant Values(tokens.items) == MatchFlanks(old(Values(tokens.items)), Scans(src), pattern.kind, flanks[..j])
    {
      Match(tokens, src, Rx(src, pattern.kind, flanks[j]), pattern.kind, flanks[j]);
      MatchFlanksNext(old(Values(tokens.items)), src, pattern.kind, flanks, j);
    }
    assert flanks[..|flanks|] == flanks;
  }

  /** One more label of a pattern run on what the labels before it left. */
  lemma MatchFlanksNext(items: seq<TokenValue>, src: string, kind: Kind, flanks: seq<Flank>, j: nat)
    requires j < |flanks|
    ensures MatchFlanks(items, Scans(src), kind, flanks[..j + 1])
      == RecordAll(MatchFlanks(items, Scans(src), kind, flanks[..j]), Hits(Rx(src, kind, flanks[j]), |src|, |Marking(kind)|, 0), kind, flanks[j])
  {
    assert flanks[..j + 1][..j] == flanks[..j];
  }

  /** `tokenize(src)`: every pattern, under each of its labels, matched into one new list. */
  method Tokenize(src: string) returns (tokens: SortedList<Token>)
    ensures fresh(tokens) && tokens.key == TokenIndex && StrictlySorted(tokens.items, TokenIndex)
    ensures forall t :: t in tokens.items ==> fresh(t)
    ensures Values(tokens.items) == Tokens(src)
  {
    tokens := CreateTokensList();
    for i := 0 to |Patterns|
      invariant fresh(tokens) && tokens.key == TokenIndex && StrictlySorted(tokens.items, TokenIndex)
      invariant forall t :: t in tokens.items ==> fresh(t)
      invariant Values(tokens.items) == MatchPatterns(Scans(src), Patterns[..i])
    {
      MatchPattern(tokens, src, Patterns[i]);
      MatchPatternsNext(Scans(src), i);
    }
    assert Patterns[..|Patterns|] == Patterns;
  }

  // ------------------------------------------------------- tokenize: proofs

  /** No position is hit by the patterns of two different types. */
  ghost predicate Exclusive(scan: Scan) {
    forall k1, f1, k2, f2, p :: p in scan(k1, f1) && p in scan(k2, f2) ==> k1 == k2
  }

  /** Token `t` sits where some label of its kind hit, and every label it carries hit there. */
  ghost predicate Visited(scan: Scan, t: TokenValue) {
    && (exists f: Flank :: t.index in scan(t.kind, f))
    && (forall f :: f in t.flanks ==> t.index in scan(t.kind, f))
  }

  /** The invariant of the token list during `tokenize`: strictly ordered by index (so at most one
      token per index), and every token visited. */
  ghost predicate WellFormed(scan: Scan, items: seq<TokenValue>) {
    && StrictlySorted(items, ValueIndex)
    && (forall i :: 0 <= i < |items| ==> Visited(scan, items[i]))
  }

  /** A hit of the pattern of `kind` under `flank` is a position where that pattern matches. */
  lemma MatchesMatch(s: string, kind: Kind, flank: Flank, p: nat)
    requires p in Matches(s, kind, flank)
    ensures PatternAt(kind, flank, s, p)
  {
    var r := Matches(s, kind, flank);
    var j :| 0 <= j < |r| && r[j] == p;
    assert Rx(s, kind, flank)(r[j]);
  }

  /** Two patterns hitting the same position of a text belong to the same type. */
  lemma ScansExclusive(s: string)
    ensures Exclusive(Scans(s))
  {
    forall k1, f1, k2, f2, p | p in Scans(s)(k1, f1) && p in Scans(s)(k2, f2) ensures k1 == k2 {
      MatchesMatch(s, k1, f1, p);
      MatchesMatch(s, k2, f2, p);
      PatternsExclusive(k1, f1, k2, f2, s, p);
    }
  }

  /** Replacing a token by one at the same index keeps the list in order. */
  lemma ReplaceSorted(items: seq<TokenValue>, at: nat, v: TokenValue)
    requires at < |items| && v.index == items[at].index && StrictlySorted(items, ValueIndex)
    ensures StrictlySorted(items[at := v], ValueIndex)
  {
    var r := items[at := v];
    assert forall i :: 0 <= i < |r| ==> ValueIndex(r[i]) == ValueIndex(items[i]);
  }

  /** A further hit at an index already holding a token only adds a label to that token. */
  lemma RecordFoundWellFormed(scan: Scan, items: seq<TokenValue>, p: nat, kind: Kind, flank: Flank, at: nat)
    requires Exclusive(scan) && WellFormed(scan, items) && p in scan(kind, flank)
    requires at < |items| && Find(items, (t: TokenValue) => t.index == p, 0) == Found(items[at], at)
    ensures WellFormed(scan, Record(items, p, kind, flank))
  {
    var t := items[at];
    var v := t.(flanks := t.flanks + [flank]);
    assert Visited(scan, v) by {
      var f0 :| t.index in scan(t.kind, f0);
    }
    ReplaceSorted(items, at, v);
    var r := items[at := v];
    forall i | 0 <= i < |r| ensures Visited(scan, r[i]) {
      if i != at {
        assert r[i] == items[i];
      }
    }
  }

  /** A hit at a fresh index adds a new visited token, in order. */
  lemma RecordNotFoundWellFormed(scan: Scan, items: seq<TokenValue>, p: nat, kind: Kind, flank: Flank)
    requires WellFormed(scan, items) && p in scan(kind, flank)
    requires Find(items, (t: TokenValue) => t.index == p, 0) == NotFound
    ensures WellFormed(scan, Record(items, p, kind, flank))
  {
    var v := NewValue(p, kind, flank);
    var r := Insert(items, v, ValueIndex);
    InsertStrictlySorted(items, v, ValueIndex);
    InsertMultiset(items, v, ValueIndex);
    assert Visited(scan, v);
    forall i | 0 <= i < |r| ensures Visited(scan, r[i]) {
      assert r[i] in multiset(r);
    }
  }

  lemma RecordWellFormed(scan: Scan, items: seq<TokenValue>, p: nat, kind: Kind, flank: Flank)
    requires Exclusive(scan) && WellFormed(scan, items) && p in scan(kind, flank)
    ensures WellFormed(scan, Record(items, p, kind, flank))
  {
    match Find(items, (t: TokenValue) => t.index == p, 0)
    case Found(_, at) => RecordFoundWellFormed(scan, items, p, kind, flank, at);
    case NotFound => RecordNotFoundWellFormed(scan, items, p, kind, flank);
  }

  lemma {:induction false} RecordAllWellFormed(scan: Scan, items: seq<TokenValue>, hits: seq<nat>, kind: Kind, flank: Flank)
    requires Exclusive(scan) && WellFormed(scan, items)
    requires forall j :: 0 <= j < |hits| ==> hits[j] in scan(kind, flank)
    ensures WellFormed(scan, RecordAll(items, hits, kind, flank))
    decreases |hits|
  {
    if hits != [] {
      RecordWellFormed(scan, items, hits[0], kind, flank);
      RecordAllWellFormed(scan, Record(items, hits[0], kind, flank), hits[1..], kind, flank);
    }
  }

  lemma {:induction false} MatchFlanksWellFormed(scan: Scan, items: seq<TokenValue>, kind: Kind, flanks: seq<Flank>)
    requires Exclusive(scan) && WellFormed(scan, items)
    ensures WellFormed(scan, MatchFlanks(items, scan, kind, flanks))
    decreases |flanks|
  {
    if flanks != [] {
      var n := |flanks| - 1;
      MatchFlanksWellFormed(scan, items, kind, flanks[..n]);
      var hits := scan(kind, flanks[n]);
      assert forall j :: 0 <= j < |hits| ==> hits[j] in hits;
      RecordAllWellFormed(scan, MatchFlanks(items, scan, kind, flanks[..n]), hits, kind, flanks[n]);
    }
  }

  lemma {:induction false} MatchPatternsWellFormed(scan: Scan, pats: seq<Pattern>)
    requires Exclusive(scan)
    ensures WellFormed(scan, MatchPatterns(scan, pats))
    decreases |pats|
  {
    if pats != [] {
      var n := |pats| - 1;
      MatchPatternsWellFormed(scan, pats[..n]);
      MatchFlanksWellFormed(scan, MatchPatterns(scan, pats[..n]), pats[n].kind, PatternFlanks(pats[n]));
    }
  }

  /** `tokenize` yields tokens in strictly ascending index, so at most one per index. */
  lemma TokensSorted(s: string)
    ensures StrictlySorted(Tokens(s), ValueIndex)
  {
    ScansExclusive(s);
    MatchPatternsWellFormed(Scans(s), Patterns);
  }

  /** In a list strictly ordered by index, an index determines the position. */
  lemma SameIndexSamePosition(items: seq<TokenValue>, i: nat, k: nat)
    requires StrictlySorted(items, ValueIndex) && i < |items| && k < |items| && items[i].index == items[k].index
    ensures i == k
  {
  }

  /** The pattern of `t`'s type, under some label, hits at `t`'s index. */
  ghost predicate HitSomewhere(s: string, t: TokenValue) {
    exists f :: t.index in Matches(s, t.kind, f)
  }

  /** Each token's type is that of a pattern hit at its index, and each of its labels is one under
      which its pattern matched there. */
  lemma TokensSound(s: string)
    ensures forall i :: 0 <= i < |Tokens(s)| ==> HitSomewhere(s, Tokens(s)[i])
    ensures forall i, f :: 0 <= i < |Tokens(s)| && f in Tokens(s)[i].flanks ==>
      PatternAt(Tokens(s)[i].kind, f, s, Tokens(s)[i].index)
  {
    ScansExclusive(s);
    MatchPatternsWellFormed(Scans(s), Patterns);
    var ts := Tokens(s);
    forall i | 0 <= i < |ts| ensures HitSomewhere(s, ts[i]) {
      assert Visited(Scans(s), ts[i]);
      var f :| ts[i].index in Scans(s)(ts[i].kind, f);
      assert ts[i].index in Matches(s, ts[i].kind, f);
    }
    forall i, f | 0 <= i < |ts| && f in ts[i].flanks ensures PatternAt(ts[i].kind, f, s, ts[i].index) {
      assert Visited(Scans(s), ts[i]);
      assert ts[i].index in Scans(s)(ts[i].kind, f);
      MatchesMatch(s, ts[i].kind, f, ts[i].index);
    }
  }

  /** Some token of the list stands for a hit of the pattern of `kind` under `flank` at `p`. */
  ghost predicate Covered(items: seq<TokenValue>, kind: Kind, flank: Flank, p: nat) {
    exists i :: 0 <= i < |items| && items[i].index == p && items[i].kind == kind
      && (flank != NoFlank ==> flank in items[i].flanks)
  }

  /** Recording one hit never loses a token or a label. */
  lemma RecordKeeps(items: seq<TokenValue>, p: nat, kind: Kind, flank: Flank, k: Kind, f: Flank, q: nat)
    requires Covered(items, k, f, q)
    ensures Covered(Record(items, p, kind, flank), k, f, q)
  {
    var i :| 0 <= i < |items| && items[i].index == q && items[i].kind == k && (f != NoFlank ==> f in items[i].flanks);
    var r := Record(items, p, kind, flank);
    match Find(items, (t: TokenValue) => t.index == p, 0)
    case Found(t, at) =>
      assert r[i].index == q && r[i].kind == k && (f != NoFlank ==> f in r[i].flanks);
    case NotFound =>
      InsertMultiset(items, NewValue(p, kind, flank), ValueIndex);
      assert items[i] in multiset(r);
      var j :| 0 <= j < |r| && r[j] == items[i];
  }

  /** The hit just recorded is covered. */
  lemma RecordCovers(scan: Scan, items: seq<TokenValue>, p: nat, kind: Kind, flank: Flank)
    requires Exclusive(scan) && WellFormed(scan, items) && p in scan(kind, flank)
    ensures Covered(Record(items, p, kind, flank), kind, flank, p)
  {
    var r := Record(items, p, kind, flank);
    match Find(items, (t: TokenValue) => t.index == p, 0)
    case Found(t, at) =>
      var f0 :| t.index in scan(t.kind, f0);
      assert r[at].index == p && r[at].kind == kind && flank in r[at].flanks;
    case NotFound =>
      var v := NewValue(p, kind, flank);
      InsertMultiset(items, v, ValueIndex);
      assert v in multiset(r);
      var j :| 0 <= j < |r| && r[j] == v;
  }

  lemma {:induction false} RecordAllKeeps(items: seq<TokenValue>, hits: seq<nat>, kind: Kind, flank: Flank, k: Kind, f: Flank, q: nat)
    requires Covered(items, k, f, q)
    ensures Covered(RecordAll(items, hits, kind, flank), k, f, q)
    decreases |hits|
  {
    if hits != [] {
      RecordKeeps(items, hits[0], kind, flank, k, f, q);
      RecordAllKeeps(Record(items, hits[0], kind, flank), hits[1..], kind, flank, k, f, q);
    }
  }

  lemma {:induction false} RecordAllCovers(scan: Scan, items: seq<TokenValue>, hits: seq<nat>, kind: Kind, flank: Flank, j: nat)
    requires Exclusive(scan) && WellFormed(scan, items)
    requires forall h :: 0 <= h < |hits| ==> hits[h] in scan(kind, flank)
    requires j < |hits|
    ensures Covered(RecordAll(items, hits, kind, flank), kind, flank, hits[j])
    decreases |hits|
  {
    var next := Record(items, hits[0], kind, flank);
    assert RecordAll(items, hits, kind, flank) == RecordAll(next, hits[1..], kind, flank);
    if j == 0 {
      RecordCovers(scan, items, hits[0], kind, flank);
      RecordAllKeeps(next, hits[1..], kind, flank, kind, flank, hits[0]);
    } else {
      RecordWellFormed(scan, items, hits[0], kind, flank);
      assert hits[1..][j - 1] == hits[j];
      RecordAllCovers(scan, next, hits[1..], kind, flank, j - 1);
    }
  }

  lemma {:induction false} MatchFlanksKeeps(items: seq<TokenValue>, scan: Scan, kind: Kind, flanks: seq<Flank>, k: Kind, f: Flank, q: nat)
    requires Covered(items, k, f, q)
    ensures Covered(MatchFlanks(items, scan, kind, flanks), k, f, q)
    decreases |flanks|
  {
    if flanks != [] {
      var n := |flanks| - 1;
      MatchFlanksKeeps(items, scan, kind, flanks[..n], k, f, q);
      RecordAllKeeps(MatchFlanks(items, scan, kind, flanks[..n]), scan(kind, flanks[n]), kind, flanks[n], k, f, q);
    }
  }

  lemma {:induction false} MatchFlanksCovers(scan: Scan, items: seq<TokenValue>, kind: Kind, flanks: seq<Flank>, j: nat, q: nat)
    requires Exclusive(scan) && WellFormed(scan, items) && j < |flanks| && q in scan(kind, flanks[j])
    ensures Covered(MatchFlanks(items, scan, kind, flanks), kind, flanks[j], q)
    decreases |flanks|
  {
    var n := |flanks| - 1;
    var before := MatchFlanks(items, scan, kind, flanks[..n]);
    var hits := scan(kind, flanks[n]);
    if j == n {
      MatchFlanksWellFormed(scan, items, kind, flanks[..n]);
      var h :| 0 <= h < |hits| && hits[h] == q;
      assert forall h :: 0 <= h < |hits| ==> hits[h] in hits;
      RecordAllCovers(scan, before, hits, kind, flanks[n], h);
    } else {
      MatchFlanksCovers(scan, items, kind, flanks[..n], j, q);
      RecordAllKeeps(before, hits, kind, flanks[n], kind, flanks[j], q);
    }
  }

  lemma {:induction false} MatchPatternsCovers(scan: Scan, pats: seq<Pattern>, i: nat, j: nat, q: nat)
    requires Exclusive(scan)
    requires i < |pats| && j < |PatternFlanks(pats[i])| && q in scan(pats[i].kind, PatternFlanks(pats[i])[j])
    ensures Covered(MatchPatterns(scan, pats), pats[i].kind, PatternFlanks(pats[i])[j], q)
    decreases |pats|
  {
    var n := |pats| - 1;
    var before := MatchPatterns(scan, pats[..n]);
    if i == n {
      MatchPatternsWellFormed(scan, pats[..n]);
      MatchFlanksCovers(scan, before, pats[n].kind, PatternFlanks(pats[n]), j, q);
    } else {
      MatchPatternsCovers(scan, pats[..n], i, j, q);
      MatchFlanksKeeps(before, scan, pats[n].kind, PatternFlanks(pats[n]), pats[i].kind, PatternFlanks(pats[i])[j], q);
    }
  }

  /** The labels the pattern of `kind` is run under. */
  function Labels(kind: Kind): (r: seq<Flank>)
    ensures IsDelimiter(kind) ==> r == [Left, Right]
    ensures !IsDelimiter(kind) ==> r == [NoFlank]
  {
    PatternFlanks(Patterns[PatternOf(kind)])
  }

  /** Where the pattern of `kind` sits in `PATTERNS`. */
  function PatternOf(kind: Kind): (i: nat)
    ensures i < |Patterns| && Patterns[i].kind == kind
  {
    match kind
    case Bold => 0
    case Italic => 1
    case Monospaced => 2
    case Preformatted => 3
    case Paragraph => 4
  }

  /** `tokenize` misses no hit: wherever the scan of the pattern of `kind` under one of its labels
      stops, there is a token of that kind, carrying that label. */
  lemma TokensComplete(s: string, kind: Kind, flank: Flank, p: nat)
    requires flank in Labels(kind) && p in Matches(s, kind, flank)
    ensures Covered(Tokens(s), kind, flank, p)
  {
    var labels := Labels(kind);
    var j :| 0 <= j < |labels| && labels[j] == flank;
    assert PatternFlanks(Patterns[PatternOf(kind)])[j] == flank;
    assert p in Scans(s)(kind, flank);
    ScansExclusive(s);
    MatchPatternsCovers(Scans(s), Patterns, PatternOf(kind), j, p);
  }

  /** So a delimiter token carries exactly the labels under which its pattern was hit at its index. */
  lemma TokenLabelsExact(s: string, i: nat, flank: Flank)
    requires i < |Tokens(s)| && IsDelimiter(Tokens(s)[i].kind) && flank != NoFlank
    ensures flank in Tokens(s)[i].flanks <==> Tokens(s)[i].index in Matches(s, Tokens(s)[i].kind, flank)
  {
    var ts := Tokens(s);
    if ts[i].index in Matches(s, ts[i].kind, flank) {
      TokenHasLabel(s, i, flank);
    } else {
      assert flank !in ts[i].flanks by {
        ScansExclusive(s);
        MatchPatternsWellFormed(Scans(s), Patterns);
        assert Visited(Scans(s), ts[i]);
        assert !(ts[i].index in Scans(s)(ts[i].kind, flank));
      }
    }
  }

  /** A label under which the pattern of a delimiter token hit at its index is one the token carries. */
  lemma TokenHasLabel(s: string, i: nat, flank: Flank)
    requires i < |Tokens(s)| && IsDelimiter(Tokens(s)[i].kind) && flank != NoFlank
    requires Tokens(s)[i].index in Matches(s, Tokens(s)[i].kind, flank)
    ensures flank in Tokens(s)[i].flanks
  {
    var ts := Tokens(s);
    assert flank in Labels(ts[i].kind);
    TokensComplete(s, ts[i].kind, flank, ts[i].index);
    var k :| 0 <= k < |ts| && ts[k].index == ts[i].index && ts[k].kind == ts[i].kind && flank in ts[k].flanks;
    TokensSorted(s);
    SameIndexSamePosition(ts, i, k);
  }

  // ------------------------------------------------------- tokenize: examples

  /** No match from `from` on: no hits. */
  lemma HitsNone(rx: nat -> bool, n: nat, w: nat, from: nat)
    requires 0 < w && forall p :: from <= p < n ==> !rx(p)
    ensures Hits(rx, n, w, from) == []
  {
    ExecFirst(rx, n, from);
  }

  /** The first match from `from` on is the first hit; the rest are the hits past its marker. */
  lemma HitsFirst(rx: nat -> bool, n: nat, w: nat, from: nat, p: nat)
    requires 0 < w && from <= p < n && rx(p) && forall q :: from <= q < p ==> !rx(q)
    ensures Hits(rx, n, w, from) == [p] + Hits(rx, n, w, p + w)
  {
    ExecFirst(rx, n, from);
  }

  /** The two-label run of a delimiter pattern: left first, then right. */
  lemma MatchFlanksDelimiter(items: seq<TokenValue>, scan: Scan, kind: Kind)
    ensures MatchFlanks(items, scan, kind, [Left, Right])
      == RecordAll(RecordAll(items, scan(kind, Left), kind, Left), scan(kind, Right), kind, Right)
  {
    assert [Left, Right][..1] == [Left];
    assert [Left][..0] == [];
  }

  /** The one-label run of a block pattern. */
  lemma MatchFlanksBlock(items: seq<TokenValue>, scan: Scan, kind: Kind)
    ensures MatchFlanks(items, scan, kind, [NoFlank]) == RecordAll(items, scan(kind, NoFlank), kind, NoFlank)
  {
    assert [NoFlank][..0] == [];
  }

  /** One more pattern of `PATTERNS` run on what the ones before it left. */
  lemma MatchPatternsNext(scan: Scan, k: nat)
    requires k < |Patterns|
    ensures MatchPatterns(scan, Patterns[..k + 1])
      == MatchFlanks(MatchPatterns(scan, Patterns[..k]), scan, Patterns[k].kind, PatternFlanks(Patterns[k]))
  {
    assert Patterns[..k + 1][..k] == Patterns[..k];
  }

  /** `tokenize` spelled out: the hits of the eight (pattern, label) runs recorded in `PATTERNS`
      order. */
  lemma TokensUnfold(s: string)
    ensures Tokens(s) ==
      var b := RecordAll(RecordAll([], Matches(s, Bold, Left), Bold, Left), Matches(s, Bold, Right), Bold, Right);
      var i := RecordAll(RecordAll(b, Matches(s, Italic, Left), Italic, Left), Matches(s, Italic, Right), Italic, Right);
      var m := RecordAll(RecordAll(i, Matches(s, Monospaced, Left), Monospaced, Left), Matches(s, Monospaced, Right), Monospaced, Right);
      var f := RecordAll(m, Matches(s, Preformatted, NoFlank), Preformatted, NoFlank);
      RecordAll(f, Matches(s, Paragraph, NoFlank), Paragraph, NoFlank)
  {
    PatternsUnfold(Scans(s));
  }

  /** The outer loop over `PATTERNS` spelled out for any source of hits. */
  lemma PatternsUnfold(scan: Scan)
    ensures MatchPatterns(scan, Patterns) ==
      var b := RecordAll(RecordAll([], scan(Bold, Left), Bold, Left), scan(Bold, Right), Bold, Right);
      var i := RecordAll(RecordAll(b, scan(Italic, Left), Italic, Left), scan(Italic, Right), Italic, Right);
      var m := RecordAll(RecordAll(i, scan(Monospaced, Left), Monospaced, Left), scan(Monospaced, Right), Monospaced, Right);
      var f := RecordAll(m, scan(Preformatted, NoFlank), Preformatted, NoFlank);
      RecordAll(f, scan(Paragraph, NoFlank), Paragraph, NoFlank)
  {
    assert Patterns[..0] == [];
    MatchPatternsNext(scan, 0);
    MatchFlanksDelimiter([], scan, Bold);
    var b := MatchPatterns(scan, Patterns[..1]);
    MatchPatternsNext(scan, 1);
    MatchFlanksDelimiter(b, scan, Italic);
    var i := MatchPatterns(scan, Patterns[..2]);
    MatchPatternsNext(scan, 2);
    MatchFlanksDelimiter(i, scan, Monospaced);
    var m := MatchPatterns(scan, Patterns[..3]);
    MatchPatternsNext(scan, 3);
    MatchFlanksBlock(m, scan, Preformatted);
    var f := MatchPatterns(scan, Patterns[..4]);
    MatchPatternsNext(scan, 4);
    MatchFlanksBlock(f, scan, Paragraph);
    assert Patterns[..5] == Patterns;
  }

  /** A pattern whose marker occurs nowhere is never hit. */
  lemma AbsentMarker(kind: Kind, flank: Flank, s: string)
    requires forall p :: 0 <= p < |s| ==> !MarkerAt(kind, s, p)
    ensures Matches(s, kind, flank) == []
  {
    ExecFirst(Rx(s, kind, flank), |s|, 0);
  }

  /** The empty text has no tokens. */
  lemma TokensEmpty()
    ensures Tokens("") == []
  {
    forall k, f ensures Matches("", k, f) == [] { AbsentMarker(k, f, ""); }
    TokensUnfold("");
  }

  /** `tokenize('**bold')` is one left-flanked bold token at 0. */
  lemma TokensExample(s: string)
    requires s == "**bold"
    ensures Tokens(s) == [TokenValue(0, Bold, [Left])]
  {
    MarkersOnlyAt(s, 0);
    forall k, f ensures k != Bold ==> Matches(s, k, f) == [] { if k != Bold { AbsentMarker(k, f, s); } }
    HitsFirst(Rx(s, Bold, Left), |s|, 2, 0, 0);
    HitsNone(Rx(s, Bold, Left), |s|, 2, 2);
    HitsNone(Rx(s, Bold, Right), |s|, 2, 0);
    TokensUnfold(s);
  }

  /** The texts of the two examples hold one marker, a bold one, at `at`. */
  lemma MarkersOnlyAt(s: string, at: nat)
    requires (s == "**bold" && at == 0) || (s == "left.**.right" && at == 5)
    ensures forall k, p :: 0 <= p < |s| && (k != Bold || p != at) ==> !MarkerAt(k, s, p)
  {
    forall k, p | 0 <= p < |s| && (k != Bold || p != at) ensures !MarkerAt(k, s, p) {
      MarkerAtMarking(k, s, p);
    }
  }

  /** The hits on `left.**.right`: the bold marker at 5, under both labels, and nothing else. */
  lemma BothExampleMatches(s: string)
    requires s == "left.**.right"
    ensures Matches(s, Bold, Left) == [5] && Matches(s, Bold, Right) == [5]
    ensures forall k, f :: k != Bold ==> Matches(s, k, f) == []
  {
    MarkersOnlyAt(s, 5);
    forall k, f ensures k != Bold ==> Matches(s, k, f) == [] { if k != Bold { AbsentMarker(k, f, s); } }
    BothExampleHit(s, Left);
    BothExampleHit(s, Right);
  }

  /** On `left.**.right` the bold pattern hits at 5 under either label, and nowhere else. */
  lemma BothExampleHit(s: string, f: Flank)
    requires s == "left.**.right" && f != NoFlank
    ensures Matches(s, Bold, f) == [5]
  {
    MarkersOnlyAt(s, 5);
    HitsFirst(Rx(s, Bold, f), |s|, 2, 0, 5);
    HitsNone(Rx(s, Bold, f), |s|, 2, 7);
  }

  /** `tokenize('left.**.right')`: a marker flanked both ways is one token carrying both labels. */
  lemma TokensBothExample(s: string)
    requires s == "left.**.right"
    ensures Tokens(s) == [TokenValue(5, Bold, [Left, Right])]
  {
    BothExampleMatches(s);
    TokensBoth(s, Bold, 5);
  }

  // --------------------------------------------------- tokenize: the test texts

  /** A pattern that hits nowhere in `s` has no matches. */
  lemma MatchesNone(s: string, kind: Kind, flank: Flank)
    requires forall p :: 0 <= p < |s| ==> !PatternAt(kind, flank, s, p)
    ensures Matches(s, kind, flank) == []
  {
    HitsNone(Rx(s, kind, flank), |s|, |Marking(kind)|, 0);
  }

  /** A pattern that hits at `p` and nowhere else matches once, at `p`. */
  lemma MatchesOne(s: string, kind: Kind, flank: Flank, p: nat)
    requires p < |s| && PatternAt(kind, flank, s, p)
    requires forall q :: 0 <= q < |s| && q != p ==> !PatternAt(kind, flank, s, q)
    ensures Matches(s, kind, flank) == [p]
  {
    var rx, w := Rx(s, kind, flank), |Marking(kind)|;
    HitsFirst(rx, |s|, w, 0, p);
    HitsNone(rx, |s|, w, p + w);
  }

  /** A pattern that hits at `p` and at `q`, at least a marker further on, and nowhere else matches
      twice. */
  lemma MatchesTwo(s: string, kind: Kind, flank: Flank, p: nat, q: nat)
    requires p + |Marking(kind)| <= q < |s| && PatternAt(kind, flank, s, p) && PatternAt(kind, flank, s, q)
    requires forall i :: 0 <= i < |s| && i != p && i != q ==> !PatternAt(kind, flank, s, i)
    ensures Matches(s, kind, flank) == [p, q]
  {
    HitsTwo(Rx(s, kind, flank), |s|, |Marking(kind)|, p, q);
  }

  /** Two matches, `w` or more apart, and nothing else: two hits. */
  lemma HitsTwo(rx: nat -> bool, n: nat, w: nat, p: nat, q: nat)
    requires 0 < w && p + w <= q < n && rx(p) && rx(q)
    requires forall i :: 0 <= i < n && i != p && i != q ==> !rx(i)
    ensures Hits(rx, n, w, 0) == [p, q]
  {
    HitsFirst(rx, n, w, 0, p);
    HitsFirst(rx, n, w, p + w, q);
    HitsNone(rx, n, w, q + w);
  }

  /** A text no pattern hits has no tokens. */
  lemma TokensNone(s: string)
    requires forall k, f :: Matches(s, k, f) == []
    ensures Tokens(s) == []
  {
    TokensUnfold(s);
  }

  /** A text that one pattern hits once, under one label, has that one token. */
  lemma TokensOne(s: string, kind: Kind, flank: Flank, p: nat)
    requires Matches(s, kind, flank) == [p]
    requires forall k, f :: (k, f) != (kind, flank) ==> Matches(s, k, f) == []
    ensures Tokens(s) == [NewValue(p, kind, flank)]
  {
    assert RecordAll([], [p], kind, flank) == [NewValue(p, kind, flank)];
    TokensUnfold(s);
  }

  /** A text a delimiter opens at `p` and closes at `q`, with nothing else, has the two tokens in
      that order. */
  lemma TokensPair(s: string, kind: Kind, p: nat, q: nat)
    requires p < q
    requires Matches(s, kind, Left) == [p] && Matches(s, kind, Right) == [q]
    requires forall k, f :: k != kind ==> Matches(s, k, f) == []
    ensures Tokens(s) == [NewValue(p, kind, Left), NewValue(q, kind, Right)]
  {
    var u, v := NewValue(p, kind, Left), NewValue(q, kind, Right);
    RecordNotFound([u], q, kind, Right);
    assert RecordAll(RecordAll([], [p], kind, Left), [q], kind, Right) == [u, v];
    TokensUnfold(s);
  }

  /** A text a delimiter hits at `p` under both labels, with nothing else, has one token carrying
      both. */
  lemma TokensBoth(s: string, kind: Kind, p: nat)
    requires Matches(s, kind, Left) == [p] && Matches(s, kind, Right) == [p]
    requires forall k, f :: k != kind ==> Matches(s, k, f) == []
    ensures Tokens(s) == [TokenValue(p, kind, [Left, Right])]
  {
    RecordFound([NewValue(p, kind, Left)], p, kind, Right, 0);
    assert [Left] + [Right] == [Left, Right];
    TokensUnfold(s);
  }

  /** A text a block pattern hits at `p` and at `q`, with nothing else, has the two tokens. */
  lemma TokensBlockPair(s: string, kind: Kind, p: nat, q: nat)
    requires kind == Preformatted || kind == Paragraph
    requires p < q
    requires Matches(s, kind, NoFlank) == [p, q]
    requires forall k, f :: k != kind ==> Matches(s, k, f) == []
    ensures Tokens(s) == [NewValue(p, kind, NoFlank), NewValue(q, kind, NoFlank)]
  {
    var u, v := NewValue(p, kind, NoFlank), NewValue(q, kind, NoFlank);
    RecordNotFound([u], q, kind, NoFlank);
    assert Record([], p, kind, NoFlank) == [u];
    assert Record([u], q, kind, NoFlank) == [u, v];
    assert [p, q][1..] == [q] && [q][1..] == [];
    assert RecordAll([u], [q], kind, NoFlank) == [u, v];
    assert RecordAll([], [p, q], kind, NoFlank) == [u, v];
    TokensUnfold(s);
  }

  /** `tokenize('____ snake_case ____')` gives no token: a run of underscores faces its own
      character, and the one in `snake_case` is inside a word. */
  lemma TokensNonItalicExample(s: string)
    requires s == "____ snake_case ____"
    ensures Tokens(s) == []
  {
    forall k, f | k != Italic ensures Matches(s, k, f) == [] { AbsentMarker(k, f, s); }
    forall f ensures Matches(s, Italic, f) == [] { MatchesNone(s, Italic, f); }
    TokensNone(s);
  }

  /** `tokenize('2 ** 2 = 4, 2**2=4')` gives no token: one marker is spaced on both sides, the other
      is between digits. */
  lemma TokensNonBoldExample(s: string)
    requires s == "2 ** 2 = 4, 2**2=4"
    ensures Tokens(s) == []
  {
    forall k, f | k != Bold ensures Matches(s, k, f) == [] { AbsentMarker(k, f, s); }
    forall f ensures Matches(s, Bold, f) == [] { MatchesNone(s, Bold, f); }
    TokensNone(s);
  }

  /** ``tokenize('`` Janne d`Arc ``')`` gives no token: each doubled backtick faces the other, and
      the one in `d`Arc` is inside a word. */
  lemma TokensNonMonospacedExample(s: string)
    requires s == "`` Janne d`Arc ``"
    ensures Tokens(s) == []
  {
    forall k, f | k != Monospaced ensures Matches(s, k, f) == [] { AbsentMarker(k, f, s); }
    forall f ensures Matches(s, Monospaced, f) == [] { MatchesNone(s, Monospaced, f); }
    TokensNone(s);
  }

  /** `tokenize('_italic')` is one left-flanked italic token at 0. */
  lemma TokensLeftItalicExample(s: string)
    requires s == "_italic"
    ensures Tokens(s) == [TokenValue(0, Italic, [Left])]
  {
    forall k, f | (k, f) != (Italic, Left) ensures Matches(s, k, f) == [] { MatchesNone(s, k, f); }
    MatchesOne(s, Italic, Left, 0);
    TokensOne(s, Italic, Left, 0);
  }

  /** `tokenize('italic_')` is one right-flanked italic token at 6. */
  lemma TokensRightItalicExample(s: string)
    requires s == "italic_"
    ensures Tokens(s) == [TokenValue(6, Italic, [Right])]
  {
    forall k, f | (k, f) != (Italic, Right) ensures Matches(s, k, f) == [] { MatchesNone(s, k, f); }
    MatchesOne(s, Italic, Right, 6);
    TokensOne(s, Italic, Right, 6);
  }

  /** `tokenize('bold**')` is one right-flanked bold token at 4. */
  lemma TokensRightBoldExample(s: string)
    requires s == "bold**"
    ensures Tokens(s) == [TokenValue(4, Bold, [Right])]
  {
    forall k, f | (k, f) != (Bold, Right) ensures Matches(s, k, f) == [] { MatchesNone(s, k, f); }
    MatchesOne(s, Bold, Right, 4);
    TokensOne(s, Bold, Right, 4);
  }

  /** ``tokenize('`monospaced')`` is one left-flanked monospaced token at 0. */
  lemma TokensLeftMonospacedExample(s: string)
    requires s == "`monospaced"
    ensures Tokens(s) == [TokenValue(0, Monospaced, [Left])]
  {
    forall k, f | (k, f) != (Monospaced, Left) ensures Matches(s, k, f) == [] { MatchesNone(s, k, f); }
    MatchesOne(s, Monospaced, Left, 0);
    TokensOne(s, Monospaced, Left, 0);
  }

  /** ``tokenize('monospaced`')`` is one right-flanked monospaced token at 10. */
  lemma TokensRightMonospacedExample(s: string)
    requires s == "monospaced`"
    ensures Tokens(s) == [TokenValue(10, Monospaced, [Right])]
  {
    forall k, f | (k, f) != (Monospaced, Right) ensures Matches(s, k, f) == [] { MatchesNone(s, k, f); }
    MatchesOne(s, Monospaced, Right, 10);
    TokensOne(s, Monospaced, Right, 10);
  }

  /** ``tokenize('```preformatted')`` is one preformatted token at 0, without labels: none of the
      three backticks is a monospaced marker. */
  lemma TokensUnpairedPreformattedExample(s: string)
    requires s == "```preformatted"
    ensures Tokens(s) == [TokenValue(0, Preformatted, [])]
  {
    forall k, f | (k, f) != (Preformatted, NoFlank) ensures Matches(s, k, f) == [] { MatchesNone(s, k, f); }
    MatchesOne(s, Preformatted, NoFlank, 0);
    TokensOne(s, Preformatted, NoFlank, 0);
  }

  /** `tokenize('_italic_')` is an italic opener at 0 and an italic closer at 7. */
  lemma TokensItalicExample(s: string)
    requires s == "_italic_"
    ensures Tokens(s) == [TokenValue(0, Italic, [Left]), TokenValue(7, Italic, [Right])]
  {
    forall k, f | k != Italic ensures Matches(s, k, f) == [] { MatchesNone(s, k, f); }
    MatchesOne(s, Italic, Left, 0);
    MatchesOne(s, Italic, Right, 7);
    TokensPair(s, Italic, 0, 7);
  }

  /** `tokenize('**bold**')` is a bold opener at 0 and a bold closer at 6. */
  lemma TokensBoldExample(s: string)
    requires s == "**bold**"
    ensures Tokens(s) == [TokenValue(0, Bold, [Left]), TokenValue(6, Bold, [Right])]
  {
    forall k, f | k != Bold ensures Matches(s, k, f) == [] { MatchesNone(s, k, f); }
    MatchesOne(s, Bold, Left, 0);
    MatchesOne(s, Bold, Right, 6);
    TokensPair(s, Bold, 0, 6);
  }

  /** ``tokenize('`monospaced`')`` is a monospaced opener at 0 and a monospaced closer at 11. */
  lemma TokensMonospacedExample(s: string)
    requires s == "`monospaced`"
    ensures Tokens(s) == [TokenValue(0, Monospaced, [Left]), TokenValue(11, Monospaced, [Right])]
  {
    forall k, f | k != Monospaced ensures Matches(s, k, f) == [] { MatchesNone(s, k, f); }
    MatchesOne(s, Monospaced, Left, 0);
    MatchesOne(s, Monospaced, Right, 11);
    TokensPair(s, Monospaced, 0, 11);
  }

  /** ``tokenize('```preformatted```')`` is two preformatted tokens, at 0 and 15. */
  lemma TokensPreformattedExample(s: string)
    requires s == "```preformatted```"
    ensures Tokens(s) == [TokenValue(0, Preformatted, []), TokenValue(15, Preformatted, [])]
  {
    forall k, f | k != Preformatted && k != Monospaced ensures Matches(s, k, f) == [] { AbsentMarker(k, f, s); }
    forall f ensures Matches(s, Monospaced, f) == [] { MatchesNone(s, Monospaced, f); }
    MatchesTwo(s, Preformatted, NoFlank, 0, 15);
    TokensBlockPair(s, Preformatted, 0, 15);
  }

  /** `tokenize('\n\nparagraph\n\n')` is two paragraph tokens, at 0 and 11. */
  lemma TokensParagraphExample(s: string)
    requires s == "\n\nparagraph\n\n"
    ensures Tokens(s) == [TokenValue(0, Paragraph, []), TokenValue(11, Paragraph, [])]
  {
    forall k, f | k != Paragraph ensures Matches(s, k, f) == [] { MatchesNone(s, k, f); }
    MatchesTwo(s, Paragraph, NoFlank, 0, 11);
    TokensBlockPair(s, Paragraph, 0, 11);
  }

  /** `tokenize('left._.right')` is one italic token at 5 carrying both labels. */
  lemma TokensBothItalicExample(s: string)
    requires s == "left._.right"
    ensures Tokens(s) == [TokenValue(5, Italic, [Left, Right])]
  {
    forall k, f | k != Italic ensures Matches(s, k, f) == [] { MatchesNone(s, k, f); }
    MatchesOne(s, Italic, Left, 5);
    MatchesOne(s, Italic, Right, 5);
    TokensBoth(s, Italic, 5);
  }

  /** ``tokenize('left.`.right')`` is one monospaced token at 5 carrying both labels. */
  lemma TokensBothMonospacedExample(s: string)
    requires s == "left.`.right"
    ensures Tokens(s) == [TokenValue(5, Monospaced, [Left, Right])]
  {
    forall k, f | k != Monospaced ensures Matches(s, k, f) == [] { MatchesNone(s, k, f); }
    MatchesOne(s, Monospaced, Left, 5);
    MatchesOne(s, Monospaced, Right, 5);
    TokensBoth(s, Monospaced, 5);
  }

  /** On `` `_**nested**_` `` bold opens at 2 and closes at 10. */
  lemma NestedBoldMatches(s: string)
    requires s == "`_**nested**_`"
    ensures Matches(s, Bold, Left) == [2] && Matches(s, Bold, Right) == [10]
  {
    MatchesOne(s, Bold, Left, 2);
    MatchesOne(s, Bold, Right, 10);
  }

  /** On `` `_**nested**_` `` the underscores at 1 and 12 match under both labels. */
  lemma NestedItalicMatches(s: string)
    requires s == "`_**nested**_`"
    ensures Matches(s, Italic, Left) == [1, 12] && Matches(s, Italic, Right) == [1, 12]
  {
    MatchesTwo(s, Italic, Left, 1, 12);
    MatchesTwo(s, Italic, Right, 1, 12);
  }

  /** On `` `_**nested**_` `` the backticks open at 0 and close at 13, and no block marker occurs. */
  lemma NestedMonospacedMatches(s: string)
    requires s == "`_**nested**_`"
    ensures Matches(s, Monospaced, Left) == [0] && Matches(s, Monospaced, Right) == [13]
    ensures Matches(s, Preformatted, NoFlank) == [] && Matches(s, Paragraph, NoFlank) == []
  {
    MatchesOne(s, Monospaced, Left, 0);
    MatchesOne(s, Monospaced, Right, 13);
    MatchesNone(s, Preformatted, NoFlank);
    MatchesNone(s, Paragraph, NoFlank);
  }

  /** The bold hits of the nested test recorded: opener, then closer after it. */
  lemma NestedBoldRecords(b0: nat, b1: nat)
    requires b0 < b1
    ensures RecordAll(RecordAll([], [b0], Bold, Left), [b1], Bold, Right)
      == [TokenValue(b0, Bold, [Left]), TokenValue(b1, Bold, [Right])]
  {
    RecordNotFound([TokenValue(b0, Bold, [Left])], b1, Bold, Right);
  }

  /** The italic hits of the nested test recorded around a pair `a`, `b`: the left run inserts a
      token on each side, and the right run adds its label to both. */
  lemma NestedItalicRecords(a: TokenValue, b: TokenValue, i0: nat, i1: nat)
    requires i0 < a.index < b.index < i1
    ensures RecordAll(RecordAll([a, b], [i0, i1], Italic, Left), [i0, i1], Italic, Right)
      == [TokenValue(i0, Italic, [Left, Right]), a, b, TokenValue(i1, Italic, [Left, Right])]
  {
    assert [i0, i1][1..] == [i1] && [i1][1..] == [];
    var l0, l1 := TokenValue(i0, Italic, [Left]), TokenValue(i1, Italic, [Left]);
    var r0, r1 := TokenValue(i0, Italic, [Left, Right]), TokenValue(i1, Italic, [Left, Right]);
    RecordNotFound([a, b], i0, Italic, Left);
    assert Record([a, b], i0, Italic, Left) == [l0, a, b];
    RecordNotFound([l0, a, b], i1, Italic, Left);
    InsertSplits([l0, a, b], l1, ValueIndex, 3);
    assert RecordAll([l0, a, b], [i1], Italic, Left) == [l0, a, b, l1];
    assert [Left] + [Right] == [Left, Right];
    RecordFound([l0, a, b, l1], i0, Italic, Right, 0);
    assert Record([l0, a, b, l1], i0, Italic, Right) == [r0, a, b, l1];
    RecordFound([r0, a, b, l1], i1, Italic, Right, 3);
    assert RecordAll([r0, a, b, l1], [i1], Italic, Right) == [r0, a, b, r1];
  }

  /** The monospaced hits of the nested test recorded: one token before the four others, one after. */
  lemma NestedMonospacedRecords(a: TokenValue, b: TokenValue, c: TokenValue, d: TokenValue, m0: nat, m1: nat)
    requires m0 < a.index < b.index < c.index < d.index < m1
    ensures RecordAll(RecordAll([a, b, c, d], [m0], Monospaced, Left), [m1], Monospaced, Right)
      == [TokenValue(m0, Monospaced, [Left]), a, b, c, d, TokenValue(m1, Monospaced, [Right])]
  {
    var l := TokenValue(m0, Monospaced, [Left]);
    RecordNotFound([a, b, c, d], m0, Monospaced, Left);
    RecordNotFound([l, a, b, c, d], m1, Monospaced, Right);
    InsertSplits([l, a, b, c, d], TokenValue(m1, Monospaced, [Right]), ValueIndex, 5);
  }

  /** A text whose bold, italic and monospaced runs leave `b`, `i` and `m`, and that has no block
      marker, has the tokens `m`. */
  lemma TokensThrough(s: string, b: seq<TokenValue>, i: seq<TokenValue>, m: seq<TokenValue>)
    requires RecordAll(RecordAll([], Matches(s, Bold, Left), Bold, Left), Matches(s, Bold, Right), Bold, Right) == b
    requires RecordAll(RecordAll(b, Matches(s, Italic, Left), Italic, Left), Matches(s, Italic, Right), Italic, Right) == i
    requires RecordAll(RecordAll(i, Matches(s, Monospaced, Left), Monospaced, Left), Matches(s, Monospaced, Right), Monospaced, Right) == m
    requires Matches(s, Preformatted, NoFlank) == [] && Matches(s, Paragraph, NoFlank) == []
    ensures Tokens(s) == m
  {
    TokensUnfold(s);
  }

  /** Markers nested as in the nested test, backticks outside underscores outside a bold pair, give
      six tokens in index order, each underscore carrying both labels. */
  lemma NestedTokens(s: string, m0: nat, i0: nat, b0: nat, b1: nat, i1: nat, m1: nat)
    requires m0 < i0 < b0 < b1 < i1 < m1
    requires Matches(s, Bold, Left) == [b0] && Matches(s, Bold, Right) == [b1]
    requires Matches(s, Italic, Left) == [i0, i1] && Matches(s, Italic, Right) == [i0, i1]
    requires Matches(s, Monospaced, Left) == [m0] && Matches(s, Monospaced, Right) == [m1]
    requires Matches(s, Preformatted, NoFlank) == [] && Matches(s, Paragraph, NoFlank) == []
    ensures Tokens(s) ==
      [TokenValue(m0, Monospaced, [Left]), TokenValue(i0, Italic, [Left, Right]), TokenValue(b0, Bold, [Left]),
       TokenValue(b1, Bold, [Right]), TokenValue(i1, Italic, [Left, Right]), TokenValue(m1, Monospaced, [Right])]
  {
    var b := TokenValue(b0, Bold, [Left]);
    var c := TokenValue(b1, Bold, [Right]);
    var a, d := TokenValue(i0, Italic, [Left, Right]), TokenValue(i1, Italic, [Left, Right]);
    NestedBoldRecords(b0, b1);
    NestedItalicRecords(b, c, i0, i1);
    NestedMonospacedRecords(a, b, c, d, m0, m1);
    TokensThrough(s, [b, c], [a, b, c, d],
                  [TokenValue(m0, Monospaced, [Left]), a, b, c, d, TokenValue(m1, Monospaced, [Right])]);
  }

  /** ``tokenize('`_**nested**_`')``: six tokens in index order; each underscore carries both labels. */
  lemma TokensNestedExample(s: string)
    requires s == "`_**nested**_`"
    ensures Tokens(s) ==
      [TokenValue(0, Monospaced, [Left]), TokenValue(1, Italic, [Left, Right]), TokenValue(2, Bold, [Left]),
       TokenValue(10, Bold, [Right]), TokenValue(12, Italic, [Left, Right]), TokenValue(13, Monospaced, [Right])]
  {
    NestedBoldMatches(s);
    NestedItalicMatches(s);
    NestedMonospacedMatches(s);
    NestedTokens(s, 0, 1, 2, 10, 12, 13);
  }

  /** The italic hits of the compiler's nested text recorded inside a pair `b`, `c`: the opener and
      then the closer go in between the two. */
  lemma InnerItalicRecords(b: TokenValue, c: TokenValue, i0: nat, i1: nat)
    requires b.index < i0 < i1 < c.index
    ensures RecordAll(RecordAll([b, c], [i0], Italic, Left), [i1], Italic, Right)
      == [b, TokenValue(i0, Italic, [Left]), TokenValue(i1, Italic, [Right]), c]
  {
    var l, r := TokenValue(i0, Italic, [Left]), TokenValue(i1, Italic, [Right]);
    RecordNotFound([b, c], i0, Italic, Left);
    InsertSplits([b, c], l, ValueIndex, 1);
    assert RecordAll([b, c], [i0], Italic, Left) == [b, l, c];
    RecordNotFound([b, l, c], i1, Italic, Right);
    InsertSplits([b, l, c], r, ValueIndex, 2);
    assert [b, l, c][..2] + [r] + [b, l, c][2..] == [b, l, r, c];
  }

  /** An italic pair inside a bold pair, each marker flanked on one side only and no other marker,
      gives four tokens in index order. */
  lemma InnerTokens(s: string, b0: nat, i0: nat, i1: nat, b1: nat)
    requires b0 < i0 < i1 < b1
    requires Matches(s, Bold, Left) == [b0] && Matches(s, Bold, Right) == [b1]
    requires Matches(s, Italic, Left) == [i0] && Matches(s, Italic, Right) == [i1]
    requires Matches(s, Monospaced, Left) == [] && Matches(s, Monospaced, Right) == []
    requires Matches(s, Preformatted, NoFlank) == [] && Matches(s, Paragraph, NoFlank) == []
    ensures Tokens(s) ==
      [TokenValue(b0, Bold, [Left]), TokenValue(i0, Italic, [Left]), TokenValue(i1, Italic, [Right]), TokenValue(b1, Bold, [Right])]
  {
    var b, c := TokenValue(b0, Bold, [Left]), TokenValue(b1, Bold, [Right]);
    var i := [b, TokenValue(i0, Italic, [Left]), TokenValue(i1, Italic, [Right]), c];
    NestedBoldRecords(b0, b1);
    InnerItalicRecords(b, c, i0, i1);
    TokensThrough(s, [b, c], i, i);
  }

  /** On `**_nested_**` bold opens at 0 and closes at 10. */
  lemma InnerBoldMatches(s: string)
    requires s == "**_nested_**"
    ensures Matches(s, Bold, Left) == [0] && Matches(s, Bold, Right) == [10]
  {
    MatchesOne(s, Bold, Left, 0);
    MatchesOne(s, Bold, Right, 10);
  }

  /** On `**_nested_**` italic opens at 2 and closes at 9. */
  lemma InnerItalicMatches(s: string)
    requires s == "**_nested_**"
    ensures Matches(s, Italic, Left) == [2] && Matches(s, Italic, Right) == [9]
  {
    MatchesOne(s, Italic, Left, 2);
    MatchesOne(s, Italic, Right, 9);
  }

  /** On `**_nested_**` no backtick and no block marker occurs. */
  lemma InnerAbsentMatches(s: string)
    requires s == "**_nested_**"
    ensures Matches(s, Monospaced, Left) == [] && Matches(s, Monospaced, Right) == []
    ensures Matches(s, Preformatted, NoFlank) == [] && Matches(s, Paragraph, NoFlank) == []
  {
    AbsentMarker(Monospaced, Left, s);
    AbsentMarker(Monospaced, Right, s);
    AbsentMarker(Preformatted, NoFlank, s);
    AbsentMarker(Paragraph, NoFlank, s);
  }

  /** ``tokenize('**_nested_**')``, the nested text of the compiler tests: a bold pair at 0 and 10
      around an italic pair at 2 and 9. */
  lemma TokensInnerExample(s: string)
    requires s == "**_nested_**"
    ensures Tokens(s) ==
      [TokenValue(0, Bold, [Left]), TokenValue(2, Italic, [Left]), TokenValue(9, Italic, [Right]), TokenValue(10, Bold, [Right])]
  {
    InnerBoldMatches(s);
    InnerItalicMatches(s);
    InnerAbsentMatches(s);
    InnerTokens(s, 0, 2, 9, 10);
  }

  /** ``tokenize('paragraph1\n\nparagraph2')``, the paragraph text of the compiler tests: one
      paragraph token at 10. */
  lemma TokensTwoParagraphsExample(s: string)
    requires s == "paragraph1\n\nparagraph2"
    ensures Tokens(s) == [TokenValue(10, Paragraph, [])]
  {
    forall k, f | k != Paragraph ensures Matches(s, k, f) == [] { AbsentMarker(k, f, s); }
    forall f | f != NoFlank ensures Matches(s, Paragraph, f) == [] { MatchesNone(s, Paragraph, f); }
    MatchesOne(s, Paragraph, NoFlank, 10);
    TokensOne(s, Paragraph, NoFlank, 10);
  }
}
